/** Sending an envelope over chat: chunk messages, then a manifest that commits the transfer. */
module Wire {
  import opened Bytes
  import opened Types
  import opened Hex
  import Base64

  const WIRE_VERSION: u16 := 1
  const MAX_CHUNK_BYTES: nat := 49_152
  const MAX_TRANSFER_BYTES: nat := 4_194_304
  const MAX_CHUNKS: nat := 128
  const MAX_ENCODED_CHUNK_BYTES: nat := 65_536
  const MAX_PENDING_MESSAGES: nat := 516

  function Protocol(): Str {
    Ascii("proofgate/attestation-transfer")
  }

  datatype Manifest = Manifest(sha256: Str, bytes: u64, count: u32, contextHash: Str, challengeDigest: Str)

  datatype EncodedChunk = EncodedChunk(count: u32, data: Str)

  datatype WireBody = ManifestBody(manifest: Manifest) | ChunkBody(index: u32, chunk: EncodedChunk)

  datatype WireMessage = WireMessage(protocol: Str, version: u16, transferId: Str, body: WireBody)

  datatype Reason =
    | ManifestBounds | ChunkBounds | TooManyPending | CountOutside | CountDiffers
    | BadBase64 | ChunkTooLarge | BadDigest | BadEnvelope

  datatype WireError =
    | WrongTransport
    | InvalidChunkSize
    | TransferTooLarge(actual: nat)
    | TooManyChunks(actual: nat)
    | InvalidTransferId
    | NoTransfer
    | IncompleteTransfer(transferId: Str, received: nat, expected: nat)
    | ConflictingManifest(transferId: Str)
    | ConflictingChunk(transferId: Str)
    | InvalidWireMessage(reason: Reason)
    | IntegrityFailure
    | ReaderPanicked

  /** Foreign code: the hash and the JSON text of messages and envelopes. */
  datatype Net = Net(
    sha: Hash,
    printWire: WireMessage -> Str,
    parseWire: Str -> Option<WireMessage>,
    printEnvelope: Envelope -> Str,
    parseEnvelope: Str -> Parsed<Envelope>)

  /** Printed JSON is read back, and an envelope never prints as nothing. */
  ghost predicate JsonWorks(net: Net) {
    && (forall m: WireMessage :: net.parseWire(net.printWire(m)) == Some(m))
    && (forall e: Envelope :: net.parseEnvelope(net.printEnvelope(e)) == Parsed(e) && net.printEnvelope(e) != [])
  }

  predicate ValidTransferId(id: Str) {
    |id| == 32 && forall i :: 0 <= i < |id| ==> HexDigit(id[i]).Some? && !(65 <= id[i] <= 90)
  }

  /** A digest's text is readable, or why it is not; a panic is passed on like an error, and nothing runs after it. */
  function TextError(text: Str, reason: Reason): Option<WireError> {
    match DigestFromHex(text)
    case Parsed(_) => None
    case Malformed => Some(InvalidWireMessage(reason))
    case Panics => Some(ReaderPanicked)
  }

  function FirstError(a: Option<WireError>, b: Option<WireError>): Option<WireError> {
    if a.Some? then a else b
  }

  function BodyError(body: WireBody): Option<WireError> {
    match body
    case ManifestBody(m) =>
      if m.count == 0 || m.count > MAX_CHUNKS || m.bytes > MAX_TRANSFER_BYTES then
        Some(InvalidWireMessage(ManifestBounds))
      else
        FirstError(TextError(m.sha256, ManifestBounds),
                   FirstError(TextError(m.contextHash, ManifestBounds), TextError(m.challengeDigest, ManifestBounds)))
    case ChunkBody(index, chunk) =>
      if chunk.count == 0 || chunk.count > MAX_CHUNKS || index >= chunk.count || |chunk.data| > MAX_ENCODED_CHUNK_BYTES
      then Some(InvalidWireMessage(ChunkBounds)) else None
  }

  /** What a well-formed body is: counts and lengths within bounds, an index below its count, and readable digests. */
  predicate BodyOk(body: WireBody) {
    match body
    case ManifestBody(m) =>
      && 1 <= m.count <= 128 && m.bytes <= 4 * 1024 * 1024
      && DigestFromHex(m.sha256).Parsed? && DigestFromHex(m.contextHash).Parsed?
      && DigestFromHex(m.challengeDigest).Parsed?
    case ChunkBody(index, chunk) => index < chunk.count <= 128 && |chunk.data| <= (48 * 1024 + 2) / 3 * 4
  }

  /** A body is accepted exactly when it is well-formed; otherwise it is malformed or makes the reader panic. */
  lemma BodyErrorExact(body: WireBody)
    ensures BodyError(body) == None <==> BodyOk(body)
    ensures body.ManifestBody? && BodyError(body).Some? ==>
            BodyError(body).value in {InvalidWireMessage(ManifestBounds), ReaderPanicked}
    ensures body.ChunkBody? && BodyError(body).Some? ==> BodyError(body) == Some(InvalidWireMessage(ChunkBounds))
  {
  }

  /** The identifiers of transfers are the printed texts of sixteen bytes. */
  lemma TransferIdsArePrinted(id: Str)
    ensures ValidTransferId(id) <==> exists bytes: seq<byte> :: |bytes| == 16 && id == ToHex(bytes)
  {
    if ValidTransferId(id) {
      var bytes := LowerDigitsPrinted(id);
    }
    if bytes: seq<byte> :| |bytes| == 16 && id == ToHex(bytes) {
      ToHexLower(bytes);
    }
  }

  /** The bounds are tested first; then the first of the three digest texts that cannot be read decides. */
  lemma ManifestPanicsExactly(m: Manifest)
    ensures BodyError(ManifestBody(m)) == Some(ReaderPanicked) <==>
            && 1 <= m.count <= MAX_CHUNKS && m.bytes <= MAX_TRANSFER_BYTES
            && (|| DigestFromHex(m.sha256).Panics?
                || (DigestFromHex(m.sha256).Parsed? && DigestFromHex(m.contextHash).Panics?)
                || (DigestFromHex(m.sha256).Parsed? && DigestFromHex(m.contextHash).Parsed?
                    && DigestFromHex(m.challengeDigest).Panics?))
  {
  }

  lemma PanickingManifest(contextHash: Str, challengeDigest: Str)
    ensures BodyError(ManifestBody(Manifest(PanicText(), 1, 1, contextHash, challengeDigest))) == Some(ReaderPanicked)
  {
    PanicTextPanics();
  }

  // ----- Packing -----

  datatype Bundle = Bundle(transferId: Str, messages: seq<Str>)

  /** Consecutive pieces of `size` bytes, the last one possibly shorter. */
  function Chunks(bytes: seq<byte>, size: nat): (pieces: seq<seq<byte>>)
    requires size > 0
    ensures forall i :: 0 <= i < |pieces| ==> 1 <= |pieces[i]| <= size
    ensures bytes != [] <==> pieces != []
    decreases |bytes|
  {
    if bytes == [] then []
    else if |bytes| <= size then [bytes]
    else [bytes[..size]] + Chunks(bytes[size..], size)
  }

  function Join(pieces: seq<seq<byte>>): seq<byte> {
    if pieces == [] then [] else Join(pieces[..|pieces| - 1]) + pieces[|pieces| - 1]
  }

  lemma {:induction false} JoinFront(first: seq<byte>, rest: seq<seq<byte>>)
    ensures Join([first] + rest) == first + Join(rest)
  {
    var all := [first] + rest;
    if rest == [] {
      assert all == [first] && all[..0] == [];
      assert Join(all) == Join([]) + first;
    } else {
      var n := |rest| - 1;
      JoinFront(first, rest[..n]);
      assert all[..|all| - 1] == [first] + rest[..n];
      assert (first + Join(rest[..n])) + rest[n] == first + (Join(rest[..n]) + rest[n]);
    }
  }

  /** Joining the pieces gives the bytes back. */
  lemma {:induction false} JoinChunks(bytes: seq<byte>, size: nat)
    requires size > 0
    ensures Join(Chunks(bytes, size)) == bytes
    decreases |bytes|
  {
    if bytes == [] {
    } else if |bytes| <= size {
      assert [bytes][..0] == [];
      assert Join([bytes]) == Join([]) + bytes;
    } else {
      JoinChunks(bytes[size..], size);
      JoinFront(bytes[..size], Chunks(bytes[size..], size));
      assert bytes == bytes[..size] + bytes[size..];
    }
  }

  /** The bytes are cut into as many pieces as their length divided by the size, rounded up, all full but the last. */
  lemma {:induction false} ChunkCount(bytes: seq<byte>, size: nat)
    requires size > 0
    ensures var pieces := Chunks(bytes, size);
            && |pieces| == (|bytes| + size - 1) / size
            && forall i :: 0 <= i < |pieces| - 1 ==> |pieces[i]| == size
    decreases |bytes|
  {
    if bytes == [] {
      Regroup(0, size - 1, size);
    } else if |bytes| <= size {
      Regroup(1, |bytes| - 1, size);
    } else {
      ChunkCount(bytes[size..], size);
      OneMore(|bytes| - 1, size);
    }
  }

  lemma OneMore(n: nat, size: nat)
    requires size > 0
    ensures (n + size) / size == n / size + 1
  {
    var q, r := n / size, n % size;
    assert (q + 1) * size == q * size + size;
    Regroup(q + 1, r, size);
  }

  function ChunkOf(pieces: seq<seq<byte>>, i: nat): EncodedChunk
    requires i < |pieces| <= MAX_CHUNKS
  {
    EncodedChunk(|pieces|, Base64.Encode(pieces[i]))
  }

  function ManifestOf(sha: Hash, e: Envelope, bytes: seq<byte>, count: u32): Manifest
    requires |bytes| <= MAX_TRANSFER_BYTES
  {
    Manifest(ToHex(sha(bytes)), |bytes|, count, ToHex(e.journal.contextHash), ToHex(ChallengeDigest(sha, e.challenge)))
  }

  function Message(id: Str, body: WireBody): WireMessage {
    WireMessage(Protocol(), WIRE_VERSION, id, body)
  }

  function ChunkTexts(net: Net, id: Str, pieces: seq<seq<byte>>, k: nat): seq<Str>
    requires k <= |pieces| <= MAX_CHUNKS
  {
    seq(k, i requires 0 <= i < k => net.printWire(Message(id, ChunkBody(i, ChunkOf(pieces, i)))))
  }

  function Pack(net: Net, e: Envelope, chunkBytes: nat, id: Str): Result<Bundle, WireError> {
    if e.transport != LogosMessaging then Err(WrongTransport)
    else if !(1 <= chunkBytes <= MAX_CHUNK_BYTES) then Err(InvalidChunkSize)
    else if !ValidTransferId(id) then Err(InvalidTransferId)
    else
      var bytes := net.printEnvelope(e);
      if |bytes| > MAX_TRANSFER_BYTES then Err(TransferTooLarge(|bytes|))
      else
        var pieces := Chunks(bytes, chunkBytes);
        if |pieces| > MAX_CHUNKS then Err(TooManyChunks(|pieces|))
        else
          Ok(Bundle(id, ChunkTexts(net, id, pieces, |pieces|)
                        + [net.printWire(Message(id, ManifestBody(ManifestOf(net.sha, e, bytes, |pieces|))))]))
  }

  /** When packing succeeds, and how many messages it makes: one for each chunk, rounded up, and the manifest. */
  lemma PackExact(net: Net, e: Envelope, chunkBytes: nat, id: Str)
    ensures var length := |net.printEnvelope(e)|;
            && (Pack(net, e, chunkBytes, id).Ok? <==>
                  && e.transport == LogosMessaging && 1 <= chunkBytes <= 49_152 && ValidTransferId(id)
                  && length <= 4_194_304 && (length + chunkBytes - 1) / chunkBytes <= 128)
            && (Pack(net, e, chunkBytes, id).Ok? ==>
                  var bundle := Pack(net, e, chunkBytes, id).value;
                  bundle.transferId == id && |bundle.messages| == (length + chunkBytes - 1) / chunkBytes + 1)
  {
    if chunkBytes > 0 { ChunkCount(net.printEnvelope(e), chunkBytes); }
  }

  /** Every refusal to pack names what is wrong. */
  lemma PackExplained(net: Net, e: Envelope, chunkBytes: nat, id: Str)
    requires Pack(net, e, chunkBytes, id).Err?
    ensures var length := |net.printEnvelope(e)|;
            match Pack(net, e, chunkBytes, id).error
            case WrongTransport => e.transport != LogosMessaging
            case InvalidChunkSize => chunkBytes == 0 || chunkBytes > 49_152
            case InvalidTransferId => !ValidTransferId(id)
            case TransferTooLarge(actual) => actual == length > 4_194_304
            case TooManyChunks(actual) => chunkBytes > 0 && actual == (length + chunkBytes - 1) / chunkBytes > 128
            case _ => false
  {
    if chunkBytes > 0 { ChunkCount(net.printEnvelope(e), chunkBytes); }
  }

  /** The loop that appends one message a chunk and the manifest last. */
  method PackEnvelope(net: Net, e: Envelope, chunkBytes: nat, id: Str) returns (r: Result<Bundle, WireError>)
    ensures r == Pack(net, e, chunkBytes, id)
  {
    if e.transport != LogosMessaging {
      return Err(WrongTransport);
    }
    if !(1 <= chunkBytes <= MAX_CHUNK_BYTES) {
      return Err(InvalidChunkSize);
    }
    if !ValidTransferId(id) {
      return Err(InvalidTransferId);
    }
    var bytes := net.printEnvelope(e);
    if |bytes| > MAX_TRANSFER_BYTES {
      return Err(TransferTooLarge(|bytes|));
    }
    var pieces := Chunks(bytes, chunkBytes);
    if |pieces| > MAX_CHUNKS {
      return Err(TooManyChunks(|pieces|));
    }
    var messages: seq<Str> := [];
    for i := 0 to |pieces|
      invariant messages == ChunkTexts(net, id, pieces, i)
    {
      messages := messages + [net.printWire(Message(id, ChunkBody(i, ChunkOf(pieces, i))))];
    }
    messages := messages + [net.printWire(Message(id, ManifestBody(ManifestOf(net.sha, e, bytes, |pieces|))))];
    return Ok(Bundle(id, messages));
  }

  // ----- Collecting -----

  /** What one chat text is to a reader: noise, a malformed protocol message, or an item of some transfer. */
  datatype Reading = Skip | Bad(error: WireError) | Take(id: Str, item: WireBody)

  type Reader = Str -> Reading

  function Read(net: Net, requested: Option<Str>, text: Str): Reading {
    match net.parseWire(text)
    case None => Skip
    case Some(m) =>
      if m.protocol != Protocol() || m.version != WIRE_VERSION then Skip
      else if !ValidTransferId(m.transferId) then Skip
      else if requested.Some? && requested.value != m.transferId then Skip
      else
        match BodyError(m.body)
        case Some(e) => Bad(e)
        case None => Take(m.transferId, m.body)
  }

  /**
   * Texts that are nothing to a reader of this transfer: not JSON of a message, or of another protocol, version or
   * transfer.
   */
  predicate Noise(net: Net, id: Str, text: Str) {
    match net.parseWire(text)
    case None => true
    case Some(m) =>
      || m.protocol != Ascii("proofgate/attestation-transfer") || m.version != 1
      || m.transferId != id || !ValidTransferId(id)
  }

  /** Exactly noise is skipped, and what is not is judged by its body. */
  lemma ReadExact(net: Net, id: Str, text: Str)
    ensures Read(net, Some(id), text).Skip? <==> Noise(net, id, text)
    ensures !Noise(net, id, text) ==>
            var body := net.parseWire(text).value.body;
            Read(net, Some(id), text) == if BodyOk(body) then Take(id, body) else Bad(BodyError(body).value)
  {
    if !Noise(net, id, text) { BodyErrorExact(net.parseWire(text).value.body); }
  }

  function ReaderFor(net: Net, requested: Option<Str>): Reader {
    text => Read(net, requested, text)
  }

  datatype Partial = Partial(manifest: Option<Manifest>, chunks: map<u32, EncodedChunk>)

  /** The transfers seen, and the order in which their manifests first appeared. */
  datatype Book = Book(transfers: map<Str, Partial>, order: seq<Str>)

  const EMPTY_BOOK: Book := Book(map[], [])

  function Entry(book: Book, id: Str): Partial {
    if id in book.transfers then book.transfers[id] else Partial(None, map[])
  }

  function Absorb(book: Book, id: Str, item: WireBody): Result<Book, WireError> {
    var t := Entry(book, id);
    match item
    case ManifestBody(m) =>
      if t.manifest.Some? && t.manifest.value != m then Err(ConflictingManifest(id))
      else if t.manifest == None then
        Ok(Book(book.transfers[id := t.(manifest := Some(m))], book.order + [id]))
      else Ok(book.(transfers := book.transfers[id := t]))
    case ChunkBody(index, chunk) =>
      if index in t.chunks && t.chunks[index] != chunk then Err(ConflictingChunk(id))
      else Ok(book.(transfers := book.transfers[id := t.(chunks := t.chunks[index := chunk])]))
  }

  function Step(read: Reader, book: Book, text: Str): Result<Book, WireError> {
    match read(text)
    case Skip => Ok(book)
    case Bad(e) => Err(e)
    case Take(id, item) => Absorb(book, id, item)
  }

  /** All texts in order; the first error ends the scan. */
  function Scan(read: Reader, texts: seq<Str>): Result<Book, WireError> {
    if texts == [] then Ok(EMPTY_BOOK)
    else
      match Scan(read, texts[..|texts| - 1])
      case Err(e) => Err(e)
      case Ok(book) => Step(read, book, texts[|texts| - 1])
  }

  // ----- Assembling -----

  function ChunkBytes(t: Partial, id: Str, m: Manifest, i: u32): Result<seq<byte>, WireError> {
    if i !in t.chunks then Err(IncompleteTransfer(id, |t.chunks|, m.count))
    else if t.chunks[i].count != m.count then Err(InvalidWireMessage(CountDiffers))
    else
      match Base64.Decode(t.chunks[i].data)
      case None => Err(InvalidWireMessage(BadBase64))
      case Some(bytes) => if |bytes| > MAX_CHUNK_BYTES then Err(InvalidWireMessage(ChunkTooLarge)) else Ok(bytes)
  }

  /** The bytes of the first k chunks. */
  function Gather(t: Partial, id: Str, m: Manifest, k: u32): Result<seq<byte>, WireError>
    decreases k
  {
    if k == 0 then Ok([])
    else
      match Gather(t, id, m, k - 1)
      case Err(e) => Err(e)
      case Ok(front) =>
        match ChunkBytes(t, id, m, k - 1)
        case Err(e) => Err(e)
        case Ok(bytes) => Ok(front + bytes)
  }

  /** The checks on the joined bytes. */
  function OpenBytes(net: Net, m: Manifest, bytes: seq<byte>): Result<Envelope, WireError> {
    if |bytes| != m.bytes || ToHex(net.sha(bytes)) != m.sha256 then Err(IntegrityFailure)
    else
      match FirstError(TextError(m.contextHash, BadDigest), TextError(m.challengeDigest, BadDigest))
      case Some(e) => Err(e)
      case None =>
        match net.parseEnvelope(bytes)
        case Malformed => Err(InvalidWireMessage(BadEnvelope))
        case Panics => Err(ReaderPanicked)
        case Parsed(e) =>
          if e.transport != LogosMessaging then Err(WrongTransport)
          else if || ToHex(e.journal.contextHash) != m.contextHash
                  || ToHex(ChallengeDigest(net.sha, e.challenge)) != m.challengeDigest then Err(IntegrityFailure)
          else Ok(e)
  }

  /** The joined bytes have the manifest's length and hash. */
  predicate Intact(net: Net, m: Manifest, bytes: seq<byte>) {
    |bytes| == m.bytes && ToHex(net.sha(bytes)) == m.sha256
  }

  /** They also spell this envelope, made for chat, whose context and challenge the manifest names. */
  predicate Spells(net: Net, m: Manifest, bytes: seq<byte>, e: Envelope) {
    && net.parseEnvelope(bytes) == Parsed(e) && e.transport == LogosMessaging
    && ToHex(e.journal.contextHash) == m.contextHash
    && ToHex(ChallengeDigest(net.sha, e.challenge)) == m.challengeDigest
  }

  /** Opening gives an envelope exactly when the bytes are intact and spell it. */
  lemma OpenBytesExact(net: Net, m: Manifest, bytes: seq<byte>, e: Envelope)
    ensures OpenBytes(net, m, bytes) == Ok(e) <==> Intact(net, m, bytes) && Spells(net, m, bytes, e)
  {
    HexRoundTrip(e.journal.contextHash);
    HexRoundTrip(ChallengeDigest(net.sha, e.challenge));
  }

  /** And otherwise what is wrong, for a manifest whose digest texts are readable. */
  lemma OpenBytesRefused(net: Net, m: Manifest, bytes: seq<byte>)
    requires BodyOk(ManifestBody(m))
    ensures !Intact(net, m, bytes) ==> OpenBytes(net, m, bytes) == Err(IntegrityFailure)
    ensures Intact(net, m, bytes) ==>
            match net.parseEnvelope(bytes)
            case Malformed => OpenBytes(net, m, bytes) == Err(InvalidWireMessage(BadEnvelope))
            case Panics => OpenBytes(net, m, bytes) == Err(ReaderPanicked)
            case Parsed(e) =>
              && (e.transport != LogosMessaging ==> OpenBytes(net, m, bytes) == Err(WrongTransport))
              && (e.transport == LogosMessaging && !Spells(net, m, bytes, e) ==>
                    OpenBytes(net, m, bytes) == Err(IntegrityFailure))
  {
  }

  /** A manifest stands for one envelope: what opens under it twice is the same, or the two byte strings collide. */
  lemma ManifestBinds(net: Net, m: Manifest, a: seq<byte>, b: seq<byte>, e: Envelope, f: Envelope)
    requires OpenBytes(net, m, a) == Ok(e) && OpenBytes(net, m, b) == Ok(f)
    ensures (a == b && e == f) || Collides(net.sha, a, b)
  {
    OpenBytesExact(net, m, a, e);
    OpenBytesExact(net, m, b, f);
    HexInjective(net.sha(a), net.sha(b));
  }

  function Assemble(net: Net, t: Partial, id: Str): Result<Envelope, WireError> {
    match t.manifest
    case None => Err(NoTransfer)
    case Some(m) =>
      if m.count == 0 || m.count > MAX_CHUNKS then Err(InvalidWireMessage(CountOutside))
      else if |t.chunks| != m.count then Err(IncompleteTransfer(id, |t.chunks|, m.count))
      else if m.bytes > MAX_TRANSFER_BYTES then Err(TransferTooLarge(m.bytes))
      else
        match Gather(t, id, m, m.count)
        case Err(e) => Err(e)
        case Ok(bytes) => OpenBytes(net, m, bytes)
  }

  function Finish(net: Net, book: Book, requested: Option<Str>): Result<(Str, Envelope), WireError> {
    var id := if requested.Some? then requested
              else if book.order != [] then Some(book.order[|book.order| - 1])
              else None;
    if id == None || id.value !in book.transfers then Err(NoTransfer)
    else
      match Assemble(net, book.transfers[id.value], id.value)
      case Err(e) => Err(e)
      case Ok(envelope) => Ok((id.value, envelope))
  }

  function Unpack(net: Net, texts: seq<Str>, requested: Option<Str>): Result<(Str, Envelope), WireError> {
    if requested.Some? && !ValidTransferId(requested.value) then Err(InvalidTransferId)
    else
      match Scan(ReaderFor(net, requested), texts)
      case Err(e) => Err(e)
      case Ok(book) => Finish(net, book, requested)
  }

  lemma {:induction false} ScanStops(read: Reader, texts: seq<Str>, k: nat)
    requires k <= |texts| && Scan(read, texts[..k]).Err?
    ensures Scan(read, texts) == Scan(read, texts[..k])
  {
    if k == |texts| {
      assert texts[..k] == texts;
    } else {
      var front := texts[..|texts| - 1];
      assert front[..k] == texts[..k];
      ScanStops(read, front, k);
    }
  }

  lemma {:induction false} GatherStops(t: Partial, id: Str, m: Manifest, k: u32, n: u32)
    requires k <= n && Gather(t, id, m, k).Err?
    ensures Gather(t, id, m, n) == Gather(t, id, m, k)
    decreases n
  {
    if k == n {
    } else {
      GatherStops(t, id, m, k, n - 1);
    }
  }

  /** The receiving loop: a map of partial transfers and the manifest order, updated text by text. */
  method ScanTexts(read: Reader, texts: seq<Str>) returns (r: Result<Book, WireError>)
    ensures r == Scan(read, texts)
  {
    var transfers: map<Str, Partial> := map[];
    var order: seq<Str> := [];
    for i := 0 to |texts|
      invariant Scan(read, texts[..i]) == Ok(Book(transfers, order))
    {
      assert texts[..i + 1][..i] == texts[..i];
      var reading := read(texts[i]);
      match reading {
        case Skip =>
        case Bad(e) =>
          ScanStops(read, texts, i + 1);
          return Err(e);
        case Take(id, item) =>
          var t := Entry(Book(transfers, order), id);
          match item {
            case ManifestBody(m) =>
              if t.manifest.Some? && t.manifest.value != m {
                ScanStops(read, texts, i + 1);
                return Err(ConflictingManifest(id));
              }
              if t.manifest == None {
                order := order + [id];
                t := t.(manifest := Some(m));
              }
            case ChunkBody(index, chunk) =>
              if index in t.chunks && t.chunks[index] != chunk {
                ScanStops(read, texts, i + 1);
                return Err(ConflictingChunk(id));
              }
              t := t.(chunks := t.chunks[index := chunk]);
          }
          transfers := transfers[id := t];
      }
    }
    assert texts[..|texts|] == texts;
    return Ok(Book(transfers, order));
  }

  method AssembleTransfer(net: Net, t: Partial, id: Str) returns (r: Result<Envelope, WireError>)
    ensures r == Assemble(net, t, id)
  {
    if t.manifest == None {
      return Err(NoTransfer);
    }
    var m := t.manifest.value;
    if m.count == 0 || m.count > MAX_CHUNKS {
      return Err(InvalidWireMessage(CountOutside));
    }
    if |t.chunks| != m.count {
      return Err(IncompleteTransfer(id, |t.chunks|, m.count));
    }
    if m.bytes > MAX_TRANSFER_BYTES {
      return Err(TransferTooLarge(m.bytes));
    }
    var bytes: seq<byte> := [];
    for i := 0 to m.count
      invariant Gather(t, id, m, i) == Ok(bytes)
    {
      var piece := ChunkBytes(t, id, m, i);
      if piece.Err? {
        GatherStops(t, id, m, i + 1, m.count);
        return Err(piece.error);
      }
      bytes := bytes + piece.value;
    }
    return OpenBytes(net, m, bytes);
  }

  method UnpackEnvelope(
      net: Net, texts: seq<Str>, requested: Option<Str>)
      returns (r: Result<(Str, Envelope), WireError>)
    ensures r == Unpack(net, texts, requested)
  {
    if requested.Some? && !ValidTransferId(requested.value) {
      return Err(InvalidTransferId);
    }
    var scanned := ScanTexts(ReaderFor(net, requested), texts);
    if scanned.Err? {
      return Err(scanned.error);
    }
    var book := scanned.value;
    var id := if requested.Some? then requested
              else if book.order != [] then Some(book.order[|book.order| - 1])
              else None;
    if id == None || id.value !in book.transfers {
      return Err(NoTransfer);
    }
    var envelope := AssembleTransfer(net, book.transfers[id.value], id.value);
    if envelope.Err? {
      return Err(envelope.error);
    }
    return Ok((id.value, envelope.value));
  }
}
