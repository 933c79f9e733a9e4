/** A packed envelope arrives, through any windows and any noise, exactly when all its messages have been seen. */
module Delivery {
  import opened Bytes
  import opened Types
  import opened Hex
  import opened Wire
  import opened Transfers
  import opened Pending
  import Base64

  /** A transfer in flight: the texts sent and the item each of them is to the receiver; the manifest is last. */
  datatype Flight = Flight(id: Str, manifest: Manifest, chunks: seq<EncodedChunk>, texts: seq<Str>)

  ghost predicate InFlight(read: Reader, f: Flight) {
    && f.manifest.count == |f.chunks| && 1 <= |f.chunks| <= MAX_CHUNKS && |f.texts| == |f.chunks| + 1
    && (forall k :: 0 <= k < |f.texts| ==> read(f.texts[k]) == Take(f.id, ItemAt(f, k)))
  }

  function ItemAt(f: Flight, k: int): WireBody
    requires 0 <= k < |f.texts| == |f.chunks| + 1 && |f.chunks| <= MAX_CHUNKS
  {
    if k < |f.chunks| then ChunkBody(k, f.chunks[k]) else ManifestBody(f.manifest)
  }

  /** The receiver sees messages of the flight and noise, nothing else. */
  ghost predicate OnlyFlight(read: Reader, f: Flight, seen: seq<Str>) {
    forall text :: text in seen ==> text in f.texts || read(text).Skip?
  }

  /** An item was received exactly when its text was seen. */
  lemma ItemSeen(read: Reader, f: Flight, seen: seq<Str>, k: nat)
    requires InFlight(read, f) && OnlyFlight(read, f, seen) && k < |f.texts|
    ensures (f.id, ItemAt(f, k)) in Items(read, seen) <==> f.texts[k] in seen
  {
    if f.texts[k] in seen {
      assert read(f.texts[k]).Take?;
    }
    if (f.id, ItemAt(f, k)) in Items(read, seen) {
      var text :| text in seen && read(text).Take? && (read(text).id, read(text).item) == (f.id, ItemAt(f, k));
      var j :| 0 <= j < |f.texts| && f.texts[j] == text;
      assert ItemAt(f, j) == ItemAt(f, k);
    }
  }

  lemma ItemsAreSent(read: Reader, f: Flight, seen: seq<Str>, item: Item) returns (k: nat)
    requires InFlight(read, f) && OnlyFlight(read, f, seen) && item in Items(read, seen)
    ensures k < |f.texts| && item == (f.id, ItemAt(f, k)) && f.texts[k] in seen
  {
    var text :| text in seen && read(text).Take? && (read(text).id, read(text).item) == item;
    k :| 0 <= k < |f.texts| && f.texts[k] == text;
  }

  /** Messages of one flight never conflict. */
  lemma FlightScans(read: Reader, f: Flight, seen: seq<Str>)
    requires InFlight(read, f) && OnlyFlight(read, f, seen)
    ensures Scan(read, seen).Ok? && Reflects(Scan(read, seen).value.transfers, Items(read, seen))
  {
    ScanExact(read, seen);
    forall a, b | a in Items(read, seen) && b in Items(read, seen) ensures !Conflict(a, b) {
      var j := ItemsAreSent(read, f, seen, a);
      var k := ItemsAreSent(read, f, seen, b);
    }
    forall text | text in seen ensures !read(text).Bad? {
      if text in f.texts {
        var k :| 0 <= k < |f.texts| && f.texts[k] == text;
      }
    }
  }

  /** The chunk messages among those seen, by index; the last message is the manifest. */
  ghost function Received(texts: seq<Str>, seen: seq<Str>): set<u32> {
    set k: u32 | k < |texts| - 1 && texts[k] in seen
  }

  lemma ChunksArrived(read: Reader, f: Flight, seen: seq<Str>, t: Partial)
    requires InFlight(read, f) && OnlyFlight(read, f, seen)
    requires Holding(t, Items(read, seen), f.id)
    ensures t.chunks.Keys == Received(f.texts, seen)
  {
    forall i: u32 | i in t.chunks ensures i in Received(f.texts, seen) {
      var k := ItemsAreSent(read, f, seen, (f.id, ChunkBody(i, t.chunks[i])));
    }
    forall k | k in Received(f.texts, seen) ensures k in t.chunks {
      ItemSeen(read, f, seen, k);
      assert (f.id, ChunkBody(k, f.chunks[k])) in Items(read, seen);
    }
  }

  lemma ManifestArrived(read: Reader, f: Flight, seen: seq<Str>, t: Partial)
    requires InFlight(read, f) && OnlyFlight(read, f, seen)
    requires Holding(t, Items(read, seen), f.id)
    ensures t.manifest == if f.texts[|f.chunks|] in seen then Some(f.manifest) else None
  {
    ItemSeen(read, f, seen, |f.chunks|);
    if t.manifest.Some? {
      var k := ItemsAreSent(read, f, seen, (f.id, ManifestBody(t.manifest.value)));
    }
  }

  /** Before everything has arrived the receiver is told so, with exact counts. */
  lemma EarlyUnpack(net: Net, f: Flight, seen: seq<Str>)
    requires ValidTransferId(f.id) && InFlight(ReaderFor(net, Some(f.id)), f)
             && OnlyFlight(ReaderFor(net, Some(f.id)), f, seen)
    ensures f.texts[|f.chunks|] !in seen ==> Unpack(net, seen, Some(f.id)) == Err(NoTransfer)
    ensures f.texts[|f.chunks|] in seen && |Received(f.texts, seen)| != |f.chunks| ==>
              Unpack(net, seen, Some(f.id)) == Err(IncompleteTransfer(f.id, |Received(f.texts, seen)|, |f.chunks|))
  {
    var read := ReaderFor(net, Some(f.id));
    FlightScans(read, f, seen);
    var book := Scan(read, seen).value;
    if f.id in book.transfers {
      var t := book.transfers[f.id];
      ManifestArrived(read, f, seen, t);
      ChunksArrived(read, f, seen, t);
    } else {
      ItemSeen(read, f, seen, |f.chunks|);
      assert !Mentioned(Items(read, seen), f.id);
    }
  }

  lemma {:induction false} CountBelow(s: set<u32>, n: nat)
    requires n <= MAX_CHUNKS && forall i :: i in s ==> i < n
    ensures |s| <= n && (|s| == n ==> forall i: u32 :: i < n ==> i in s)
  {
    if n == 0 {
      assert s == {};
    } else {
      var last: u32 := n - 1;
      CountBelow(s - {last}, n - 1);
      if last !in s { assert s - {last} == s; }
    }
  }

  lemma AllReceived(texts: seq<Str>, seen: seq<Str>)
    requires 1 <= |texts| <= MAX_CHUNKS + 1
    ensures (texts[|texts| - 1] in seen && |Received(texts, seen)| == |texts| - 1) <==>
            forall text :: text in texts ==> text in seen
  {
    var n := |texts| - 1;
    CountBelow(Received(texts, seen), n);
    if texts[n] in seen && |Received(texts, seen)| == n {
      forall text | text in texts ensures text in seen {
        var k :| 0 <= k < |texts| && texts[k] == text;
        if k < n {
          var i: u32 := k;
          assert i in Received(texts, seen);
        }
      }
    }
    if forall text :: text in texts ==> text in seen {
      assert texts[n] in texts;
      forall i: u32 ensures i in Received(texts, seen) <==> i < n {
        if i < n { assert texts[i] in texts; }
      }
      IndexCount(Received(texts, seen), n);
    }
  }

  /** Once everything has arrived the transfer is complete. */
  lemma FlightComplete(read: Reader, f: Flight, seen: seq<Str>)
    requires InFlight(read, f) && OnlyFlight(read, f, seen)
    requires forall text :: text in f.texts ==> text in seen
    requires forall k :: 0 <= k < |f.chunks| ==> f.chunks[k].count == |f.chunks|
    ensures Complete(Items(read, seen), f.id, f.manifest,
                     seq(|f.chunks|, i requires 0 <= i < |f.chunks| => f.chunks[i].data))
  {
    var items := Items(read, seen);
    var data := seq(|f.chunks|, i requires 0 <= i < |f.chunks| => f.chunks[i].data);
    ItemSeen(read, f, seen, |f.chunks|);
    forall i: u32, c
      ensures (f.id, ChunkBody(i, c)) in items <==> i < f.manifest.count && c == EncodedChunk(f.manifest.count, data[i])
    {
      if (f.id, ChunkBody(i, c)) in items {
        var k := ItemsAreSent(read, f, seen, (f.id, ChunkBody(i, c)));
      }
      if i < f.manifest.count {
        ItemSeen(read, f, seen, i);
      }
    }
  }

  lemma {:induction false} DecodedPieces(pieces: seq<seq<byte>>, data: seq<Str>)
    requires |data| == |pieces| && forall i :: 0 <= i < |pieces| ==> data[i] == Base64.Encode(pieces[i])
    ensures Decoded(data) == Some(Join(pieces))
  {
    if pieces == [] {
    } else {
      var n := |pieces| - 1;
      DecodedPieces(pieces[..n], data[..n]);
      Base64.RoundTrip(pieces[n]);
    }
  }

  // ----- A packed envelope is such a flight -----

  /** A flight whose chunks carry the bytes of an envelope. */
  ghost predicate Carries(net: Net, f: Flight, pieces: seq<seq<byte>>, e: Envelope) {
    && ValidTransferId(f.id) && InFlight(ReaderFor(net, Some(f.id)), f)
    && |pieces| == |f.chunks|
    && (forall i :: 0 <= i < |pieces| ==> f.chunks[i] == EncodedChunk(|pieces|, Base64.Encode(pieces[i])))
    && Intact(net, f.manifest, Join(pieces)) && Spells(net, f.manifest, Join(pieces), e)
  }

  lemma ManifestReads(net: Net, e: Envelope, bytes: seq<byte>, count: u32, id: Str)
    requires JsonWorks(net) && ValidTransferId(id) && |bytes| <= MAX_TRANSFER_BYTES && 1 <= count <= MAX_CHUNKS
    ensures var body := ManifestBody(ManifestOf(net.sha, e, bytes, count));
            Read(net, Some(id), net.printWire(Message(id, body))) == Take(id, body)
  {
    HexRoundTrip(net.sha(bytes));
    HexRoundTrip(e.journal.contextHash);
    HexRoundTrip(ChallengeDigest(net.sha, e.challenge));
  }

  lemma ChunkReads(net: Net, pieces: seq<seq<byte>>, i: nat, id: Str)
    requires JsonWorks(net) && ValidTransferId(id) && i < |pieces| <= MAX_CHUNKS && |pieces[i]| <= MAX_CHUNK_BYTES
    ensures var body := ChunkBody(i, ChunkOf(pieces, i));
            Read(net, Some(id), net.printWire(Message(id, body))) == Take(id, body)
  {
  }

  /** The bytes of a pack open to the envelope that was packed. */
  lemma PackedBytesOpen(net: Net, e: Envelope, count: u32)
    requires JsonWorks(net) && e.transport == LogosMessaging && |net.printEnvelope(e)| <= MAX_TRANSFER_BYTES
    ensures var m, bytes := ManifestOf(net.sha, e, net.printEnvelope(e), count), net.printEnvelope(e);
            Intact(net, m, bytes) && Spells(net, m, bytes, e)
  {
  }

  lemma PackedCarries(net: Net, e: Envelope, chunkBytes: nat, id: Str, bundle: Bundle)
      returns (f: Flight, pieces: seq<seq<byte>>)
    requires JsonWorks(net) && Pack(net, e, chunkBytes, id) == Ok(bundle)
    ensures Carries(net, f, pieces, e) && f.id == id && f.texts == bundle.messages
  {
    var read := ReaderFor(net, Some(id));
    var bytes := net.printEnvelope(e);
    pieces := Chunks(bytes, chunkBytes);
    var ps := pieces;
    f := Flight(id, ManifestOf(net.sha, e, bytes, |ps|), seq(|ps|, i requires 0 <= i < |ps| => ChunkOf(ps, i)),
                bundle.messages);
    ManifestReads(net, e, bytes, |pieces|, id);
    forall k | 0 <= k < |f.texts| ensures read(f.texts[k]) == Take(f.id, ItemAt(f, k)) {
      if k < |pieces| { ChunkReads(net, pieces, k, id); }
    }
    JoinChunks(bytes, chunkBytes);
    PackedBytesOpen(net, e, |pieces|);
  }

  lemma LateUnpack(net: Net, f: Flight, pieces: seq<seq<byte>>, e: Envelope, seen: seq<Str>)
    requires Carries(net, f, pieces, e) && OnlyFlight(ReaderFor(net, Some(f.id)), f, seen)
    requires forall text :: text in f.texts ==> text in seen
    ensures Unpack(net, seen, Some(f.id)) == Ok((f.id, e))
  {
    var read := ReaderFor(net, Some(f.id));
    FlightScans(read, f, seen);
    FlightComplete(read, f, seen);
    var data := seq(|f.chunks|, i requires 0 <= i < |f.chunks| => f.chunks[i].data);
    DecodedPieces(pieces, data);
    assert Delivers(net, Items(read, seen), f.id, f.manifest, data, e);
    ScanExact(read, seen);
    UnpackExact(net, seen, f.id, e);
  }

  lemma FlightDelivers(net: Net, f: Flight, pieces: seq<seq<byte>>, e: Envelope, seen: seq<Str>)
    requires Carries(net, f, pieces, e) && OnlyFlight(ReaderFor(net, Some(f.id)), f, seen)
    ensures Unpack(net, seen, Some(f.id)) == Outcome(f.id, f.texts, e, seen)
  {
    EarlyUnpack(net, f, seen);
    AllReceived(f.texts, seen);
    if forall text :: text in f.texts ==> text in seen {
      LateUnpack(net, f, pieces, e, seen);
    }
  }

  /** What a receiver of these texts should get: nothing yet, a count of what is missing, or the envelope. */
  ghost function Outcome(id: Str, texts: seq<Str>, e: Envelope, seen: seq<Str>): Result<(Str, Envelope), WireError>
    requires texts != []
  {
    var n := |texts| - 1;
    if texts[n] !in seen then Err(NoTransfer)
    else if |Received(texts, seen)| != n then Err(IncompleteTransfer(id, |Received(texts, seen)|, n))
    else Ok((id, e))
  }

  /** The seen texts are messages of the bundle and noise. */
  ghost predicate OnlyNoiseBesides(net: Net, bundle: Bundle, seen: seq<Str>) {
    forall text :: text in seen ==> text in bundle.messages || Noise(net, bundle.transferId, text)
  }

  lemma NoiseIsSkipped(net: Net, bundle: Bundle, f: Flight, seen: seq<Str>)
    requires OnlyNoiseBesides(net, bundle, seen) && f.id == bundle.transferId && f.texts == bundle.messages
    ensures OnlyFlight(ReaderFor(net, Some(f.id)), f, seen)
  {
    forall text | text in seen ensures text in f.texts || ReaderFor(net, Some(f.id))(text).Skip? {
      ReadExact(net, f.id, text);
    }
  }

  /**
   * The transfer protocol delivers. Feed a pack's messages, in any order and with any repetition, among texts that
   * are nothing to this reader (unparsable, other protocols, other versions, other transfer ids): without the manifest
   * there is no transfer; with it the receiver is told how many chunks it has; with all of them it gets the
   * original envelope.
   */
  lemma TransferDelivers(net: Net, e: Envelope, chunkBytes: nat, id: Str, bundle: Bundle, seen: seq<Str>)
    requires JsonWorks(net) && Pack(net, e, chunkBytes, id) == Ok(bundle)
    requires OnlyNoiseBesides(net, bundle, seen)
    ensures bundle.messages != [] && Unpack(net, seen, Some(id)) == Outcome(id, bundle.messages, e, seen)
  {
    var f, pieces := PackedCarries(net, e, chunkBytes, id, bundle);
    NoiseIsSkipped(net, bundle, f, seen);
    FlightDelivers(net, f, pieces, e, seen);
  }

  // ----- Through the bounded collection -----

  lemma {:induction false} UniqueWithin(a: seq<Str>, b: seq<Str>)
    requires Unique(a) && forall x :: x in a ==> x in b
    ensures |a| <= |b|
  {
    if a == [] {
    } else {
      var n := |a| - 1;
      var x := a[n];
      assert x in b;
      var i :| 0 <= i < |b| && b[i] == x;
      var rest := b[..i] + b[i + 1..];
      forall y | y in a[..n] ensures y in rest {
        var j :| 0 <= j < n && a[j] == y;
        assert y in b;
        var k :| 0 <= k < |b| && b[k] == y;
        assert rest[if k < i then k else k - 1] == y;
      }
      UniqueWithin(a[..n], rest);
    }
  }

  lemma {:induction false} FlightObserved(read: Reader, f: Flight, history: seq<Str>)
    requires InFlight(read, f) && OnlyFlight(read, f, history)
    ensures ObserveAll(read, [], history).error == None
  {
    if history == [] {
    } else {
      var n := |history| - 1;
      FlightObserved(read, f, history[..n]);
      KeptInvariant(read, history[..n]);
      var kept := ObserveAll(read, [], history[..n]).kept;
      UniqueWithin(kept, f.texts);
      if history[n] in f.texts {
        var k :| 0 <= k < |f.texts| && f.texts[k] == history[n];
      }
    }
  }

  lemma FlightThroughWindows(net: Net, f: Flight, pieces: seq<seq<byte>>, e: Envelope, history: seq<Str>)
    requires Carries(net, f, pieces, e) && OnlyFlight(ReaderFor(net, Some(f.id)), f, history)
    ensures var o := ObserveAll(ReaderFor(net, Some(f.id)), [], history);
            && o.error == None
            && Unpack(net, o.kept, Some(f.id)) == Outcome(f.id, f.texts, e, history)
  {
    var read := ReaderFor(net, Some(f.id));
    FlightObserved(read, f, history);
    KeptScansAlike(read, history);
    FlightDelivers(net, f, pieces, e, history);
  }

  /**
   * Through windows: observing such windows never fails, however many there are; the bounded collection gives the same
   * outcome as all of them together, and that is the envelope exactly when every message has been seen.
   */
  lemma DeliveryThroughWindows(net: Net, e: Envelope, chunkBytes: nat, id: Str, bundle: Bundle, windows: seq<seq<Str>>)
    requires JsonWorks(net) && Pack(net, e, chunkBytes, id) == Ok(bundle)
    requires OnlyNoiseBesides(net, bundle, Flatten(windows))
    ensures bundle.messages != []
    ensures var o := ObserveWindows(ReaderFor(net, Some(id)), windows);
            && o.error == None
            && Unpack(net, o.kept, Some(id)) == Outcome(id, bundle.messages, e, Flatten(windows))
    ensures Outcome(id, bundle.messages, e, Flatten(windows)) == Ok((id, e)) <==>
            forall text :: text in bundle.messages ==> text in Flatten(windows)
  {
    var history := Flatten(windows);
    var f, pieces := PackedCarries(net, e, chunkBytes, id, bundle);
    NoiseIsSkipped(net, bundle, f, history);
    FlightThroughWindows(net, f, pieces, e, history);
    WindowsFlatten(ReaderFor(net, Some(id)), windows);
    AllReceived(f.texts, history);
  }
}
