/** What a scan of chat history amounts to: a set of items, whatever their order and repetition. */
module Transfers {
  import opened Bytes
  import opened Types
  import opened Hex
  import opened Wire
  import Base64

  type Item = (Str, WireBody)

  ghost function Items(read: Reader, texts: seq<Str>): set<Item> {
    set text | text in texts && read(text).Take? :: (read(text).id, read(text).item)
  }

  ghost predicate NoBad(read: Reader, texts: seq<Str>) {
    forall text :: text in texts ==> !read(text).Bad?
  }

  predicate Conflict(a: Item, b: Item) {
    && a.0 == b.0 && a.1 != b.1
    && ((a.1.ManifestBody? && b.1.ManifestBody?) || (a.1.ChunkBody? && b.1.ChunkBody? && a.1.index == b.1.index))
  }

  ghost predicate Consistent(items: set<Item>) {
    forall a, b :: a in items && b in items ==> !Conflict(a, b)
  }

  ghost predicate Mentioned(items: set<Item>, id: Str) {
    exists item :: item in items && item.0 == id
  }

  /** The transfer holds exactly the items of its id. */
  ghost predicate Holding(t: Partial, items: set<Item>, id: Str) {
    && (forall m :: t.manifest == Some(m) <==> (id, ManifestBody(m)) in items)
    && (forall i: u32, c :: (i in t.chunks && t.chunks[i] == c) <==> (id, ChunkBody(i, c)) in items)
  }

  ghost predicate Reflects(transfers: map<Str, Partial>, items: set<Item>) {
    && (forall id :: id in transfers <==> Mentioned(items, id))
    && (forall id :: id in transfers ==> Holding(transfers[id], items, id))
  }

  /** Absorbing an item succeeds exactly when it conflicts with none before, and then adds it. */
  lemma AbsorbReflects(book: Book, items: set<Item>, id: Str, item: WireBody)
    requires Reflects(book.transfers, items)
    ensures Absorb(book, id, item).Ok? <==> forall a :: a in items ==> !Conflict(a, (id, item))
    ensures Absorb(book, id, item).Ok? ==> Reflects(Absorb(book, id, item).value.transfers, items + {(id, item)})
  {
    var t := Entry(book, id);
    assert Holding(t, items, id) by {
      if id !in book.transfers { assert !Mentioned(items, id); }
    }
    if Absorb(book, id, item).Ok? {
      forall a | a in items ensures !Conflict(a, (id, item)) {
        if a.0 == id { assert a == (id, a.1); }
      }
      AbsorbAdds(book, items, id, item);
    } else {
      match item
      case ManifestBody(m) =>
        assert Conflict((id, ManifestBody(t.manifest.value)), (id, item));
      case ChunkBody(i, c) =>
        assert Conflict((id, ChunkBody(i, t.chunks[i])), (id, item));
    }
  }

  lemma AbsorbAdds(book: Book, items: set<Item>, id: Str, item: WireBody)
    requires Reflects(book.transfers, items) && Absorb(book, id, item).Ok?
    ensures Reflects(Absorb(book, id, item).value.transfers, items + {(id, item)})
  {
    var t := Entry(book, id);
    assert Holding(t, items, id) by {
      if id !in book.transfers { assert !Mentioned(items, id); }
    }
    var next, more := Absorb(book, id, item).value.transfers, items + {(id, item)};
    assert Mentioned(more, id) by { assert (id, item) in more; }
    assert Holding(next[id], more, id);
    forall other | other != id
      ensures other in next <==> Mentioned(more, other)
      ensures other in next ==> Holding(next[other], more, other)
    {
      OtherMentioned(items, id, item, other);
      if other in next { assert Holding(book.transfers[other], items, other); }
    }
  }

  lemma OtherMentioned(items: set<Item>, id: Str, item: WireBody, other: Str)
    requires other != id
    ensures Mentioned(items, other) <==> Mentioned(items + {(id, item)}, other)
  {
    if Mentioned(items, other) {
      var a :| a in items && a.0 == other;
      assert a in items + {(id, item)};
    }
    if Mentioned(items + {(id, item)}, other) {
      var a :| a in items + {(id, item)} && a.0 == other;
      assert a in items;
    }
  }

  lemma ItemsOne(read: Reader, texts: seq<Str>, text: Str)
    ensures Items(read, texts + [text])
            == Items(read, texts) + if read(text).Take? then {(read(text).id, read(text).item)} else {}
  {
    assert forall x :: x in texts + [text] <==> x in texts || x == text;
  }

  /** A scan succeeds exactly on clean items, and then its book holds exactly the items. */
  lemma {:induction false} ScanExact(read: Reader, texts: seq<Str>)
    ensures Scan(read, texts).Ok? <==> NoBad(read, texts) && Consistent(Items(read, texts))
    ensures Scan(read, texts).Ok? ==> Reflects(Scan(read, texts).value.transfers, Items(read, texts))
  {
    if texts == [] {
    } else {
      var n := |texts| - 1;
      ScanExact(read, texts[..n]);
      assert texts == texts[..n] + [texts[n]];
      StepExact(read, texts[..n], texts[n], Scan(read, texts[..n]));
    }
  }

  lemma StepExact(read: Reader, front: seq<Str>, text: Str, scanned: Result<Book, WireError>)
    requires scanned.Ok? <==> NoBad(read, front) && Consistent(Items(read, front))
    requires scanned.Ok? ==> Reflects(scanned.value.transfers, Items(read, front))
    ensures var next := if scanned.Ok? then Step(read, scanned.value, text) else scanned;
            && (next.Ok? <==> NoBad(read, front + [text]) && Consistent(Items(read, front + [text])))
            && (next.Ok? ==> Reflects(next.value.transfers, Items(read, front + [text])))
  {
    var texts := front + [text];
    ItemsOne(read, front, text);
    var before, after := Items(read, front), Items(read, texts);
    assert Consistent(after) ==> Consistent(before);
    assert NoBad(read, texts) <==> NoBad(read, front) && !read(text).Bad?;
    if scanned.Ok? && read(text).Take? {
      AbsorbReflects(scanned.value, before, read(text).id, read(text).item);
      ConsistentOne(before, (read(text).id, read(text).item));
    }
  }

  lemma ConsistentOne(items: set<Item>, item: Item)
    requires Consistent(items)
    ensures Consistent(items + {item}) <==> forall a :: a in items ==> !Conflict(a, item)
  {
    if Consistent(items + {item}) {
      forall a | a in items ensures !Conflict(a, item) {
        assert a in items + {item} && item in items + {item};
      }
    }
    assert forall a, b :: Conflict(a, b) <==> Conflict(b, a);
  }

  lemma HoldingUnique(s: Partial, t: Partial, items: set<Item>, id: Str)
    requires Holding(s, items, id) && Holding(t, items, id)
    ensures s == t
  {
    assert s.manifest == t.manifest by {
      if s.manifest.Some? { assert (id, ManifestBody(s.manifest.value)) in items; }
      if t.manifest.Some? { assert (id, ManifestBody(t.manifest.value)) in items; }
    }
    forall i: u32 ensures i in s.chunks <==> i in t.chunks {
      if i in s.chunks { assert (id, ChunkBody(i, s.chunks[i])) in items; }
      if i in t.chunks { assert (id, ChunkBody(i, t.chunks[i])) in items; }
    }
    forall i: u32 | i in s.chunks ensures s.chunks[i] == t.chunks[i] {
      assert (id, ChunkBody(i, s.chunks[i])) in items;
    }
    assert s.chunks == t.chunks;
  }

  /** The items fix the transfers. */
  lemma ReflectsUnique(s: map<Str, Partial>, t: map<Str, Partial>, items: set<Item>)
    requires Reflects(s, items) && Reflects(t, items)
    ensures s == t
  {
    assert forall id :: id in s <==> id in t;
    forall id | id in s ensures s[id] == t[id] {
      HoldingUnique(s[id], t[id], items, id);
    }
  }

  /**
   * For a requested transfer only the set of messages counts: two histories with the same texts give the same result,
   * or both fail while they are scanned.
   */
  lemma OrderIrrelevant(net: Net, a: seq<Str>, b: seq<Str>, id: Str)
    requires forall text :: text in a <==> text in b
    ensures Unpack(net, a, Some(id)) == Unpack(net, b, Some(id))
         || (Scan(ReaderFor(net, Some(id)), a).Err? && Scan(ReaderFor(net, Some(id)), b).Err?)
  {
    var read := ReaderFor(net, Some(id));
    SameItems(read, a, b);
    ScanExact(read, a);
    ScanExact(read, b);
    if Scan(read, a).Ok? {
      ReflectsUnique(Scan(read, a).value.transfers, Scan(read, b).value.transfers, Items(read, a));
    }
  }

  lemma SameItems(read: Reader, a: seq<Str>, b: seq<Str>)
    requires forall text :: text in a <==> text in b
    ensures Items(read, a) == Items(read, b) && (NoBad(read, a) <==> NoBad(read, b))
  {
  }

  // ----- Unpacking without a requested transfer -----

  predicate ManifestAt(read: Reader, texts: seq<Str>, k: int, id: Str) {
    0 <= k < |texts| && read(texts[k]).Take? && read(texts[k]).id == id && read(texts[k]).item.ManifestBody?
  }

  ghost predicate Manifested(read: Reader, texts: seq<Str>, id: Str) {
    exists k :: ManifestAt(read, texts, k, id)
  }

  /** The order lists the transfers with a manifest, each once. */
  lemma {:induction false} OrderLists(read: Reader, texts: seq<Str>)
    requires Scan(read, texts).Ok?
    ensures var book := Scan(read, texts).value;
            && (forall id :: id in book.order <==> id in book.transfers && book.transfers[id].manifest.Some?)
            && (forall id :: id in book.order <==> Manifested(read, texts, id))
            && (forall i, j :: 0 <= i < j < |book.order| ==> book.order[i] != book.order[j])
  {
    if texts == [] {
      assert forall id :: !Manifested(read, texts, id);
    } else {
      var n := |texts| - 1;
      OrderLists(read, texts[..n]);
      forall id
        ensures Manifested(read, texts, id) <==> Manifested(read, texts[..n], id) || ManifestAt(read, texts, n, id)
      {
        ManifestedOne(read, texts, id);
      }
    }
  }

  lemma ManifestedOne(read: Reader, texts: seq<Str>, id: Str)
    requires texts != []
    ensures var n := |texts| - 1;
            Manifested(read, texts, id) <==> Manifested(read, texts[..n], id) || ManifestAt(read, texts, n, id)
  {
    var n := |texts| - 1;
    if k :| ManifestAt(read, texts, k, id) && k < n {
      assert ManifestAt(read, texts[..n], k, id);
    }
    if k :| ManifestAt(read, texts[..n], k, id) {
      assert ManifestAt(read, texts, k, id);
    }
  }

  /**
   * Transfers are listed by first manifest: any manifest of a later one comes after some manifest of an earlier
   * one.
   */
  lemma {:induction false} OrderByFirstManifest(read: Reader, texts: seq<Str>, i: nat, j: nat, k: nat)
    requires Scan(read, texts).Ok? && i < j < |Scan(read, texts).value.order|
    requires ManifestAt(read, texts, k, Scan(read, texts).value.order[j])
    ensures exists first :: first < k && ManifestAt(read, texts, first, Scan(read, texts).value.order[i])
  {
    var n := |texts| - 1;
    var before, order := Scan(read, texts[..n]).value.order, Scan(read, texts).value.order;
    OrderLists(read, texts[..n]);
    OrderLists(read, texts);
    assert before <= order && |order| <= |before| + 1;
    if k < n {
      assert ManifestAt(read, texts[..n], k, order[j]);
      assert order[j] in before;
      OrderByFirstManifest(read, texts[..n], i, j, k);
      var first :| first < k && ManifestAt(read, texts[..n], first, before[i]);
      assert ManifestAt(read, texts, first, order[i]);
    } else {
      assert before[i] in before;
      var first :| ManifestAt(read, texts[..n], first, before[i]);
      assert ManifestAt(read, texts, first, order[i]);
    }
  }

  /** Reading for one transfer keeps exactly that transfer's items. */
  lemma RequestedItems(net: Net, texts: seq<Str>, id: Str)
    ensures var all, some := ReaderFor(net, None), ReaderFor(net, Some(id));
            && (forall item :: item in Items(some, texts) <==> item in Items(all, texts) && item.0 == id)
            && (NoBad(all, texts) ==> NoBad(some, texts))
  {
    var all, some := ReaderFor(net, None), ReaderFor(net, Some(id));
    forall text ensures some(text).Take? <==> all(text).Take? && all(text).id == id
                ensures some(text).Take? ==> some(text) == all(text)
                ensures some(text).Bad? ==> all(text).Bad? {
    }
  }

  /** The entry of a transfer is the same whether or not it was requested. */
  lemma RequestedEntry(net: Net, texts: seq<Str>, id: Str)
    requires var book := Scan(ReaderFor(net, None), texts);
             book.Ok? && id in book.value.transfers
    ensures var book := Scan(ReaderFor(net, Some(id)), texts);
            && book.Ok? && id in book.value.transfers
            && book.value.transfers[id] == Scan(ReaderFor(net, None), texts).value.transfers[id]
  {
    var all, some := ReaderFor(net, None), ReaderFor(net, Some(id));
    ScanExact(all, texts);
    ScanExact(some, texts);
    RequestedItems(net, texts, id);
    EntriesAgree(Scan(all, texts).value.transfers, Items(all, texts), Items(some, texts), id, Scan(some, texts));
  }

  lemma EntriesAgree(
      transfers: map<Str, Partial>, items: set<Item>, own: set<Item>, id: Str, scanned: Result<Book, WireError>)
    requires Reflects(transfers, items) && id in transfers && Consistent(items)
    requires forall item :: item in own <==> item in items && item.0 == id
    requires Consistent(own) ==> scanned.Ok? && Reflects(scanned.value.transfers, own)
    ensures scanned.Ok? && id in scanned.value.transfers && scanned.value.transfers[id] == transfers[id]
  {
    var item :| item in items && item.0 == id;
    assert item in own;
    assert Holding(transfers[id], own, id);
    HoldingUnique(transfers[id], scanned.value.transfers[id], own, id);
  }

  lemma ListedIdsValid(net: Net, requested: Option<Str>, texts: seq<Str>, id: Str)
    requires Scan(ReaderFor(net, requested), texts).Ok? && id in Scan(ReaderFor(net, requested), texts).value.order
    ensures ValidTransferId(id) && id in Scan(ReaderFor(net, requested), texts).value.transfers
  {
    var read := ReaderFor(net, requested);
    OrderLists(read, texts);
    assert Manifested(read, texts, id);
    var k :| ManifestAt(read, texts, k, id);
  }

  /** Without a request the result is that for the transfer whose first manifest came last. */
  lemma UnrequestedIsLast(net: Net, texts: seq<Str>)
    requires Scan(ReaderFor(net, None), texts).Ok?
    ensures var order := Scan(ReaderFor(net, None), texts).value.order;
            Unpack(net, texts, None) ==
            if order == [] then Err(NoTransfer) else Unpack(net, texts, Some(order[|order| - 1]))
  {
    var order := Scan(ReaderFor(net, None), texts).value.order;
    if order != [] {
      var id := order[|order| - 1];
      ListedIdsValid(net, None, texts, id);
      RequestedEntry(net, texts, id);
    }
  }

  // ----- A message on which the receiver panics -----

  /** One manifest with such a digest text stops every receiver that does not filter its transfer out. */
  lemma PanicStopsReceiver(net: Net, requested: Option<Str>, id: Str, m: Manifest, before: seq<Str>, after: seq<Str>)
    requires JsonWorks(net) && ValidTransferId(id) && (requested == None || requested == Some(id))
    requires BodyError(ManifestBody(m)) == Some(ReaderPanicked)
    requires Scan(ReaderFor(net, requested), before).Ok?
    ensures Unpack(net, before + [net.printWire(Message(id, ManifestBody(m)))] + after, requested) ==
            Err(ReaderPanicked)
  {
    var read, text := ReaderFor(net, requested), net.printWire(Message(id, ManifestBody(m)));
    var until, all := before + [text], before + [text] + after;
    assert read(text) == Bad(ReaderPanicked);
    assert until[..|before|] == before && all[..|until|] == until;
    ScanStops(read, all, |until|);
  }

  /** A scan panics exactly at a text that reads as a panic, reached by a scan that succeeds before it. */
  ghost predicate PanicReached(read: Reader, texts: seq<Str>) {
    exists k :: 0 <= k < |texts| && Scan(read, texts[..k]).Ok? && read(texts[k]) == Bad(ReaderPanicked)
  }

  lemma {:induction false} ScanPanicsExactly(read: Reader, texts: seq<Str>)
    ensures Scan(read, texts) == Err(ReaderPanicked) <==> PanicReached(read, texts)
  {
    if k :| 0 <= k < |texts| && Scan(read, texts[..k]).Ok? && read(texts[k]) == Bad(ReaderPanicked) {
      assert texts[..k + 1][..k] == texts[..k];
      ScanStops(read, texts, k + 1);
    }
    if Scan(read, texts) == Err(ReaderPanicked) {
      var n := |texts| - 1;
      if Scan(read, texts[..n]).Ok? {
        assert read(texts[n]) == Bad(ReaderPanicked);
      } else {
        ScanPanicsExactly(read, texts[..n]);
        var k :| 0 <= k < n && Scan(read, texts[..n][..k]).Ok? && read(texts[..n][k]) == Bad(ReaderPanicked);
        assert texts[..n][..k] == texts[..k];
      }
    }
  }

  // ----- What a successful unpacking means -----

  /** Decoded chunk data; the encoded-length bound already bounds what it decodes to. */
  lemma DecodedSizeBounded(data: Str)
    requires |data| <= MAX_ENCODED_CHUNK_BYTES && Base64.Decode(data).Some?
    ensures |Base64.Decode(data).value| <= MAX_CHUNK_BYTES
  {
  }

  function Decoded(data: seq<Str>): Option<seq<byte>> {
    if data == [] then Some([])
    else
      match (Decoded(data[..|data| - 1]), Base64.Decode(data[|data| - 1]))
      case (Some(front), Some(last)) => Some(front + last)
      case _ => None
  }

  /** The transfer's items: one manifest, and one chunk for each index below its count and no other. */
  ghost predicate Complete(items: set<Item>, id: Str, m: Manifest, data: seq<Str>) {
    && (id, ManifestBody(m)) in items
    && m.count as nat == |data|
    && (forall i: u32, c :: (id, ChunkBody(i, c)) in items <==> i < m.count && c == EncodedChunk(m.count, data[i]))
  }

  /** A complete transfer whose joined bytes have the manifest's length and hash and spell the envelope. */
  ghost predicate Delivers(net: Net, items: set<Item>, id: Str, m: Manifest, data: seq<Str>, e: Envelope) {
    && Complete(items, id, m, data)
    && Decoded(data).Some? && Intact(net, m, Decoded(data).value) && Spells(net, m, Decoded(data).value, e)
  }

  /** As many keys as indices, and every index a key: then the keys are the indices. */
  lemma {:induction false} KeysAreIndices(keys: set<u32>, n: nat)
    requires |keys| == n <= MAX_CHUNKS && forall i: u32 :: i < n ==> i in keys
    ensures forall i: u32 :: i in keys ==> i < n
  {
    if n == 0 {
      assert keys == {};
    } else {
      var last: u32 := n - 1;
      var rest := keys - {last};
      assert last in keys && |rest| == n - 1;
      KeysAreIndices(rest, n - 1);
      forall i: u32 | i in keys ensures i < n {
        if i != last { assert i in rest; }
      }
    }
  }

  lemma {:induction false} IndexCount(keys: set<u32>, n: nat)
    requires n <= MAX_CHUNKS && forall i: u32 :: i in keys <==> i < n
    ensures |keys| == n
  {
    if n == 0 {
      assert keys == {};
    } else {
      var last: u32 := n - 1;
      var rest := keys - {last};
      assert last in keys && |rest| == |keys| - 1;
      IndexCount(rest, n - 1);
    }
  }

  lemma {:induction false} GatherIsDecoded(t: Partial, id: Str, m: Manifest, data: seq<Str>, k: u32)
    requires k <= |data|
    requires forall i: u32 :: i < k ==> i in t.chunks && t.chunks[i] == EncodedChunk(m.count, data[i])
    requires forall i: u32 :: i < k ==> |data[i]| <= MAX_ENCODED_CHUNK_BYTES
    ensures var joined := Decoded(data[..k]);
            Gather(t, id, m, k) == if joined.Some? then Ok(joined.value) else Err(InvalidWireMessage(BadBase64))
    decreases k
  {
    if k == 0 {
    } else {
      GatherIsDecoded(t, id, m, data, k - 1);
      assert data[..k][..k - 1] == data[..k - 1];
      if Base64.Decode(data[k - 1]).Some? { DecodedSizeBounded(data[k - 1]); }
    }
  }

  lemma {:induction false} GatherNeedsChunks(t: Partial, id: Str, m: Manifest, k: u32, i: u32)
    requires Gather(t, id, m, k).Ok? && i < k
    ensures i in t.chunks && t.chunks[i].count == m.count
    decreases k
  {
    if i == k - 1 {
    } else {
      GatherNeedsChunks(t, id, m, k - 1, i);
    }
  }

  ghost predicate ValidItems(items: set<Item>) {
    forall item :: item in items ==> BodyError(item.1) == None
  }

  lemma ReaderValidates(net: Net, requested: Option<Str>, texts: seq<Str>)
    ensures ValidItems(Items(ReaderFor(net, requested), texts))
  {
  }

  lemma {:induction false} GatherNeverPanics(t: Partial, id: Str, m: Manifest, k: u32)
    ensures Gather(t, id, m, k) != Err(ReaderPanicked)
    decreases k
  {
    if k == 0 {
    } else {
      GatherNeverPanics(t, id, m, k - 1);
    }
  }

  /** What an assembly went through that opened the joined bytes: one that succeeds, or panics on them. */
  lemma AssembleInverts(net: Net, t: Partial, id: Str) returns (m: Manifest, bytes: seq<byte>)
    requires Assemble(net, t, id).Ok? || Assemble(net, t, id) == Err(ReaderPanicked)
    ensures t.manifest == Some(m) && 1 <= m.count <= MAX_CHUNKS && |t.chunks| == m.count
    ensures Gather(t, id, m, m.count) == Ok(bytes) && OpenBytes(net, m, bytes) == Assemble(net, t, id)
  {
    m := t.manifest.value;
    GatherNeverPanics(t, id, m, m.count);
    bytes := Gather(t, id, m, m.count).value;
  }

  /** As many chunks as the manifest counts, and all below the count gathered: then there are no others. */
  lemma GatheredIsComplete(
      t: Partial, items: set<Item>, id: Str, m: Manifest, bytes: seq<byte>)
      returns (data: seq<Str>)
    requires Holding(t, items, id) && ValidItems(items)
    requires t.manifest == Some(m) && m.count <= MAX_CHUNKS && |t.chunks| == m.count
    requires Gather(t, id, m, m.count) == Ok(bytes)
    ensures Complete(items, id, m, data) && Decoded(data) == Some(bytes)
  {
    forall i: u32 | i < m.count ensures i in t.chunks && t.chunks[i].count == m.count {
      GatherNeedsChunks(t, id, m, m.count, i);
    }
    KeysAreIndices(t.chunks.Keys, m.count);
    data := seq(m.count, i requires 0 <= i < m.count => t.chunks[i].data);
    HeldIsComplete(t, items, id, m, data);
    ChunksBounded(t, items, id, m, data);
    GatherIsDecoded(t, id, m, data, m.count);
    assert data[..m.count] == data;
  }

  /** Assembly succeeds only on a complete transfer. */
  lemma AssembleSound(net: Net, t: Partial, items: set<Item>, id: Str) returns (m: Manifest, data: seq<Str>)
    requires Holding(t, items, id) && ValidItems(items)
    requires Assemble(net, t, id).Ok?
    ensures Delivers(net, items, id, m, data, Assemble(net, t, id).value)
  {
    var bytes: seq<byte>;
    m, bytes := AssembleInverts(net, t, id);
    data := GatheredIsComplete(t, items, id, m, bytes);
    OpenBytesExact(net, m, bytes, Assemble(net, t, id).value);
  }

  lemma HeldIsComplete(t: Partial, items: set<Item>, id: Str, m: Manifest, data: seq<Str>)
    requires Holding(t, items, id) && t.manifest == Some(m) && |data| == m.count
    requires forall i: u32 :: i in t.chunks <==> i < m.count
    requires forall i: u32 :: i < m.count ==> t.chunks[i] == EncodedChunk(m.count, data[i])
    ensures Complete(items, id, m, data)
  {
  }

  lemma ChunksBounded(t: Partial, items: set<Item>, id: Str, m: Manifest, data: seq<Str>)
    requires Holding(t, items, id) && ValidItems(items) && |data| == m.count
    requires forall i: u32 :: i < m.count ==> i in t.chunks && t.chunks[i] == EncodedChunk(m.count, data[i])
    ensures forall i: u32 :: i < m.count ==> |data[i]| <= MAX_ENCODED_CHUNK_BYTES
  {
    forall i: u32 | i < m.count ensures |data[i]| <= MAX_ENCODED_CHUNK_BYTES {
      assert (id, ChunkBody(i, t.chunks[i])) in items;
    }
  }

  /** And on every complete transfer whose bytes open. */
  lemma AssembleComplete(net: Net, t: Partial, items: set<Item>, id: Str, m: Manifest, data: seq<Str>, e: Envelope)
    requires Holding(t, items, id) && ValidItems(items)
    requires Delivers(net, items, id, m, data, e)
    ensures Assemble(net, t, id) == Ok(e)
  {
    AssembleOpensJoined(net, t, items, id, m, data);
    OpenBytesExact(net, m, Decoded(data).value, e);
  }

  lemma AssembleOpensJoined(net: Net, t: Partial, items: set<Item>, id: Str, m: Manifest, data: seq<Str>)
    requires Holding(t, items, id) && ValidItems(items)
    requires Complete(items, id, m, data) && Decoded(data).Some?
    ensures Assemble(net, t, id) == OpenBytes(net, m, Decoded(data).value)
  {
    ManifestBounded(items, id, m);
    CompleteChunks(t, items, id, m, data);
    IndexCount(t.chunks.Keys, m.count);
    ChunksBounded(t, items, id, m, data);
    GatherIsDecoded(t, id, m, data, m.count);
    assert data[..m.count] == data;
    AssembleOpens(net, t, id, m, Decoded(data).value);
  }

  lemma ManifestBounded(items: set<Item>, id: Str, m: Manifest)
    requires ValidItems(items) && (id, ManifestBody(m)) in items
    ensures 1 <= m.count <= MAX_CHUNKS && m.bytes <= MAX_TRANSFER_BYTES
  {
    assert BodyError(ManifestBody(m)) == None;
  }

  lemma AssembleOpens(net: Net, t: Partial, id: Str, m: Manifest, bytes: seq<byte>)
    requires t.manifest == Some(m) && 1 <= m.count <= MAX_CHUNKS && m.bytes <= MAX_TRANSFER_BYTES
    requires |t.chunks| == m.count && Gather(t, id, m, m.count) == Ok(bytes)
    ensures Assemble(net, t, id) == OpenBytes(net, m, bytes)
  {
  }

  lemma CompleteChunks(t: Partial, items: set<Item>, id: Str, m: Manifest, data: seq<Str>)
    requires Holding(t, items, id) && Complete(items, id, m, data)
    ensures forall i: u32 :: i in t.chunks <==> i < m.count
    ensures forall i: u32 :: i < m.count ==> t.chunks[i] == EncodedChunk(m.count, data[i])
  {
    forall i: u32
      ensures i in t.chunks <==> i < m.count
      ensures i < m.count ==> i in t.chunks && t.chunks[i] == EncodedChunk(m.count, data[i])
    {
      if i in t.chunks { assert (id, ChunkBody(i, t.chunks[i])) in items; }
      if i < m.count { assert (id, ChunkBody(i, EncodedChunk(m.count, data[i]))) in items; }
    }
  }

  /**
   * Unpacking a requested transfer succeeds with an envelope exactly when no message of it is malformed, none
   * conflicts with another, its chunk indices are exactly those below the manifest's count, all chunk counts agree
   * with the manifest, and the joined bytes have the manifest's length and hash and spell that envelope.
   */
  lemma UnpackExact(net: Net, texts: seq<Str>, id: Str, e: Envelope)
    ensures var read := ReaderFor(net, Some(id));
            var items := Items(read, texts);
            Unpack(net, texts, Some(id)) == Ok((id, e)) <==>
            && ValidTransferId(id) && NoBad(read, texts) && Consistent(items)
            && exists m, data :: Delivers(net, items, id, m, data, e)
  {
    var read := ReaderFor(net, Some(id));
    var items := Items(read, texts);
    ScanExact(read, texts);
    ReaderValidates(net, Some(id), texts);
    if Unpack(net, texts, Some(id)) == Ok((id, e)) {
      var t := Scan(read, texts).value.transfers[id];
      var m, data := AssembleSound(net, t, items, id);
    }
    if m, data :| ValidTransferId(id) && Scan(read, texts).Ok? && Delivers(net, items, id, m, data, e) {
      var transfers := Scan(read, texts).value.transfers;
      assert Mentioned(items, id);
      AssembleComplete(net, transfers[id], items, id, m, data, e);
    }
  }

  /** A complete transfer with the manifest's length and hash, on whose bytes the envelope reader panics. */
  ghost predicate PanicsOpened(net: Net, items: set<Item>, id: Str, m: Manifest, data: seq<Str>) {
    && Complete(items, id, m, data)
    && Decoded(data).Some? && Intact(net, m, Decoded(data).value) && net.parseEnvelope(Decoded(data).value).Panics?
  }

  /** Unpacking a requested transfer panics exactly at a reached message, or at the envelope of a complete transfer. */
  lemma UnpackPanicsExactly(net: Net, texts: seq<Str>, id: Str)
    ensures var read := ReaderFor(net, Some(id));
            Unpack(net, texts, Some(id)) == Err(ReaderPanicked) <==>
            && ValidTransferId(id)
            && (|| PanicReached(read, texts)
                || (Scan(read, texts).Ok? && exists m, data :: PanicsOpened(net, Items(read, texts), id, m, data)))
  {
    var read := ReaderFor(net, Some(id));
    var items := Items(read, texts);
    ScanPanicsExactly(read, texts);
    ScanExact(read, texts);
    ReaderValidates(net, Some(id), texts);
    if Scan(read, texts).Ok? {
      AssemblyPanics(net, Scan(read, texts).value, items, id);
    }
  }

  lemma AssemblyPanics(net: Net, book: Book, items: set<Item>, id: Str)
    requires Reflects(book.transfers, items) && ValidItems(items)
    ensures Finish(net, book, Some(id)) == Err(ReaderPanicked) <==>
            exists m, data :: PanicsOpened(net, items, id, m, data)
  {
    if Finish(net, book, Some(id)) == Err(ReaderPanicked) {
      var m, bytes := AssembleInverts(net, book.transfers[id], id);
      var data := GatheredIsComplete(book.transfers[id], items, id, m, bytes);
      ManifestReadable(items, id, m);
      OpenBytesRefused(net, m, bytes);
      assert PanicsOpened(net, items, id, m, data);
    }
    if m, data :| PanicsOpened(net, items, id, m, data) {
      assert Mentioned(items, id);
      AssembleOpensJoined(net, book.transfers[id], items, id, m, data);
      ManifestReadable(items, id, m);
      OpenBytesRefused(net, m, Decoded(data).value);
    }
  }

  lemma ManifestReadable(items: set<Item>, id: Str, m: Manifest)
    requires ValidItems(items) && (id, ManifestBody(m)) in items
    ensures BodyOk(ManifestBody(m))
  {
    BodyErrorExact(ManifestBody(m));
  }

  /** Unpacking a complete transfer is opening its joined bytes. */
  lemma CompleteUnpacks(net: Net, texts: seq<Str>, id: Str, m: Manifest, data: seq<Str>)
    requires var read := ReaderFor(net, Some(id));
             ValidTransferId(id) && Scan(read, texts).Ok? && Complete(Items(read, texts), id, m, data)
    requires Decoded(data).Some?
    ensures BodyOk(ManifestBody(m))
    ensures Unpack(net, texts, Some(id)) ==
            match OpenBytes(net, m, Decoded(data).value)
            case Ok(e) => Ok((id, e))
            case Err(error) => Err(error)
  {
    var read := ReaderFor(net, Some(id));
    var items := Items(read, texts);
    ScanExact(read, texts);
    ReaderValidates(net, Some(id), texts);
    ManifestReadable(items, id, m);
    assert Mentioned(items, id);
    AssembleOpensJoined(net, Scan(read, texts).value.transfers[id], items, id, m, data);
  }

  /** A complete transfer whose joined bytes miss the manifest's length or hash is refused as such. */
  lemma AlteredTransferRefused(net: Net, texts: seq<Str>, id: Str, m: Manifest, data: seq<Str>)
    requires var read := ReaderFor(net, Some(id));
             ValidTransferId(id) && Scan(read, texts).Ok? && Complete(Items(read, texts), id, m, data)
    requires Decoded(data).Some?
    requires |Decoded(data).value| != m.bytes || ToHex(net.sha(Decoded(data).value)) != m.sha256
    ensures Unpack(net, texts, Some(id)) == Err(IntegrityFailure)
  {
    CompleteUnpacks(net, texts, id, m, data);
    OpenBytesRefused(net, m, Decoded(data).value);
  }

  // ----- Why unpacking fails -----

  lemma InvalidIdExactly(net: Net, texts: seq<Str>, id: Str)
    ensures Unpack(net, texts, Some(id)) == Err(InvalidTransferId) <==> !ValidTransferId(id)
  {
    if ValidTransferId(id) {
      var read := ReaderFor(net, Some(id));
      if Scan(read, texts).Err? {
        ScanExplained(read, texts);
        NeverInvalidId(net, Some(id), texts);
      } else {
        FinishNeverInvalid(net, Scan(read, texts).value, id);
      }
    }
  }

  lemma FinishNeverInvalid(net: Net, book: Book, id: Str)
    ensures Finish(net, book, Some(id)) != Err(InvalidTransferId)
  {
    if id in book.transfers && Assemble(net, book.transfers[id], id).Err? {
      AssembleExplained(net, book.transfers[id], id);
    }
  }

  lemma NeverInvalidId(net: Net, requested: Option<Str>, texts: seq<Str>)
    ensures forall text :: text in texts ==> ReaderFor(net, requested)(text) != Bad(InvalidTransferId)
  {
    forall text | text in texts ensures ReaderFor(net, requested)(text) != Bad(InvalidTransferId) {
      var m := net.parseWire(text);
      if m.Some? { BodyErrorExact(m.value.body); }
    }
  }

  /** Two items of one transfer with different manifests, or different data for one chunk. */
  ghost predicate Conflicts(items: set<Item>, id: Str, manifests: bool) {
    exists a, b :: a in items && b in items && a.0 == id && Conflict(a, b) && a.1.ManifestBody? == manifests
  }

  /** Every failed scan names a text that is bad, or two items that conflict. */
  lemma {:induction false} ScanExplained(read: Reader, texts: seq<Str>)
    requires Scan(read, texts).Err?
    ensures || (exists text :: text in texts && read(text) == Bad(Scan(read, texts).error))
            || match Scan(read, texts).error
               case ConflictingManifest(id) => Conflicts(Items(read, texts), id, true)
               case ConflictingChunk(id) => Conflicts(Items(read, texts), id, false)
               case _ => false
  {
    var n := |texts| - 1;
    var front, text := texts[..n], texts[n];
    assert texts == front + [text];
    ItemsOne(read, front, text);
    if Scan(read, front).Err? {
      ScanExplained(read, front);
      assert Items(read, front) <= Items(read, texts);
    } else if read(text).Take? {
      ScanExact(read, front);
      AbsorbExplained(Scan(read, front).value, Items(read, front), read(text).id, read(text).item);
      assert (read(text).id, read(text).item) in Items(read, texts);
    } else {
      assert text in texts;
    }
  }

  lemma AbsorbExplained(book: Book, items: set<Item>, id: Str, item: WireBody)
    requires Reflects(book.transfers, items) && Absorb(book, id, item).Err?
    ensures match Absorb(book, id, item).error
            case ConflictingManifest(other) => other == id && Conflicts(items + {(id, item)}, id, true)
            case ConflictingChunk(other) => other == id && Conflicts(items + {(id, item)}, id, false)
            case _ => false
  {
    var t, all := book.transfers[id], items + {(id, item)};
    assert Holding(t, items, id);
    match item
    case ManifestBody(m) =>
      var a := (id, ManifestBody(t.manifest.value));
      assert a in items;
      assert a in all && (id, item) in all && Conflict(a, (id, item));
    case ChunkBody(i, c) =>
      var a := (id, ChunkBody(i, t.chunks[i]));
      assert a in items;
      assert a in all && (id, item) in all && Conflict(a, (id, item));
  }

  /** What is wrong with a transfer that is not assembled for this reason. */
  ghost predicate Spoils(net: Net, t: Partial, id: Str, error: WireError) {
    match error
    case NoTransfer => t.manifest == None
    case IncompleteTransfer(other, received, expected) =>
      && other == id && received == |t.chunks| && t.manifest.Some? && expected == t.manifest.value.count
      && (received != expected || exists i: u32 :: i < t.manifest.value.count && i !in t.chunks)
    case TransferTooLarge(actual) => t.manifest.Some? && actual == t.manifest.value.bytes > MAX_TRANSFER_BYTES
    case InvalidWireMessage(CountOutside) => t.manifest.Some? && !(1 <= t.manifest.value.count <= MAX_CHUNKS)
    case InvalidWireMessage(CountDiffers) =>
      t.manifest.Some? && exists i :: i in t.chunks && t.chunks[i].count != t.manifest.value.count
    case InvalidWireMessage(BadBase64) => exists i :: i in t.chunks && Base64.Decode(t.chunks[i].data) == None
    case InvalidWireMessage(ChunkTooLarge) =>
      exists i :: i in t.chunks && Base64.Decode(t.chunks[i].data).Some?
                  && |Base64.Decode(t.chunks[i].data).value| > MAX_CHUNK_BYTES
    case _ => true
  }

  lemma {:induction false} GatherExplained(net: Net, t: Partial, id: Str, m: Manifest, k: u32)
    requires t.manifest == Some(m) && k <= m.count && Gather(t, id, m, k).Err?
    ensures var error := Gather(t, id, m, k).error;
            && Spoils(net, t, id, error)
            && (|| error.IncompleteTransfer?
                || error in {InvalidWireMessage(CountDiffers), InvalidWireMessage(BadBase64),
                             InvalidWireMessage(ChunkTooLarge)})
    decreases k
  {
    if Gather(t, id, m, k - 1).Err? {
      GatherExplained(net, t, id, m, k - 1);
    }
  }

  /** Every transfer that is not assembled has the fault that is named, or its joined bytes do not open. */
  lemma AssembleExplained(net: Net, t: Partial, id: Str)
    requires Assemble(net, t, id).Err?
    ensures var error := Assemble(net, t, id).error;
            && Spoils(net, t, id, error) && error != InvalidTransferId
            && (error in {IntegrityFailure, WrongTransport, ReaderPanicked,
                          InvalidWireMessage(BadDigest), InvalidWireMessage(BadEnvelope)} ==>
                  t.manifest.Some? && exists bytes ::
                    Gather(t, id, t.manifest.value, t.manifest.value.count) == Ok(bytes)
                    && OpenBytes(net, t.manifest.value, bytes) == Err(error))
  {
    if t.manifest.Some? {
      var m := t.manifest.value;
      var gathered := Gather(t, id, m, m.count);
      if gathered.Err? {
        GatherExplained(net, t, id, m, m.count);
      } else if 1 <= m.count <= MAX_CHUNKS && |t.chunks| == m.count && m.bytes <= MAX_TRANSFER_BYTES {
        AssembleOpens(net, t, id, m, gathered.value);
      }
    }
  }
}
