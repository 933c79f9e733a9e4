/** Rolling windows of chat: a bounded, duplicate-free collection that stands for everything observed. */
module Pending {
  import opened Bytes
  import opened Types
  import opened Wire
  import opened Transfers

  /** What is kept so far, and why observing stopped, if it did. */
  datatype Observed = Observed(kept: seq<Str>, error: Option<WireError>)

  function ObserveOne(read: Reader, o: Observed, text: Str): Observed {
    if o.error.Some? then o
    else
      match read(text)
      case Skip => o
      case Bad(e) => o.(error := Some(e))
      case Take(_, _) =>
        if text in o.kept then o
        else if |o.kept| >= MAX_PENDING_MESSAGES then o.(error := Some(InvalidWireMessage(TooManyPending)))
        else o.(kept := o.kept + [text])
  }

  function ObserveAll(read: Reader, kept: seq<Str>, texts: seq<Str>): Observed {
    if texts == [] then Observed(kept, None)
    else ObserveOne(read, ObserveAll(read, kept, texts[..|texts| - 1]), texts[|texts| - 1])
  }

  ghost predicate Unique(s: seq<Str>) {
    forall i, j :: 0 <= i < j < |s| ==> s[i] != s[j]
  }

  /** Kept texts are unique, within the cap, and exactly the items' texts among those observed. */
  lemma {:induction false} KeptInvariant(read: Reader, history: seq<Str>)
    requires ObserveAll(read, [], history).error == None
    ensures var kept := ObserveAll(read, [], history).kept;
            && Unique(kept) && |kept| <= MAX_PENDING_MESSAGES
            && (forall text :: text in kept <==> text in history && read(text).Take?)
            && NoBad(read, history)
  {
    if history == [] {
    } else {
      var n := |history| - 1;
      KeptInvariant(read, history[..n]);
      assert forall text :: text in history <==> text in history[..n] || text == history[n];
    }
  }

  /** The book has absorbed an item when absorbing it again changes nothing. */
  lemma {:induction false} AlreadyAbsorbed(read: Reader, texts: seq<Str>, text: Str)
    requires Scan(read, texts).Ok? && text in texts && read(text).Take?
    ensures Step(read, Scan(read, texts).value, text) == Scan(read, texts)
  {
    var n := |texts| - 1;
    var front := texts[..n];
    var before := Scan(read, front).value;
    if text == texts[n] {
      AbsorbTwice(before, read(text).id, read(text).item);
    } else {
      assert text in front;
      AlreadyAbsorbed(read, front, text);
      if read(texts[n]).Take? {
        AbsorbAfter(before, read(text).id, read(text).item, read(texts[n]).id, read(texts[n]).item);
      }
    }
  }

  lemma AbsorbTwice(book: Book, id: Str, item: WireBody)
    requires Absorb(book, id, item).Ok?
    ensures Absorb(Absorb(book, id, item).value, id, item) == Absorb(book, id, item)
  {
    var next := Absorb(book, id, item).value;
    assert next.transfers[id := next.transfers[id]] == next.transfers;
    if item.ChunkBody? {
      var c := next.transfers[id].chunks;
      assert c[item.index := c[item.index]] == c;
    }
  }

  /** What is absorbed stays absorbed. */
  lemma AbsorbAfter(book: Book, id: Str, item: WireBody, otherId: Str, other: WireBody)
    requires Absorb(book, id, item) == Ok(book)
    requires Absorb(book, otherId, other).Ok?
    ensures Absorb(Absorb(book, otherId, other).value, id, item) == Absorb(book, otherId, other)
  {
    var next := Absorb(book, otherId, other).value;
    assert id in book.transfers && id in next.transfers;
    assert book.transfers[id].manifest.Some? ==> next.transfers[id].manifest == book.transfers[id].manifest;
    assert item.ManifestBody? ==> Entry(book, id).manifest.Some?;
    assert next.transfers[id := next.transfers[id]] == next.transfers;
    if item.ChunkBody? {
      assert item.index in book.transfers[id].chunks && book.transfers[id].chunks[item.index] == item.chunk by {
        var t := book.transfers[id];
        assert book.transfers[id := t.(chunks := t.chunks[item.index := item.chunk])][id] == t;
      }
      var c := next.transfers[id].chunks;
      assert c[item.index := c[item.index]] == c;
    }
  }

  /** Scanning what is kept is scanning everything observed: the same book or the same error. */
  lemma {:induction false} KeptScansAlike(read: Reader, history: seq<Str>)
    requires ObserveAll(read, [], history).error == None
    ensures Scan(read, ObserveAll(read, [], history).kept) == Scan(read, history)
  {
    if history == [] {
    } else {
      var n := |history| - 1;
      var front, text := history[..n], history[n];
      KeptScansAlike(read, front);
      var kept := ObserveAll(read, [], front).kept;
      if read(text).Take? {
        if text in kept {
          if Scan(read, front).Ok? { AlreadyAbsorbed(read, kept, text); }
        } else {
          assert (kept + [text])[..|kept|] == kept;
        }
      }
    }
  }

  lemma {:induction false} ObserveAppend(read: Reader, kept: seq<Str>, a: seq<Str>, b: seq<Str>)
    requires ObserveAll(read, kept, a).error == None
    ensures ObserveAll(read, kept, a + b) == ObserveAll(read, ObserveAll(read, kept, a).kept, b)
  {
    if b == [] {
      assert a + b == a;
    } else {
      var n := |b| - 1;
      ObserveAppend(read, kept, a, b[..n]);
      assert (a + b)[..|a + b| - 1] == a + b[..n];
    }
  }

  lemma ObserveNext(read: Reader, kept: seq<Str>, texts: seq<Str>, text: Str)
    ensures ObserveAll(read, kept, texts + [text]) == ObserveOne(read, ObserveAll(read, kept, texts), text)
  {
    assert (texts + [text])[..|texts|] == texts;
  }

  lemma {:induction false} ObserveStops(read: Reader, kept: seq<Str>, texts: seq<Str>, k: nat)
    requires k <= |texts| && ObserveAll(read, kept, texts[..k]).error.Some?
    ensures ObserveAll(read, kept, texts) == ObserveAll(read, kept, texts[..k])
  {
    if k == |texts| {
      assert texts[..k] == texts;
    } else {
      var front := texts[..|texts| - 1];
      assert front[..k] == texts[..k];
      ObserveStops(read, kept, front, k);
    }
  }

  // ----- When observing succeeds -----

  ghost function ItemTexts(read: Reader, texts: seq<Str>): set<Str> {
    set text | text in texts && read(text).Take?
  }

  lemma {:induction false} UniqueSize(s: seq<Str>)
    requires Unique(s)
    ensures |set text | text in s| == |s|
  {
    if s == [] {
    } else {
      var n := |s| - 1;
      UniqueSize(s[..n]);
      assert (set text | text in s) == (set text | text in s[..n]) + {s[n]};
    }
  }

  lemma Subsize(a: set<Str>, b: set<Str>)
    requires a <= b
    ensures |a| <= |b|
  {
    assert b == a + (b - a);
  }

  lemma ItemTextsOne(read: Reader, front: seq<Str>, text: Str)
    ensures ItemTexts(read, front + [text]) == ItemTexts(read, front) + if read(text).Take? then {text} else {}
    ensures NoBad(read, front + [text]) <==> NoBad(read, front) && !read(text).Bad?
    ensures |ItemTexts(read, front)| <= |ItemTexts(read, front + [text])|
  {
    assert forall x :: x in front + [text] <==> x in front || x == text;
    Subsize(ItemTexts(read, front), ItemTexts(read, front + [text]));
  }

  lemma KeptAreItemTexts(read: Reader, history: seq<Str>)
    requires ObserveAll(read, [], history).error == None
    ensures var kept := ObserveAll(read, [], history).kept;
            && NoBad(read, history) && |kept| == |ItemTexts(read, history)| <= 516
            && forall text :: text in kept <==> text in ItemTexts(read, history)
  {
    KeptInvariant(read, history);
    var kept := ObserveAll(read, [], history).kept;
    UniqueSize(kept);
    assert (set x | x in kept) == ItemTexts(read, history);
  }

  /**
   * Observing meets no error exactly when no text is malformed and at most 516 different texts are items of
   * transfers.
   */
  lemma {:induction false} ObserveSucceedsExactly(read: Reader, history: seq<Str>)
    ensures ObserveAll(read, [], history).error == None <==> NoBad(read, history) && |ItemTexts(read, history)| <= 516
  {
    if history == [] {
      assert ItemTexts(read, history) == {};
    } else {
      var n := |history| - 1;
      assert history == history[..n] + [history[n]];
      ObserveSucceedsExactly(read, history[..n]);
      ItemTextsOne(read, history[..n], history[n]);
      if ObserveAll(read, [], history[..n]).error == None {
        KeptAreItemTexts(read, history[..n]);
        MoreItemTexts(ItemTexts(read, history[..n]), history[n]);
      }
    }
  }

  lemma MoreItemTexts(texts: set<Str>, text: Str)
    ensures |texts + {text}| == |texts| + if text in texts then 0 else 1
  {
    if text in texts { assert texts + {text} == texts; }
  }

  /** Observing reaches this text without error, and it reads as a panic. */
  predicate PanicAt(read: Reader, kept: seq<Str>, texts: seq<Str>, k: nat) {
    k < |texts| && ObserveAll(read, kept, texts[..k]).error == None && read(texts[k]) == Bad(ReaderPanicked)
  }

  lemma {:induction false} PanicFound(read: Reader, kept: seq<Str>, texts: seq<Str>) returns (k: nat)
    requires ObserveAll(read, kept, texts).error == Some(ReaderPanicked)
    ensures PanicAt(read, kept, texts, k)
  {
    var n := |texts| - 1;
    if ObserveAll(read, kept, texts[..n]).error == None {
      k := n;
    } else {
      k := PanicFound(read, kept, texts[..n]);
      assert texts[..n][..k] == texts[..k];
    }
  }

  /** Observing panics exactly when it reaches a text that reads as a panic. */
  lemma ObservePanicsExactly(read: Reader, kept: seq<Str>, texts: seq<Str>)
    ensures ObserveAll(read, kept, texts).error == Some(ReaderPanicked) <==>
            exists k: nat :: PanicAt(read, kept, texts, k)
  {
    if k: nat :| PanicAt(read, kept, texts, k) {
      assert texts[..k + 1] == texts[..k] + [texts[k]];
      ObserveNext(read, kept, texts[..k], texts[k]);
      ObserveStops(read, kept, texts, k + 1);
    }
    if ObserveAll(read, kept, texts).error == Some(ReaderPanicked) {
      var k := PanicFound(read, kept, texts);
    }
  }

  /**
   * The collection across polls. `history` is everything it has been shown without error; it is kept only to say
   * what the collection stands for.
   */
  class PendingWireMessages {
    var contents: seq<Str>
    var seen: set<Str>
    ghost var history: seq<Str>

    ghost predicate Valid(read: Reader)
      reads this
    {
      && seen == (set text | text in contents)
      && ObserveAll(read, [], history) == Observed(contents, None)
    }

    constructor ()
      ensures contents == [] && history == []
      ensures forall read: Reader :: Valid(read)
    {
      contents, seen, history := [], {}, [];
    }

    /** Shows one window. On success all of it joins the history; on failure only the part before the bad text. */
    method Observe(net: Net, window: seq<Str>, requested: Option<Str>) returns (r: Result<(), WireError>)
      requires Valid(ReaderFor(net, requested))
      modifies this
      ensures Valid(ReaderFor(net, requested))
      ensures var o := ObserveAll(ReaderFor(net, requested), old(contents), window);
              && contents == o.kept
              && r == (if o.error.Some? then Err(o.error.value) else Ok(()))
      ensures r.Ok? ==> history == old(history) + window
      ensures Unique(contents) && |contents| <= MAX_PENDING_MESSAGES
    {
      var read := ReaderFor(net, requested);
      for i := 0 to |window|
        invariant Valid(read)
        invariant ObserveAll(read, old(contents), window[..i]) == Observed(contents, None)
        invariant history == old(history) + window[..i]
      {
        assert window[..i + 1] == window[..i] + [window[i]];
        ObserveNext(read, old(contents), window[..i], window[i]);
        var error := ObserveText(read, window[i]);
        if error.Some? {
          ObserveStops(read, old(contents), window, i + 1);
          KeptInvariant(read, history);
          return Err(error.value);
        }
      }
      assert window[..|window|] == window;
      KeptInvariant(read, history);
      return Ok(());
    }

    /** The loop's body: one text is skipped, refused, or kept unless it is kept already. */
    method ObserveText(read: Reader, text: Str) returns (error: Option<WireError>)
      requires Valid(read)
      modifies this
      ensures Valid(read)
      ensures Observed(contents, error) == ObserveOne(read, Observed(old(contents), None), text)
      ensures history == old(history) + if error == None then [text] else []
    {
      ObserveNext(read, [], history, text);
      var reading := read(text);
      if reading.Bad? {
        return Some(reading.error);
      }
      if reading.Take? && text !in seen {
        if |contents| >= MAX_PENDING_MESSAGES {
          return Some(InvalidWireMessage(TooManyPending));
        }
        seen := seen + {text};
        contents := contents + [text];
      }
      history := history + [text];
      return None;
    }

    /** Unpacking the bounded collection gives what unpacking the whole history would give, value or error. */
    method UnpackPending(net: Net, requested: Option<Str>) returns (r: Result<(Str, Envelope), WireError>)
      requires Valid(ReaderFor(net, requested))
      ensures r == Unpack(net, history, requested)
    {
      KeptScansAlike(ReaderFor(net, requested), history);
      r := UnpackEnvelope(net, contents, requested);
    }
  }

  /** The same, over any sequence of windows. */
  function Flatten(windows: seq<seq<Str>>): seq<Str> {
    if windows == [] then [] else Flatten(windows[..|windows| - 1]) + windows[|windows| - 1]
  }

  function ObserveWindows(read: Reader, windows: seq<seq<Str>>): Observed {
    if windows == [] then Observed([], None)
    else
      var before := ObserveWindows(read, windows[..|windows| - 1]);
      if before.error.Some? then before else ObserveAll(read, before.kept, windows[|windows| - 1])
  }

  /** Window by window or all at once: the same, as long as one of the two meets no error. */
  lemma {:induction false} WindowsFlatten(read: Reader, windows: seq<seq<Str>>)
    requires ObserveWindows(read, windows).error == None || ObserveAll(read, [], Flatten(windows)).error == None
    ensures ObserveAll(read, [], Flatten(windows)) == ObserveWindows(read, windows)
  {
    if windows == [] {
    } else {
      var n := |windows| - 1;
      var front, all := Flatten(windows[..n]), Flatten(windows);
      assert all[..|front|] == front;
      if ObserveAll(read, [], front).error.Some? && ObserveWindows(read, windows[..n]).error.Some? {
        ObserveStops(read, [], all, |front|);
      }
      WindowsFlatten(read, windows[..n]);
      ObserveAppend(read, [], front, windows[n]);
    }
  }

  /** Refinement: after any windows observed without error, the bounded collection unpacks like their concatenation. */
  lemma PendingRefinesHistory(net: Net, windows: seq<seq<Str>>, requested: Option<Str>)
    requires ObserveWindows(ReaderFor(net, requested), windows).error == None
    ensures var kept := ObserveWindows(ReaderFor(net, requested), windows).kept;
            && Unpack(net, kept, requested) == Unpack(net, Flatten(windows), requested)
            && Unique(kept) && |kept| <= MAX_PENDING_MESSAGES
  {
    var read := ReaderFor(net, requested);
    WindowsFlatten(read, windows);
    KeptScansAlike(read, Flatten(windows));
    KeptInvariant(read, Flatten(windows));
  }
}
