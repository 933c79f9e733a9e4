/** The receiving loop: poll, observe, unpack, and poll again while the transfer is not complete. */
module Receiving {
  import opened Bytes
  import opened Types
  import opened Wire
  import opened Transfers
  import opened Pending
  import opened Delivery

  /** The receiver polls again after this result. */
  predicate Waits(r: Result<(Str, Envelope), WireError>) {
    r.Err? && (r.error.NoTransfer? || r.error.IncompleteTransfer?)
  }

  /** The receiver's result after these polls, or none while it waits. It is stated on everything polled so far. */
  function Receive(net: Net, polls: seq<seq<Str>>, requested: Option<Str>): Option<Result<(Str, Envelope), WireError>> {
    if polls == [] then None
    else
      match Receive(net, polls[..|polls| - 1], requested)
      case Some(r) => Some(r)
      case None =>
        var o := ObserveWindows(ReaderFor(net, requested), polls);
        if o.error.Some? then Some(Err(o.error.value))
        else
          var r := Unpack(net, Flatten(polls), requested);
          if Waits(r) then None else Some(r)
  }

  lemma {:induction false} ReceiveStops(net: Net, polls: seq<seq<Str>>, requested: Option<Str>, k: nat)
    requires k <= |polls| && Receive(net, polls[..k], requested).Some?
    ensures Receive(net, polls, requested) == Receive(net, polls[..k], requested)
  {
    if k == |polls| {
      assert polls[..k] == polls;
    } else {
      var front := polls[..|polls| - 1];
      assert front[..k] == polls[..k];
      ReceiveStops(net, front, requested, k);
    }
  }

  /** The loop keeps the bounded collection only, and returns what unpacking everything polled would give. */
  method ReceiveEnvelope(net: Net, polls: seq<seq<Str>>, requested: Option<Str>)
      returns (r: Option<Result<(Str, Envelope), WireError>>)
    ensures r == Receive(net, polls, requested)
  {
    var pending := new PendingWireMessages();
    ghost var read := ReaderFor(net, requested);
    for i := 0 to |polls|
      invariant Receive(net, polls[..i], requested) == None
      invariant pending.Valid(read) && pending.history == Flatten(polls[..i])
      invariant ObserveWindows(read, polls[..i]) == Observed(pending.contents, None)
    {
      assert polls[..i + 1][..i] == polls[..i];
      var observed := pending.Observe(net, polls[i], requested);
      if observed.Err? {
        ReceiveStops(net, polls, requested, i + 1);
        return Some(Err(observed.error));
      }
      var unpacked := pending.UnpackPending(net, requested);
      if !Waits(unpacked) {
        ReceiveStops(net, polls, requested, i + 1);
        return Some(unpacked);
      }
    }
    assert polls[..|polls|] == polls;
    return None;
  }

  /** While the receiver waits, everything polled was observed without error and is no transfer or an incomplete one. */
  lemma WaitingExplained(net: Net, polls: seq<seq<Str>>, requested: Option<Str>)
    requires Receive(net, polls, requested) == None && polls != []
    ensures ObserveWindows(ReaderFor(net, requested), polls).error == None
    ensures match Unpack(net, Flatten(polls), requested)
            case Err(NoTransfer) => true
            case Err(IncompleteTransfer(_, _, _)) => true
            case _ => false
  {
  }

  /**
   * What ends the receiver: at the poll after which it no longer waits, an error of observing or of unpacking, or
   * an envelope.
   */
  lemma {:induction false} EndExplained(net: Net, polls: seq<seq<Str>>, requested: Option<Str>) returns (k: nat)
    requires Receive(net, polls, requested).Some?
    ensures 0 < k <= |polls| && Receive(net, polls[..k - 1], requested) == None
    ensures var o := ObserveWindows(ReaderFor(net, requested), polls[..k]);
            var r := Unpack(net, Flatten(polls[..k]), requested);
            Receive(net, polls, requested).value == if o.error.Some? then Err(o.error.value) else r
  {
    var n := |polls| - 1;
    if Receive(net, polls[..n], requested).Some? {
      k := EndExplained(net, polls[..n], requested);
      assert polls[..n][..k] == polls[..k] && polls[..n][..k - 1] == polls[..k - 1];
    } else {
      k := n + 1;
      assert polls[..k] == polls;
      LastPollEnds(net, polls, requested);
    }
  }

  lemma LastPollEnds(net: Net, polls: seq<seq<Str>>, requested: Option<Str>)
    requires polls != [] && Receive(net, polls[..|polls| - 1], requested) == None
    requires Receive(net, polls, requested).Some?
    ensures var o := ObserveWindows(ReaderFor(net, requested), polls);
            var r := Unpack(net, Flatten(polls), requested);
            Receive(net, polls, requested).value == if o.error.Some? then Err(o.error.value) else r
  {
  }

  lemma FlattenFront(polls: seq<seq<Str>>)
    requires polls != []
    ensures forall text :: text in Flatten(polls[..|polls| - 1]) ==> text in Flatten(polls)
  {
  }

  /**
   * The receiver of a packed envelope waits until every message has been polled, in whatever order, repetition and
   * noise, and then returns the original envelope.
   */
  lemma {:induction false} ReceiveDelivers(
      net: Net, e: Envelope, chunkBytes: nat, id: Str, bundle: Bundle, polls: seq<seq<Str>>)
    requires JsonWorks(net) && Pack(net, e, chunkBytes, id) == Ok(bundle)
    requires OnlyNoiseBesides(net, bundle, Flatten(polls))
    ensures Receive(net, polls, Some(id)) ==
            if forall text :: text in bundle.messages ==> text in Flatten(polls) then Some(Ok((id, e))) else None
  {
    DeliveryThroughWindows(net, e, chunkBytes, id, bundle, polls);
    if polls == [] {
      assert bundle.messages[0] in bundle.messages;
    } else {
      FlattenFront(polls);
      ReceiveDelivers(net, e, chunkBytes, id, bundle, polls[..|polls| - 1]);
      TransferDelivers(net, e, chunkBytes, id, bundle, Flatten(polls));
    }
  }

  /**
   * When one more poll makes a waiting receiver panic: exactly when observing it reaches a text on which the reader
   * panics, or everything polled is a complete transfer on whose envelope the parser panics.
   */
  lemma PollPanicsExactly(net: Net, polls: seq<seq<Str>>, poll: seq<Str>, id: Str)
    requires ValidTransferId(id) && Receive(net, polls, Some(id)) == None
    ensures var read := ReaderFor(net, Some(id));
            var kept := ObserveWindows(read, polls).kept;
            var items := Items(read, Flatten(polls + [poll]));
            Receive(net, polls + [poll], Some(id)) == Some(Err(ReaderPanicked)) <==>
            || (exists k: nat :: PanicAt(read, kept, poll, k))
            || (&& ObserveAll(read, kept, poll).error == None && Consistent(items)
                && exists m, data :: PanicsOpened(net, items, id, m, data))
  {
    var read, all := ReaderFor(net, Some(id)), polls + [poll];
    assert all[..|polls|] == polls;
    assert ObserveWindows(read, polls).error == None;
    var kept := ObserveWindows(read, polls).kept;
    assert ObserveWindows(read, all) == ObserveAll(read, kept, poll);
    ObservePanicsExactly(read, kept, poll);
    if ObserveWindows(read, all).error == None {
      WindowsFlatten(read, all);
      KeptInvariant(read, Flatten(all));
      ScanExact(read, Flatten(all));
      UnpackPanicsExactly(net, Flatten(all), id);
    }
  }
}
