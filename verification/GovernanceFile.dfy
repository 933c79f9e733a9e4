/** The governance state on disk, shared by challenge and cast processes. */
module GovernanceFile {
  import opened Bytes
  import opened Types
  import opened Hex
  import opened Verifier
  import opened Governance
  import opened GovernanceRuns
  import opened LockedFile

  datatype Job =
    | ChallengeJob(gate: GateConfig, proposalId: Str, root: Digest, now: u64, ttl: u64, nonce: Digest)
    | CastJob(gate: GateConfig, proposalId: Str, envelope: Envelope, choice: Choice, now: u64)

  datatype Output = Issued(challenge: Challenge) | Voted(outcome: CastOutcome)

  /** What a challenge process starts from: the file, or a new state if there is none. */
  function OpenState(p: Platform, file: Option<State>, op: Job): Option<State> {
    match (file, op)
    case (Some(st), _) => Some(st)
    case (None, ChallengeJob(gate, proposalId, _, _, _, _)) =>
      (match NewState(p, gate, proposalId)
       case Err(_) => None
       case Ok(st) => Some(st))
    case (None, CastJob(_, _, _, _, _)) => None
  }

  /** One process's work on the file: open, validate for its proposal, call, save. */
  ghost function ApplyGovernance(p: Platform, file: Option<State>, op: Job): Option<(State, Output)> {
    match OpenState(p, file, op)
    case None => None
    case Some(st) =>
      if ValidateError(p, st, op.gate, op.proposalId).Some? then None
      else
        match op
        case ChallengeJob(gate, _, root, now, ttl, nonce) =>
          (match Issue(p, st, gate, root, now, ttl, nonce)
           case Err(_) => None
           case Ok((next, c)) => Some((next, Issued(c))))
        case CastJob(gate, _, envelope, choice, now) =>
          (match Cast(p, st, gate, envelope, choice, now)
           case Err(_) => None
           case Ok((next, out)) => Some((next, Voted(out))))
  }

  ghost function Governing(p: Platform): Operation<State, Job, Output> {
    (file, op) => ApplyGovernance(p, file, op)
  }

  function CallOf(op: Job): Call {
    match op
    case ChallengeJob(gate, _, root, now, ttl, nonce) => IssueCall(gate, root, now, ttl, nonce)
    case CastJob(gate, _, envelope, choice, now) => CastCall(gate, envelope, choice, now)
  }

  function Casts(ops: seq<Job>): nat {
    if ops == [] then 0 else Casts(ops[..|ops| - 1]) + if ops[|ops| - 1].CastJob? then 1 else 0
  }

  /** One successful operation is one successful call on the state it opened. */
  lemma ApplyIsAdvance(p: Platform, file: Option<State>, op: Job, l: Ledger)
    requires ApplyGovernance(p, file, op).Some? && OpenState(p, file, op) == Some(l.state)
    ensures var next := Advance(p, l, CallOf(op));
            && ApplyGovernance(p, file, op).value.0 == next.state
            && |next.ballots| == |l.ballots| + (if op.CastJob? then 1 else 0)
            && |next.issued| == |l.issued| + (if op.CastJob? then 0 else 1)
  {
  }

  /** On a reached state a cast process saves exactly when its vote counts. */
  lemma CastJobSucceedsExactly(
      p: Platform, gate: GateConfig, proposalId: Str, l: Ledger, e: Envelope, choice: Choice, now: u64, d: Digest)
    requires Bound(p, gate, proposalId, l.state) && Balanced(ByDigest(p.sha), l)
    requires d == ChallengeDigest(p.sha, e.challenge)
    ensures ApplyGovernance(p, Some(l.state), CastJob(gate, proposalId, e, choice, now)).Some? <==>
            && ToHex(d) in l.state.pending && ToHex(e.journal.presenter) !in l.state.votes
            && Verify(p, Request(e, l.state.pending[ToHex(d)], gate, gate.context.verifierId, now), {}).Ok?
            && d !in Used(ByDigest(p.sha), l.ballots)
  {
    StillValid(p, gate, proposalId, l);
    CastJobIsCast(p, l.state, gate, proposalId, e, choice, now);
    VoteCountsExactly(p, gate, proposalId, l, e, choice, now, d);
  }

  lemma CastJobIsCast(
      p: Platform, st: State, gate: GateConfig, proposalId: Str, e: Envelope, choice: Choice, now: u64)
    requires ValidateError(p, st, gate, proposalId) == None
    ensures ApplyGovernance(p, Some(st), CastJob(gate, proposalId, e, choice, now)).Some? <==>
            Cast(p, st, gate, e, choice, now).Ok?
  {
  }

  /** And a challenge process exactly below the cap, for a real root and a window that fits. */
  lemma ChallengeJobSucceedsExactly(
      p: Platform, gate: GateConfig, proposalId: Str, l: Ledger, root: Digest, now: u64, ttl: u64, nonce: Digest)
    requires Bound(p, gate, proposalId, l.state) && Balanced(ByDigest(p.sha), l)
    ensures ApplyGovernance(p, Some(l.state), ChallengeJob(gate, proposalId, root, now, ttl, nonce)).Some? <==>
            && |l.state.pending| < MAX_PENDING && root != ZERO_DIGEST
            && 1 <= ttl <= MAX_CHALLENGE_TTL && now + ttl <= U64_MAX
  {
    StillValid(p, gate, proposalId, l);
    ChallengeJobIsIssue(p, l.state, gate, proposalId, root, now, ttl, nonce);
    IssueSucceedsExactly(p, gate, proposalId, l, root, now, ttl, nonce);
  }

  lemma ChallengeJobIsIssue(
      p: Platform, st: State, gate: GateConfig, proposalId: Str, root: Digest, now: u64, ttl: u64, nonce: Digest)
    requires ValidateError(p, st, gate, proposalId) == None
    ensures ApplyGovernance(p, Some(st), ChallengeJob(gate, proposalId, root, now, ttl, nonce)).Some? <==>
            Issue(p, st, gate, root, now, ttl, nonce).Ok?
  {
  }

  /** A missing file is opened by challenge processes only, with a gate that founds their proposal. */
  lemma FirstJobSucceedsExactly(p: Platform, op: Job)
    ensures ApplyGovernance(p, None, op).Some? <==>
            && op.ChallengeJob? && Founds(p, op.gate, op.proposalId) && op.root != ZERO_DIGEST
            && 1 <= op.ttl <= MAX_CHALLENGE_TTL && op.now + op.ttl <= U64_MAX
  {
    BindingExact(p, op.gate, op.proposalId);
    if op.ChallengeJob? && Founds(p, op.gate, op.proposalId) {
      var st := NewState(p, op.gate, op.proposalId).value;
      RunStaysBalanced(p, op.gate, op.proposalId, []);
      OpensNew(p, op, st);
      ChallengeJobSucceedsExactly(p, op.gate, op.proposalId, Ledger(st, [], []), op.root, op.now, op.ttl, op.nonce);
    }
  }

  lemma OpensNew(p: Platform, op: Job, st: State)
    requires op.ChallengeJob? && NewState(p, op.gate, op.proposalId) == Ok(st)
    ensures ApplyGovernance(p, None, op) == ApplyGovernance(p, Some(st), op)
  {
  }

  /** A process for another proposal, or with a gate that does not found its proposal, is refused on every file. */
  lemma ForeignJobRefused(p: Platform, st: State, op: Job)
    requires op.proposalId != st.proposalId || !Founds(p, op.gate, op.proposalId)
    ensures ApplyGovernance(p, Some(st), op) == None
  {
    ValidateExact(p, st, op.gate, op.proposalId);
  }

  /** A sequence of saved operations on a missing file is a run of the state machine from a new state. */
  lemma {:induction false} SequentialIsRun(p: Platform, ops: seq<Job>) returns (l: Ledger)
    requires ops != [] && Sequential(Governing(p), None, ops).Some?
    ensures Sequential(Governing(p), None, ops).value.0 == Some(l.state)
    ensures NewState(p, ops[0].gate, ops[0].proposalId).Ok?
    ensures Bound(p, ops[0].gate, ops[0].proposalId, l.state) && Balanced(ByDigest(p.sha), l)
    ensures |l.ballots| == Casts(ops) && |l.issued| == |ops| - Casts(ops)
  {
    var n := |ops| - 1;
    var before := Sequential(Governing(p), None, ops[..n]).value.0;
    var start: Ledger;
    if n == 0 {
      assert before == None && Governing(p)(None, ops[0]).Some?;
      start := Ledger(NewState(p, ops[0].gate, ops[0].proposalId).value, [], []);
      RunStaysBalanced(p, ops[0].gate, ops[0].proposalId, []);
      assert AfterCalls(p, start.state, []) == start;
      assert Casts(ops[..0]) == 0;
    } else {
      start := SequentialIsRun(p, ops[..n]);
      assert ops[..n][0] == ops[0];
    }
    assert Governing(p)(before, ops[n]) == ApplyGovernance(p, before, ops[n]);
    ApplyIsAdvance(p, before, ops[n], start);
    CallStaysBalanced(p, ops[0].gate, ops[0].proposalId, start, CallOf(ops[n]));
    l := Advance(p, start, CallOf(ops[n]));
  }

  ghost function VotesOn(file: Option<State>): nat {
    if file.Some? then |file.value.votes| else 0
  }

  /** A saved operation adds one vote if it is a cast and none otherwise, whatever the file held. */
  lemma ApplyVotes(p: Platform, file: Option<State>, op: Job)
    requires ApplyGovernance(p, file, op).Some?
    ensures VotesOn(Some(ApplyGovernance(p, file, op).value.0)) == VotesOn(file) + if op.CastJob? then 1 else 0
  {
    var st := OpenState(p, file, op).value;
    if op.CastJob? {
      CastAddsVote(p, st, op.gate, op.envelope, op.choice, op.now);
    }
  }

  lemma CastAddsVote(p: Platform, st: State, gate: GateConfig, e: Envelope, choice: Choice, now: u64)
    requires Cast(p, st, gate, e, choice, now).Ok?
    ensures |Cast(p, st, gate, e, choice, now).value.0.votes| == |st.votes| + 1
  {
    AdmittedIsNew(p, st, gate, e, now);
    MapGrows(st.votes, ToHex(Admission(p, st, gate, e, now).value.0.presenter), VoteRecord(choice, now));
  }

  lemma AdmittedIsNew(p: Platform, st: State, gate: GateConfig, e: Envelope, now: u64)
    requires Admission(p, st, gate, e, now).Ok?
    ensures ToHex(Admission(p, st, gate, e, now).value.0.presenter) !in st.votes
  {
  }

  lemma {:induction false} SequentialVotes(p: Platform, file: Option<State>, ops: seq<Job>)
    requires Sequential(Governing(p), file, ops).Some?
    ensures VotesOn(Sequential(Governing(p), file, ops).value.0) == VotesOn(file) + Casts(ops)
  {
    if ops == [] {
    } else {
      var n := |ops| - 1;
      SequentialVotes(p, file, ops[..n]);
      var before := Sequential(Governing(p), file, ops[..n]).value.0;
      assert Governing(p)(before, ops[n]) == ApplyGovernance(p, before, ops[n]);
      ApplyVotes(p, before, ops[n]);
    }
  }

  /**
   * No lost update, on any state file: whatever processes run, interleave and stop, the file is the result of the
   * saved operations one after another in save order, and holds one vote more for each saved cast.
   */
  lemma NoLostUpdates(p: Platform, file: Option<State>, events: seq<Event<Job>>) returns (outs: seq<Output>)
    ensures var w := Run(Governing(p), file, events);
            && TicketsKnown(w)
            && Sequential(Governing(p), file, SavedOps(w)) == Some((w.file, outs))
            && (w.saved == [] ==> w.file == file) && (w.saved != [] ==> w.file.Some?)
            && VotesOn(w.file) == VotesOn(file) + Casts(SavedOps(w))
  {
    outs := Serializable(Governing(p), file, events);
    SequentialVotes(p, file, SavedOps(Run(Governing(p), file, events)));
  }

  /** If the file starts missing, it also has every property of a run of the state machine, and still validates. */
  lemma SharedStateStaysValid(p: Platform, events: seq<Event<Job>>)
    ensures var w := Run(Governing(p), None, events);
            && TicketsKnown(w)
            && (w.file == None <==> w.saved == [])
            && (w.file.Some? ==>
                  var first := SavedOps(w)[0];
                  && |w.file.value.votes| == |w.file.value.consumed| == Casts(SavedOps(w))
                  && |w.file.value.pending| <= MAX_PENDING
                  && ValidateError(p, w.file.value, first.gate, first.proposalId) == None)
  {
    var w := Run(Governing(p), None, events);
    var outs := Serializable(Governing(p), None, events);
    var ops := SavedOps(w);
    if ops != [] {
      var l := SequentialIsRun(p, ops);
      StillValid(p, ops[0].gate, ops[0].proposalId, l);
    }
  }
}
