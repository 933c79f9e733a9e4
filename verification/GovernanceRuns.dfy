/** What holds of a proposal's state after every sequence of calls. */
module GovernanceRuns {
  import opened Bytes
  import opened Types
  import opened Hex
  import opened Circuit
  import opened Verifier
  import opened Governance

  /** An accepted vote and the challenge it used. */
  datatype Ballot = Ballot(challenge: Challenge, presenter: Digest, choice: Choice, castAt: u64)

  /** The state together with the history of successful calls. */
  datatype Ledger = Ledger(state: State, issued: seq<Challenge>, ballots: seq<Ballot>)

  datatype Call =
    | IssueCall(gate: GateConfig, root: Digest, now: u64, ttl: u64, nonce: Digest)
    | CastCall(gate: GateConfig, envelope: Envelope, choice: Choice, now: u64)

  /** A call that fails leaves state and history alone. */
  ghost function Advance(p: Platform, l: Ledger, call: Call): Ledger {
    match call
    case IssueCall(gate, root, now, ttl, nonce) =>
      (match Issue(p, l.state, gate, root, now, ttl, nonce)
       case Err(_) => l
       case Ok((st, c)) => l.(state := st, issued := l.issued + [c]))
    case CastCall(gate, envelope, choice, now) =>
      (match Cast(p, l.state, gate, envelope, choice, now)
       case Err(_) => l
       case Ok((st, out)) =>
         l.(state := st, ballots := l.ballots + [Ballot(envelope.challenge, out.presenter, choice, now)]))
  }

  ghost function AfterCalls(p: Platform, start: State, calls: seq<Call>): Ledger {
    if calls == [] then Ledger(start, [], [])
    else Advance(p, AfterCalls(p, start, calls[..|calls| - 1]), calls[|calls| - 1])
  }

  /** The invariant is stated for any way to name challenges; here they are named by their digest. */
  type Naming = Challenge -> Digest

  ghost function ByDigest(sha: Hash): Naming {
    c => ChallengeDigest(sha, c)
  }

  ghost function Used(name: Naming, ballots: seq<Ballot>): set<Digest> {
    set b | b in ballots :: name(b.challenge)
  }

  /** No challenge and no presenter occurs twice. */
  ghost predicate OneVoteEach(name: Naming, ballots: seq<Ballot>) {
    forall i, j :: 0 <= i < j < |ballots| ==>
      name(ballots[i].challenge) != name(ballots[j].challenge) && ballots[i].presenter != ballots[j].presenter
  }

  /** The challenge was issued here, was live when the vote was cast, and not issued from the future. */
  predicate Timely(b: Ballot, issued: seq<Challenge>) {
    b.challenge in issued && b.challenge.issuedAt - MAX_CLOCK_SKEW <= b.castAt <= b.challenge.expiresAt
  }

  ghost predicate AllTimely(ballots: seq<Ballot>, issued: seq<Challenge>) {
    forall b :: b in ballots ==> Timely(b, issued)
  }

  predicate Bounded(pending: nat, used: nat, issued: nat) {
    pending <= MAX_PENDING && pending + used <= issued
  }

  ghost predicate PendingOk(name: Naming, pending: map<Str, Challenge>, issued: seq<Challenge>) {
    forall k :: k in pending ==> k == ToHex(name(pending[k])) && pending[k] in issued
  }

  ghost predicate VotesOk(votes: map<Str, VoteRecord>, ballots: seq<Ballot>) {
    && |votes| == |ballots|
    && (forall b :: b in ballots ==>
          ToHex(b.presenter) in votes && votes[ToHex(b.presenter)] == VoteRecord(b.choice, b.castAt))
    && (forall k :: k in votes ==> exists b :: b in ballots && k == ToHex(b.presenter))
  }

  ghost predicate ConsumedOk(name: Naming, consumed: seq<Str>, ballots: seq<Ballot>) {
    consumed == Listing(HexSet(Used(name, ballots))) && |consumed| == |ballots|
  }

  /** Every issued challenge is still pending or has been used. */
  ghost predicate NoneLost(name: Naming, pending: map<Str, Challenge>, issued: seq<Challenge>, ballots: seq<Ballot>) {
    forall c :: c in issued ==> ToHex(name(c)) in pending || name(c) in Used(name, ballots)
  }

  ghost predicate DistinctNames(name: Naming, issued: seq<Challenge>) {
    forall i, j :: 0 <= i < j < |issued| ==> name(issued[i]) != name(issued[j])
  }

  /** Only a challenge issued again can be pending after it was used. */
  ghost predicate Disjoint(name: Naming, pending: map<Str, Challenge>, issued: seq<Challenge>, ballots: seq<Ballot>) {
    DistinctNames(name, issued) ==> forall b :: b in ballots ==> ToHex(name(b.challenge)) !in pending
  }

  ghost predicate Balanced(name: Naming, l: Ledger) {
    && Bounded(|l.state.pending|, |l.ballots|, |l.issued|)
    && PendingOk(name, l.state.pending, l.issued)
    && ConsumedOk(name, l.state.consumed, l.ballots)
    && VotesOk(l.state.votes, l.ballots)
    && OneVoteEach(name, l.ballots)
    && AllTimely(l.ballots, l.issued)
    && NoneLost(name, l.state.pending, l.issued, l.ballots)
    && Disjoint(name, l.state.pending, l.issued, l.ballots)
  }

  /** The state belongs to this gate and proposal. */
  ghost predicate Bound(p: Platform, gate: GateConfig, proposalId: Str, st: State) {
    && BindingError(p, gate, proposalId) == None
    && st.version == STATE_VERSION && st.proposalId == proposalId
    && st.contextHash == ToHex(ContextHash(p.sha, gate.context))
  }

  predicate SameProposal(a: State, b: State) {
    a.version == b.version && a.proposalId == b.proposalId && a.contextHash == b.contextHash
  }

  lemma BoundStays(p: Platform, gate: GateConfig, proposalId: Str, a: State, b: State)
    requires Bound(p, gate, proposalId, a) && SameProposal(a, b)
    ensures Bound(p, gate, proposalId, b)
  {
  }

  lemma AddIssued(name: Naming, l: Ledger, c: Challenge)
    requires Balanced(name, l) && |l.state.pending| < MAX_PENDING
    ensures Balanced(name, l.(state := l.state.(pending := l.state.pending[ToHex(name(c)) := c]),
                              issued := l.issued + [c]))
  {
    var key := ToHex(name(c));
    MapGrows(l.state.pending, key, c);
    PendingGrows(name, l.state.pending, l.issued, l.ballots, c, key);
    DisjointAfterIssue(name, l.state.pending, l.issued, l.ballots, c, key);
  }

  lemma PendingGrows(
      name: Naming, pending: map<Str, Challenge>, issued: seq<Challenge>, ballots: seq<Ballot>, c: Challenge, key: Str)
    requires key == ToHex(name(c)) && PendingOk(name, pending, issued) && NoneLost(name, pending, issued, ballots)
    requires AllTimely(ballots, issued)
    ensures PendingOk(name, pending[key := c], issued + [c])
    ensures NoneLost(name, pending[key := c], issued + [c], ballots)
    ensures AllTimely(ballots, issued + [c])
  {
  }

  lemma DisjointAfterIssue(
      name: Naming, pending: map<Str, Challenge>, issued: seq<Challenge>, ballots: seq<Ballot>, c: Challenge, key: Str)
    requires key == ToHex(name(c)) && Disjoint(name, pending, issued, ballots) && AllTimely(ballots, issued)
    ensures Disjoint(name, pending[key := c], issued + [c], ballots)
  {
    var more := issued + [c];
    if DistinctNames(name, more) {
      assert DistinctNames(name, issued) by {
        forall i, j | 0 <= i < j < |issued| ensures name(issued[i]) != name(issued[j]) {
          assert more[i] == issued[i] && more[j] == issued[j];
        }
      }
      forall b | b in ballots ensures name(b.challenge) != name(c) && ToHex(name(b.challenge)) != key {
        assert Timely(b, issued);
        var i :| 0 <= i < |issued| && issued[i] == b.challenge;
        assert more[i] == b.challenge && more[|issued|] == c;
        HexInjective(name(b.challenge), name(c));
      }
    }
  }

  lemma UsedGrows(name: Naming, ballots: seq<Ballot>, b: Ballot)
    ensures Used(name, ballots + [b]) == Used(name, ballots) + {name(b.challenge)}
  {
    assert b in ballots + [b];
    assert forall a :: a in ballots + [b] <==> a in ballots || a == b;
  }

  lemma VotesGrow(votes: map<Str, VoteRecord>, ballots: seq<Ballot>, b: Ballot)
    requires VotesOk(votes, ballots) && ToHex(b.presenter) !in votes
    ensures VotesOk(votes[ToHex(b.presenter) := VoteRecord(b.choice, b.castAt)], ballots + [b])
  {
    var next := votes[ToHex(b.presenter) := VoteRecord(b.choice, b.castAt)];
    MapGrows(votes, ToHex(b.presenter), VoteRecord(b.choice, b.castAt));
    forall k | k in next ensures exists a :: a in ballots + [b] && k == ToHex(a.presenter) {
      VoterKnown(votes, ballots, b, k);
    }
    forall a | a in ballots + [b]
      ensures ToHex(a.presenter) in next && next[ToHex(a.presenter)] == VoteRecord(a.choice, a.castAt)
    {
      if a in ballots { NewVoter(votes, ballots, b, a); }
    }
  }

  lemma MapGrows<K, V>(m: map<K, V>, k: K, v: V)
    ensures |m[k := v]| == |m| + if k in m then 0 else 1
  {
    assert m[k := v].Keys == m.Keys + {k};
  }

  lemma NewVoter(votes: map<Str, VoteRecord>, ballots: seq<Ballot>, b: Ballot, a: Ballot)
    requires VotesOk(votes, ballots) && ToHex(b.presenter) !in votes && a in ballots
    ensures a.presenter != b.presenter && ToHex(a.presenter) != ToHex(b.presenter)
    ensures ToHex(a.presenter) in votes && votes[ToHex(a.presenter)] == VoteRecord(a.choice, a.castAt)
  {
  }

  lemma VoterKnown(votes: map<Str, VoteRecord>, ballots: seq<Ballot>, b: Ballot, k: Str)
    requires VotesOk(votes, ballots) && (k in votes || k == ToHex(b.presenter))
    ensures exists a :: a in ballots + [b] && k == ToHex(a.presenter)
  {
    if k in votes {
      var a :| a in ballots && k == ToHex(a.presenter);
      assert a in ballots + [b];
    } else {
      assert b in ballots + [b];
    }
  }

  lemma ConsumedGrows(name: Naming, consumed: seq<Str>, ballots: seq<Ballot>, b: Ballot)
    requires ConsumedOk(name, consumed, ballots) && name(b.challenge) !in Used(name, ballots)
    ensures ConsumedOk(name, Listing(HexSet(Used(name, ballots) + {name(b.challenge)})), ballots + [b])
  {
    UsedGrows(name, ballots, b);
    HexSetSize(Used(name, ballots));
    HexSetSize(Used(name, ballots) + {name(b.challenge)});
  }

  lemma OneVoteEachGrows(name: Naming, ballots: seq<Ballot>, b: Ballot)
    requires OneVoteEach(name, ballots) && name(b.challenge) !in Used(name, ballots)
    requires forall a :: a in ballots ==> a.presenter != b.presenter
    ensures OneVoteEach(name, ballots + [b])
  {
    forall i | 0 <= i < |ballots| ensures name(ballots[i].challenge) != name(b.challenge) {
      assert ballots[i] in ballots && name(ballots[i].challenge) in Used(name, ballots);
    }
  }

  lemma PendingShrinks(
      name: Naming, pending: map<Str, Challenge>, issued: seq<Challenge>, ballots: seq<Ballot>, b: Ballot)
    requires PendingOk(name, pending, issued) && NoneLost(name, pending, issued, ballots)
    ensures PendingOk(name, pending - {ToHex(name(b.challenge))}, issued)
    ensures NoneLost(name, pending - {ToHex(name(b.challenge))}, issued, ballots + [b])
    ensures |pending - {ToHex(name(b.challenge))}| == |pending| - if ToHex(name(b.challenge)) in pending then 1 else 0
  {
    var next := pending - {ToHex(name(b.challenge))};
    assert next.Keys == pending.Keys - {ToHex(name(b.challenge))};
    UsedGrows(name, ballots, b);
    forall c | c in issued ensures ToHex(name(c)) in next || name(c) in Used(name, ballots + [b]) {
      HexInjective(name(c), name(b.challenge));
    }
  }

  lemma AddBallot(name: Naming, l: Ledger, b: Ballot)
    requires Balanced(name, l)
    requires ToHex(b.presenter) !in l.state.votes && Timely(b, l.issued)
    requires ToHex(name(b.challenge)) in l.state.pending && name(b.challenge) !in Used(name, l.ballots)
    ensures var used := Used(name, l.ballots) + {name(b.challenge)};
            Balanced(name, l.(state := Record(l.state, name(b.challenge), b.presenter, used, b.choice, b.castAt),
                                 ballots := l.ballots + [b]))
  {
    VotesGrow(l.state.votes, l.ballots, b);
    forall a | a in l.ballots ensures a.presenter != b.presenter { NewVoter(l.state.votes, l.ballots, b, a); }
    TimelyGrows(l.ballots, l.issued, b);
    ConsumedGrows(name, l.state.consumed, l.ballots, b);
    OneVoteEachGrows(name, l.ballots, b);
    PendingShrinks(name, l.state.pending, l.issued, l.ballots, b);
    DisjointAfterCast(name, l.state.pending, l.issued, l.ballots, b);
  }

  lemma TimelyGrows(ballots: seq<Ballot>, issued: seq<Challenge>, b: Ballot)
    requires Timely(b, issued) && AllTimely(ballots, issued)
    ensures AllTimely(ballots + [b], issued)
  {
  }

  lemma DisjointAfterCast(
      name: Naming, pending: map<Str, Challenge>, issued: seq<Challenge>, ballots: seq<Ballot>, b: Ballot)
    requires Disjoint(name, pending, issued, ballots)
    ensures Disjoint(name, pending - {ToHex(name(b.challenge))}, issued, ballots + [b])
  {
  }

  /** What a successful issue call did. */
  lemma IssueEffect(p: Platform, st: State, gate: GateConfig, root: Digest, now: u64, ttl: u64, nonce: Digest)
    requires Issue(p, st, gate, root, now, ttl, nonce).Ok?
    ensures var (next, c) := Issue(p, st, gate, root, now, ttl, nonce).value;
            |st.pending| < MAX_PENDING && next == st.(pending := st.pending[ToHex(ChallengeDigest(p.sha, c)) := c])
  {
  }

  lemma ParseUsed(used: set<Digest>) returns (digests: seq<Digest>)
    ensures ReadAll(ParseDigest, Listing(HexSet(used))) == Some(digests) && (set d | d in digests) == used
  {
    forall d: Digest | d in used ensures ParseDigest(ToHex(d)) == Some(d) { HexRoundTrip(d); }
    digests := ReadListing(ParseDigest, used);
  }

  /** What admission established, when the used list is the listing of `used`. */
  lemma AdmissionEffect(p: Platform, st: State, gate: GateConfig, e: Envelope, now: u64, used: set<Digest>, d: Digest)
    requires st.consumed == Listing(HexSet(used)) && d == ChallengeDigest(p.sha, e.challenge)
    requires Admission(p, st, gate, e, now).Ok?
    ensures ToHex(d) in st.pending && ToHex(e.journal.presenter) !in st.votes
    ensures var verdict := Verify(p, Request(e, st.pending[ToHex(d)], gate, gate.context.verifierId, now), used);
            verdict.Ok? && Admission(p, st, gate, e, now) == Ok((verdict.value, used + {d}))
  {
    var digests := ParseUsed(used);
  }

  /** What acceptance says about the challenge and the clock. */
  lemma AcceptedChallenge(p: Platform, r: Request, used: set<Digest>)
    requires Verify(p, r, used).Ok?
    ensures r.envelope.challenge == r.expected && Verify(p, r, used).value.presenter == r.envelope.journal.presenter
    ensures r.expected.issuedAt - MAX_CLOCK_SKEW <= r.now <= r.expected.expiresAt
    ensures ChallengeDigest(p.sha, r.expected) !in used
  {
    AcceptanceExact(p, r, used);
  }

  /** What a successful cast did, when the used list is the listing of `used`. */
  lemma CastEffect(p: Platform, st: State, gate: GateConfig, e: Envelope, choice: Choice, now: u64, used: set<Digest>)
    requires st.consumed == Listing(HexSet(used))
    requires Cast(p, st, gate, e, choice, now).Ok?
    ensures var (next, out) := Cast(p, st, gate, e, choice, now).value;
            var d := ChallengeDigest(p.sha, e.challenge);
            && ToHex(d) in st.pending && st.pending[ToHex(d)] == e.challenge
            && out.presenter == e.journal.presenter && ToHex(out.presenter) !in st.votes
            && out.choice == choice && out.total == |next.votes| == |st.votes| + 1
            && e.challenge.issuedAt - MAX_CLOCK_SKEW <= now <= e.challenge.expiresAt
            && d !in used
            && next == Record(st, d, out.presenter, used + {d}, choice, now)
  {
    var d := ChallengeDigest(p.sha, e.challenge);
    AdmissionEffect(p, st, gate, e, now, used, d);
    AcceptedChallenge(p, Request(e, st.pending[ToHex(d)], gate, gate.context.verifierId, now), used);
    MapGrows(st.votes, ToHex(e.journal.presenter), VoteRecord(choice, now));
  }

  lemma CastChecksGate(p: Platform, st: State, gate: GateConfig, e: Envelope, choice: Choice, now: u64)
    requires Cast(p, st, gate, e, choice, now).Ok?
    ensures st.contextHash == ToHex(ContextHash(p.sha, gate.context))
  {
    assert Admission(p, st, gate, e, now).Ok? && ValidateError(p, st, gate, st.proposalId) == None;
  }

  /**
   * A hidden account behind the vote: it was committed under the challenge's root and meets the gate, or the two
   * contexts' bytes collide.
   */
  ghost predicate Backs(p: Platform, gate: GateConfig, c: Challenge, presenter: Digest, w: Witness, balance: u128) {
    && w.root == c.root && w.presenter == presenter
    && Holds(p.sha, w, balance) && balance >= w.context.threshold > 0
    && ContextHash(p.sha, w.context) == ContextHash(p.sha, gate.context)
    && (w.context == gate.context || Collides(p.sha, ContextBytes(w.context), ContextBytes(gate.context)))
  }

  /** One accepted vote is backed at the gate the proposal was created for, whatever gate the call was given. */
  lemma VoteBacked(
      p: Platform, gate: GateConfig, proposalId: Str, l: Ledger, given: GateConfig, e: Envelope, choice: Choice,
      now: u64)
      returns (w: Witness, balance: u128)
    requires ReceiptsSound(p) && Bound(p, gate, proposalId, l.state)
    requires Balanced(ByDigest(p.sha), l) && Cast(p, l.state, given, e, choice, now).Ok?
    ensures e.challenge in l.issued
    ensures Backs(p, gate, e.challenge, Cast(p, l.state, given, e, choice, now).value.1.presenter, w, balance)
    ensures w.context.owner == given.context.owner && w.context.definitionId == given.context.definitionId
    ensures balance >= given.context.threshold > 0
  {
    var used := Used(ByDigest(p.sha), l.ballots);
    var d := ChallengeDigest(p.sha, e.challenge);
    AdmissionEffect(p, l.state, given, e, now, used, d);
    var r := Request(e, l.state.pending[ToHex(d)], given, given.context.verifierId, now);
    AcceptedChallenge(p, r, used);
    w, balance := WitnessOf(p, r, used);
    CastChecksGate(p, l.state, given, e, choice, now);
    HexInjective(ContextHash(p.sha, gate.context), ContextHash(p.sha, given.context));
    ContextHashBinds(p.sha, w.context, gate.context);
  }

  lemma WitnessOf(p: Platform, r: Request, used: set<Digest>) returns (w: Witness, balance: u128)
    requires ReceiptsSound(p) && Verify(p, r, used).Ok?
    ensures w.root == r.expected.root && w.presenter == r.envelope.journal.presenter
    ensures Holds(p.sha, w, balance) && balance >= w.context.threshold > 0
    ensures ContextHash(p.sha, w.context) == ContextHash(p.sha, r.gate.context)
    ensures w.context.owner == r.gate.context.owner && w.context.definitionId == r.gate.context.definitionId
    ensures w.context.threshold == r.gate.context.threshold
  {
    AcceptanceExact(p, r, used);
    w, balance := AcceptanceSound(p, r, used);
    EvaluateExact(p.sha, w, r.envelope.journal);
  }

  lemma IssueStaysBalanced(p: Platform, l: Ledger, gate: GateConfig, root: Digest, now: u64, ttl: u64, nonce: Digest)
    requires Balanced(ByDigest(p.sha), l) && Issue(p, l.state, gate, root, now, ttl, nonce).Ok?
    ensures var (next, c) := Issue(p, l.state, gate, root, now, ttl, nonce).value;
            SameProposal(l.state, next) && Balanced(ByDigest(p.sha), l.(state := next, issued := l.issued + [c]))
  {
    IssueEffect(p, l.state, gate, root, now, ttl, nonce);
    AddIssued(ByDigest(p.sha), l, Issue(p, l.state, gate, root, now, ttl, nonce).value.1);
  }

  lemma CastStaysBalanced(p: Platform, l: Ledger, gate: GateConfig, e: Envelope, choice: Choice, now: u64)
    requires Balanced(ByDigest(p.sha), l) && Cast(p, l.state, gate, e, choice, now).Ok?
    ensures var (next, out) := Cast(p, l.state, gate, e, choice, now).value;
            && SameProposal(l.state, next)
            && Balanced(ByDigest(p.sha),
                        l.(state := next, ballots := l.ballots + [Ballot(e.challenge, out.presenter, choice, now)]))
  {
    var name := ByDigest(p.sha);
    CastEffect(p, l.state, gate, e, choice, now, Used(name, l.ballots));
    var b := Ballot(e.challenge, e.journal.presenter, choice, now);
    assert Timely(b, l.issued);
    AddBallot(name, l, b);
  }

  /** A call left everything as it was, or kept the proposal and the invariant. */
  ghost predicate Keeps(p: Platform, l: Ledger, next: Ledger) {
    next == l || (SameProposal(l.state, next.state) && Balanced(ByDigest(p.sha), next))
  }

  lemma AdvanceKeeps(p: Platform, l: Ledger, call: Call)
    requires Balanced(ByDigest(p.sha), l)
    ensures Keeps(p, l, Advance(p, l, call))
  {
    match call
    case IssueCall(g, root, now, ttl, nonce) =>
      if Issue(p, l.state, g, root, now, ttl, nonce).Ok? {
        IssueStaysBalanced(p, l, g, root, now, ttl, nonce);
      }
    case CastCall(g, e, choice, now) =>
      if Cast(p, l.state, g, e, choice, now).Ok? {
        CastStaysBalanced(p, l, g, e, choice, now);
      }
  }

  lemma CallStaysBalanced(p: Platform, gate: GateConfig, proposalId: Str, l: Ledger, call: Call)
    requires Bound(p, gate, proposalId, l.state) && Balanced(ByDigest(p.sha), l)
    ensures Bound(p, gate, proposalId, Advance(p, l, call).state) && Balanced(ByDigest(p.sha), Advance(p, l, call))
  {
    AdvanceKeeps(p, l, call);
    if Advance(p, l, call) != l {
      BoundStays(p, gate, proposalId, l.state, Advance(p, l, call).state);
    }
  }

  /** Every run from a new state keeps the invariant. */
  lemma {:induction false} RunStaysBalanced(p: Platform, gate: GateConfig, proposalId: Str, calls: seq<Call>)
    requires NewState(p, gate, proposalId).Ok?
    ensures var l := AfterCalls(p, NewState(p, gate, proposalId).value, calls);
            Bound(p, gate, proposalId, l.state) && Balanced(ByDigest(p.sha), l)
  {
    var start := NewState(p, gate, proposalId).value;
    if calls == [] {
      assert Used(ByDigest(p.sha), []) == {} && HexSet({}) == {};
    } else {
      var front := calls[..|calls| - 1];
      RunStaysBalanced(p, gate, proposalId, front);
      CallStaysBalanced(p, gate, proposalId, AfterCalls(p, start, front), calls[|calls| - 1]);
    }
  }

  lemma {:induction false} NoBadEntry(
      bad: (Str, Challenge) -> Option<GovernanceError>, entries: map<Str, Challenge>, keys: seq<Str>)
    requires forall k :: k in keys ==> k in entries && bad(k, entries[k]) == None
    ensures FirstBad(bad, entries, keys) == None
  {
    if keys == [] {
    } else {
      NoBadEntry(bad, entries, keys[..|keys| - 1]);
    }
  }

  lemma PendingEntriesValid(sha: Hash, pending: map<Str, Challenge>, issued: seq<Challenge>)
    requires PendingOk(ByDigest(sha), pending, issued)
    ensures PendingErrorOf(sha, pending) == None
  {
    var keys := Listing(pending.Keys);
    forall k | k in keys ensures k in pending && EntryError(sha, k, pending[k]) == None {
      assert k in Elements(keys);
      HexRoundTrip(ByDigest(sha)(pending[k]));
    }
    NoBadEntry((key, c) => EntryError(sha, key, c), pending, keys);
  }

  /** The state keeps validating against its gate. */
  lemma StillValid(p: Platform, gate: GateConfig, proposalId: Str, l: Ledger)
    requires Bound(p, gate, proposalId, l.state) && Balanced(ByDigest(p.sha), l)
    ensures ValidateError(p, l.state, gate, proposalId) == None
  {
    var _ := ParseUsed(Used(ByDigest(p.sha), l.ballots));
    PendingEntriesValid(p.sha, l.state.pending, l.issued);
    VotersValid(l.state.votes, l.ballots);
  }

  /**
   * In every reached state, a vote counts exactly when its challenge is pending, its presenter and digest are new, and
   * its proof verifies.
   */
  lemma VoteCountsExactly(
      p: Platform, gate: GateConfig, proposalId: Str, l: Ledger, e: Envelope, choice: Choice, now: u64, d: Digest)
    requires Bound(p, gate, proposalId, l.state) && Balanced(ByDigest(p.sha), l)
    requires d == ChallengeDigest(p.sha, e.challenge)
    ensures Cast(p, l.state, gate, e, choice, now).Ok? <==>
            && ToHex(d) in l.state.pending && ToHex(e.journal.presenter) !in l.state.votes
            && Verify(p, Request(e, l.state.pending[ToHex(d)], gate, gate.context.verifierId, now), {}).Ok?
            && d !in Used(ByDigest(p.sha), l.ballots)
  {
    var used := Used(ByDigest(p.sha), l.ballots);
    StillValid(p, gate, proposalId, l);
    AdmissionExact(p, l.state, gate, e, now, used, d);
    CastFollowsAdmission(p, l.state, gate, e, choice, now);
    if ToHex(d) in l.state.pending {
      VerdictByUse(p, Request(e, l.state.pending[ToHex(d)], gate, gate.context.verifierId, now), used, d);
    }
  }

  lemma CastFollowsAdmission(p: Platform, st: State, gate: GateConfig, e: Envelope, choice: Choice, now: u64)
    ensures Cast(p, st, gate, e, choice, now).Ok? <==> Admission(p, st, gate, e, now).Ok?
  {
  }

  lemma AdmissionExact(p: Platform, st: State, gate: GateConfig, e: Envelope, now: u64, used: set<Digest>, d: Digest)
    requires st.consumed == Listing(HexSet(used)) && d == ChallengeDigest(p.sha, e.challenge)
    requires ValidateError(p, st, gate, st.proposalId) == None
    ensures Admission(p, st, gate, e, now).Ok? <==>
            && ToHex(d) in st.pending && ToHex(e.journal.presenter) !in st.votes
            && Verify(p, Request(e, st.pending[ToHex(d)], gate, gate.context.verifierId, now), used).Ok?
  {
    var digests := ParseUsed(used);
  }

  /** The used set matters to the verdict only for the challenge's own digest. */
  lemma VerdictByUse(p: Platform, r: Request, used: set<Digest>, d: Digest)
    requires d == ChallengeDigest(p.sha, r.envelope.challenge)
    ensures Verify(p, r, used).Ok? <==> Verify(p, r, {}).Ok? && d !in used
  {
    AcceptanceExact(p, r, used);
    AcceptanceExact(p, r, {});
  }

  /** In every reached state a challenge is issued exactly below the cap, for a real root and a window that fits. */
  lemma IssueSucceedsExactly(
      p: Platform, gate: GateConfig, proposalId: Str, l: Ledger, root: Digest, now: u64, ttl: u64, nonce: Digest)
    requires Bound(p, gate, proposalId, l.state) && Balanced(ByDigest(p.sha), l)
    ensures Issue(p, l.state, gate, root, now, ttl, nonce).Ok? <==>
            |l.state.pending| < 4096 && root != ZERO_DIGEST && 1 <= ttl <= MAX_CHALLENGE_TTL
            && now + ttl <= U64_MAX
  {
    StillValid(p, gate, proposalId, l);
    IssueVerdict(p, l.state, gate, root, now, ttl, nonce);
  }

  lemma IssueVerdict(p: Platform, st: State, gate: GateConfig, root: Digest, now: u64, ttl: u64, nonce: Digest)
    requires ValidateError(p, st, gate, st.proposalId) == None
    ensures Issue(p, st, gate, root, now, ttl, nonce).Ok? <==>
            |st.pending| < MAX_PENDING && root != ZERO_DIGEST && 1 <= ttl <= MAX_CHALLENGE_TTL && now + ttl <= U64_MAX
  {
    assert BindingError(p, gate, st.proposalId) == None && p.gateValid(gate);
  }

  lemma VotersValid(votes: map<Str, VoteRecord>, ballots: seq<Ballot>)
    requires VotesOk(votes, ballots)
    ensures ReadAll(ParseDigest, Listing(votes.Keys)).Some?
  {
    var voters := set b | b in ballots :: b.presenter;
    assert votes.Keys == HexSet(voters);
    var _ := ParseUsed(voters);
  }

  lemma {:induction false} DistinctCount(name: Naming, issued: seq<Challenge>)
    requires DistinctNames(name, issued)
    ensures |Names(name, issued)| == |issued|
  {
    if issued == [] {
    } else {
      var n := |issued| - 1;
      var front := issued[..n];
      DistinctCount(name, front);
      forall c | c in front ensures name(c) != name(issued[n]) {
        var i :| 0 <= i < n && front[i] == c;
      }
      assert forall c :: c in issued <==> c in front || c == issued[n];
      assert Names(name, issued) == Names(name, front) + {name(issued[n])};
    }
  }

  ghost function Names(name: Naming, issued: seq<Challenge>): set<Digest> {
    set c | c in issued :: name(c)
  }

  lemma NamesSplit(name: Naming, l: Ledger)
    requires PendingOk(name, l.state.pending, l.issued) && NoneLost(name, l.state.pending, l.issued, l.ballots)
    requires AllTimely(l.ballots, l.issued)
    ensures HexSet(Names(name, l.issued)) == l.state.pending.Keys + HexSet(Used(name, l.ballots))
  {
    var names, used := Names(name, l.issued), Used(name, l.ballots);
    forall k | k in HexSet(names) ensures k in l.state.pending.Keys + HexSet(used) {
      var c :| c in l.issued && ToHex(name(c)) == k;
    }
    forall k | k in l.state.pending.Keys ensures k in HexSet(names) {
      assert l.state.pending[k] in l.issued && name(l.state.pending[k]) in names;
    }
    forall k | k in HexSet(used) ensures k in HexSet(names) {
      var b :| b in l.ballots && ToHex(name(b.challenge)) == k;
      assert Timely(b, l.issued) && name(b.challenge) in names;
    }
  }

  /** Nothing is created or lost: challenges issued are challenges pending plus challenges used. */
  lemma Conservation(name: Naming, l: Ledger)
    requires PendingOk(name, l.state.pending, l.issued) && NoneLost(name, l.state.pending, l.issued, l.ballots)
    requires ConsumedOk(name, l.state.consumed, l.ballots) && Disjoint(name, l.state.pending, l.issued, l.ballots)
    requires AllTimely(l.ballots, l.issued) && DistinctNames(name, l.issued)
    ensures |l.issued| == |l.state.pending| + |l.state.consumed|
  {
    var names, used := Names(name, l.issued), Used(name, l.ballots);
    DistinctCount(name, l.issued);
    HexSetSize(names);
    HexSetSize(used);
    NamesSplit(name, l);
    DisjointKeys(name, l.state.pending, l.issued, l.ballots);
    SplitSize(l.state.pending.Keys, HexSet(used), HexSet(names));
  }

  lemma DisjointKeys(name: Naming, pending: map<Str, Challenge>, issued: seq<Challenge>, ballots: seq<Ballot>)
    requires Disjoint(name, pending, issued, ballots) && DistinctNames(name, issued)
    ensures pending.Keys !! HexSet(Used(name, ballots))
  {
    forall k | k in HexSet(Used(name, ballots)) ensures k !in pending {
      var b :| b in ballots && ToHex(name(b.challenge)) == k;
    }
  }

  lemma SplitSize(a: set<Str>, b: set<Str>, all: set<Str>)
    requires all == a + b && a !! b
    ensures |all| == |a| + |b|
  {
  }

  // ----- Every call that does something is made with the proposal's gate -----

  lemma ActsWithinProposal(p: Platform, l: Ledger, call: Call)
    requires Advance(p, l, call) != l
    ensures Founds(p, call.gate, l.state.proposalId)
    ensures l.state.contextHash == ToHex(ContextHash(p.sha, call.gate.context))
  {
    ValidateExact(p, l.state, call.gate, l.state.proposalId);
  }

  /**
   * In every run, a call that succeeds was given a valid gate whose identifiers and context hash are the
   * proposal's.
   */
  lemma EveryCallWithinProposal(p: Platform, gate: GateConfig, proposalId: Str, calls: seq<Call>, k: nat)
    requires NewState(p, gate, proposalId).Ok? && k < |calls|
    requires var start := NewState(p, gate, proposalId).value;
             AfterCalls(p, start, calls[..k + 1]) != AfterCalls(p, start, calls[..k])
    ensures Founds(p, calls[k].gate, proposalId)
    ensures ContextHash(p.sha, calls[k].gate.context) == ContextHash(p.sha, gate.context)
  {
    var start := NewState(p, gate, proposalId).value;
    assert calls[..k + 1][..k] == calls[..k];
    RunStaysBalanced(p, gate, proposalId, calls[..k]);
    ActsWithinProposal(p, AfterCalls(p, start, calls[..k]), calls[k]);
    HexInjective(ContextHash(p.sha, calls[k].gate.context), ContextHash(p.sha, gate.context));
  }

  // ----- The exact count -----

  /** A successful issue of a challenge whose digest is already pending: it replaces the entry instead of adding one. */
  ghost predicate Overwrites(p: Platform, st: State, call: Call) {
    && call.IssueCall?
    && var made := Issue(p, st, call.gate, call.root, call.now, call.ttl, call.nonce);
       made.Ok? && ToHex(ChallengeDigest(p.sha, made.value.1)) in st.pending
  }

  ghost predicate LastOverwrites(p: Platform, start: State, calls: seq<Call>) {
    && calls != []
    && var n := |calls| - 1;
       Overwrites(p, AfterCalls(p, start, calls[..n]).state, calls[n])
  }

  /** How many non-empty prefixes are hits. */
  ghost function Hits(hit: seq<Call> -> bool, calls: seq<Call>): nat {
    if calls == [] then 0 else Hits(hit, calls[..|calls| - 1]) + if hit(calls) then 1 else 0
  }

  ghost function Overwriting(p: Platform, start: State): seq<Call> -> bool {
    calls => LastOverwrites(p, start, calls)
  }

  ghost function Overwritten(p: Platform, start: State, calls: seq<Call>): nat {
    Hits(Overwriting(p, start), calls)
  }

  lemma IssueCounts(p: Platform, l: Ledger, call: Call)
    requires call.IssueCall?
    ensures var next := Advance(p, l, call);
            && next.ballots == l.ballots
            && |next.issued| + |l.state.pending| ==
                  |l.issued| + |next.state.pending| + if Overwrites(p, l.state, call) then 1 else 0
  {
    var made := Issue(p, l.state, call.gate, call.root, call.now, call.ttl, call.nonce);
    if made.Ok? {
      IssueEffect(p, l.state, call.gate, call.root, call.now, call.ttl, call.nonce);
      MapGrows(l.state.pending, ToHex(ChallengeDigest(p.sha, made.value.1)), made.value.1);
    }
  }

  lemma CastCounts(p: Platform, l: Ledger, call: Call)
    requires Balanced(ByDigest(p.sha), l) && call.CastCall?
    ensures var next := Advance(p, l, call);
            next.issued == l.issued && |next.state.pending| + |next.ballots| == |l.state.pending| + |l.ballots|
  {
    if Cast(p, l.state, call.gate, call.envelope, call.choice, call.now).Ok? {
      CastEffect(p, l.state, call.gate, call.envelope, call.choice, call.now, Used(ByDigest(p.sha), l.ballots));
      MapShrinks(l.state.pending, ToHex(ChallengeDigest(p.sha, call.envelope.challenge)));
    }
  }

  lemma MapShrinks<K, V>(m: map<K, V>, k: K)
    requires k in m
    ensures |m - {k}| == |m| - 1
  {
    assert (m - {k}).Keys == m.Keys - {k};
  }

  /** A call issues as many challenges as become pending or used, and one more if it is a hit. */
  predicate Moves(before: Ledger, after: Ledger, hit: bool) {
    |after.issued| - |after.state.pending| - |after.ballots|
    == |before.issued| - |before.state.pending| - |before.ballots| + if hit then 1 else 0
  }

  lemma {:induction false} MovesAddUp(after: seq<Call> -> Ledger, hit: seq<Call> -> bool, calls: seq<Call>)
    requires forall k :: 0 < k <= |calls| ==> Moves(after(calls[..k - 1]), after(calls[..k]), hit(calls[..k]))
    ensures |after(calls).issued| - |after(calls).state.pending| - |after(calls).ballots|
            == |after([]).issued| - |after([]).state.pending| - |after([]).ballots| + Hits(hit, calls)
  {
    if calls == [] {
    } else {
      var n := |calls| - 1;
      var front := calls[..n];
      forall k | 0 < k <= n ensures Moves(after(front[..k - 1]), after(front[..k]), hit(front[..k])) {
        assert front[..k - 1] == calls[..k - 1] && front[..k] == calls[..k];
      }
      MovesAddUp(after, hit, front);
      assert calls[..n + 1] == calls;
      assert Moves(after(front), after(calls), hit(calls));
    }
  }

  lemma LastMoves(p: Platform, start: State, calls: seq<Call>)
    requires calls != [] && Balanced(ByDigest(p.sha), AfterCalls(p, start, calls[..|calls| - 1]))
    ensures Moves(AfterCalls(p, start, calls[..|calls| - 1]), AfterCalls(p, start, calls),
                  LastOverwrites(p, start, calls))
  {
    var n := |calls| - 1;
    if calls[n].IssueCall? {
      IssueCounts(p, AfterCalls(p, start, calls[..n]), calls[n]);
    } else {
      CastCounts(p, AfterCalls(p, start, calls[..n]), calls[n]);
    }
  }

  /** Every issued challenge is pending, used, or was overwritten: an equation for every run. */
  lemma {:induction false} ExactCount(p: Platform, gate: GateConfig, proposalId: Str, calls: seq<Call>)
    requires NewState(p, gate, proposalId).Ok?
    ensures var start := NewState(p, gate, proposalId).value;
            var l := AfterCalls(p, start, calls);
            |l.issued| == |l.state.pending| + |l.ballots| + Overwritten(p, start, calls)
  {
    var start := NewState(p, gate, proposalId).value;
    var after := c => AfterCalls(p, start, c);
    forall k | 0 < k <= |calls|
      ensures Moves(after(calls[..k - 1]), after(calls[..k]), Overwriting(p, start)(calls[..k]))
    {
      assert calls[..k][..k - 1] == calls[..k - 1];
      RunStaysBalanced(p, gate, proposalId, calls[..k - 1]);
      LastMoves(p, start, calls[..k]);
    }
    MovesAddUp(after, Overwriting(p, start), calls);
  }

  lemma {:induction false} NoHits(hit: seq<Call> -> bool, calls: seq<Call>)
    ensures Hits(hit, calls) == 0 <==> forall k :: 0 < k <= |calls| ==> !hit(calls[..k])
  {
    if calls == [] {
    } else {
      var n := |calls| - 1;
      NoHits(hit, calls[..n]);
      assert calls[..n + 1] == calls;
      assert forall k :: 0 < k <= n ==> calls[..n][..k] == calls[..k];
    }
  }

  /** Conservation holds exactly for the runs in which no issue meets its own digest among the pending ones. */
  lemma ConservedExactly(p: Platform, gate: GateConfig, proposalId: Str, calls: seq<Call>)
    requires NewState(p, gate, proposalId).Ok?
    ensures var start := NewState(p, gate, proposalId).value;
            var l := AfterCalls(p, start, calls);
            |l.issued| == |l.state.pending| + |l.state.consumed| <==>
            forall k :: 0 < k <= |calls| ==> !LastOverwrites(p, start, calls[..k])
  {
    ExactCount(p, gate, proposalId, calls);
    RunStaysBalanced(p, gate, proposalId, calls);
    NoHits(Overwriting(p, NewState(p, gate, proposalId).value), calls);
  }

  /** A run on which it fails: the same call twice issues two challenges, and one is pending. */
  lemma IssuedTwice(p: Platform, gate: GateConfig, proposalId: Str, root: Digest, now: u64, ttl: u64, nonce: Digest)
    requires NewState(p, gate, proposalId).Ok?
    requires root != ZERO_DIGEST && 1 <= ttl <= MAX_CHALLENGE_TTL && now + ttl <= U64_MAX
    ensures var call := IssueCall(gate, root, now, ttl, nonce);
            var l := AfterCalls(p, NewState(p, gate, proposalId).value, [call, call]);
            |l.issued| == 2 && |l.state.pending| == 1 && l.state.consumed == []
  {
    var call := IssueCall(gate, root, now, ttl, nonce);
    var start := NewState(p, gate, proposalId).value;
    assert [call][..0] == [] && [call, call][..1] == [call];
    RunStaysBalanced(p, gate, proposalId, []);
    IssueTwiceAdds(p, gate, proposalId, AfterCalls(p, start, []), call);
  }

  lemma IssueTwiceAdds(p: Platform, gate: GateConfig, proposalId: Str, l: Ledger, call: Call)
    requires Bound(p, gate, proposalId, l.state) && Balanced(ByDigest(p.sha), l) && l.state.pending == map[]
    requires call.IssueCall? && call.gate == gate
    requires call.root != ZERO_DIGEST && 1 <= call.ttl <= MAX_CHALLENGE_TTL && call.now + call.ttl <= U64_MAX
    ensures var twice := Advance(p, Advance(p, l, call), call);
            |twice.issued| == |l.issued| + 2 && |twice.state.pending| == 1 && twice.state.consumed == l.state.consumed
  {
    var c := IssuedBy(p, gate, call);
    IssueAdds(p, gate, proposalId, l, call, c);
    CallStaysBalanced(p, gate, proposalId, l, call);
    IssueAgain(p, gate, proposalId, l, Advance(p, l, call), call, c);
  }

  lemma IssueAgain(
      p: Platform, gate: GateConfig, proposalId: Str, l: Ledger, once: Ledger, call: Call, c: Challenge)
    requires Bound(p, gate, proposalId, once.state) && Balanced(ByDigest(p.sha), once)
    requires Issues(p.sha, l, once, c) && l.state.pending == map[] && call.IssueCall? && call.gate == gate
    requires CreateChallenge(p, gate, call.root, gate.context.verifierId, call.now, call.ttl, call.nonce) == Ok(c)
    ensures var twice := Advance(p, once, call);
            |twice.issued| == |l.issued| + 2 && |twice.state.pending| == 1 && twice.state.consumed == l.state.consumed
  {
    OnePending(p.sha, l, once, c);
    IssueAdds(p, gate, proposalId, once, call, c);
    SameAgain(p.sha, l, once, Advance(p, once, call), c);
  }

  lemma OnePending(sha: Hash, l: Ledger, once: Ledger, c: Challenge)
    requires Issues(sha, l, once, c) && l.state.pending == map[]
    ensures |once.state.pending| == 1
  {
    MapGrows(l.state.pending, ToHex(ChallengeDigest(sha, c)), c);
  }

  lemma SameAgain(sha: Hash, l: Ledger, once: Ledger, twice: Ledger, c: Challenge)
    requires Issues(sha, l, once, c) && Issues(sha, once, twice, c)
    ensures |twice.issued| == |l.issued| + 2 && twice.state.pending == once.state.pending
            && twice.state.consumed == l.state.consumed
  {
  }

  lemma IssuedBy(p: Platform, gate: GateConfig, call: Call) returns (c: Challenge)
    requires p.gateValid(gate) && call.IssueCall?
    requires call.root != ZERO_DIGEST && 1 <= call.ttl <= MAX_CHALLENGE_TTL && call.now + call.ttl <= U64_MAX
    ensures CreateChallenge(p, gate, call.root, gate.context.verifierId, call.now, call.ttl, call.nonce) == Ok(c)
  {
    c := CreateChallenge(p, gate, call.root, gate.context.verifierId, call.now, call.ttl, call.nonce).value;
  }

  /** The state after issuing this challenge. */
  ghost predicate Issues(sha: Hash, l: Ledger, next: Ledger, c: Challenge) {
    && |next.issued| == |l.issued| + 1 && next.state.consumed == l.state.consumed
    && next.state.pending == l.state.pending[ToHex(ChallengeDigest(sha, c)) := c]
  }

  lemma IssueAdds(p: Platform, gate: GateConfig, proposalId: Str, l: Ledger, call: Call, c: Challenge)
    requires Bound(p, gate, proposalId, l.state) && Balanced(ByDigest(p.sha), l) && call.IssueCall? && call.gate == gate
    requires |l.state.pending| < MAX_PENDING
    requires CreateChallenge(p, gate, call.root, gate.context.verifierId, call.now, call.ttl, call.nonce) == Ok(c)
    ensures Issues(p.sha, l, Advance(p, l, call), c)
  {
    StillValid(p, gate, proposalId, l);
    IssueMakes(p, l.state, gate, call.root, call.now, call.ttl, call.nonce);
  }

  lemma IssueMakes(p: Platform, st: State, gate: GateConfig, root: Digest, now: u64, ttl: u64, nonce: Digest)
    requires ValidateError(p, st, gate, st.proposalId) == None && |st.pending| < MAX_PENDING
    requires CreateChallenge(p, gate, root, gate.context.verifierId, now, ttl, nonce).Ok?
    ensures var c := CreateChallenge(p, gate, root, gate.context.verifierId, now, ttl, nonce).value;
            Issue(p, st, gate, root, now, ttl, nonce) ==
            Ok((st.(pending := st.pending[ToHex(ChallengeDigest(p.sha, c)) := c]), c))
  {
  }

  /** The votes a call adds are good. */
  ghost predicate AddsGood(p: Platform, good: Ballot -> bool, l: Ledger, call: Call) {
    forall b :: b in Advance(p, l, call).ballots ==> b in l.ballots || good(b)
  }

  lemma {:induction false} AllBallotsGood(p: Platform, good: Ballot -> bool, start: State, calls: seq<Call>)
    requires forall k :: 0 <= k < |calls| ==> AddsGood(p, good, AfterCalls(p, start, calls[..k]), calls[k])
    ensures forall b :: b in AfterCalls(p, start, calls).ballots ==> good(b)
  {
    if calls == [] {
    } else {
      var n := |calls| - 1;
      assert forall k :: 0 <= k < n ==> calls[..n][..k] == calls[..k];
      AllBallotsGood(p, good, start, calls[..n]);
      assert AddsGood(p, good, AfterCalls(p, start, calls[..n]), calls[n]);
    }
  }

  ghost predicate Backed(p: Platform, gate: GateConfig, b: Ballot) {
    exists w, balance :: Backs(p, gate, b.challenge, b.presenter, w, balance)
  }

  /** Every vote of every run is backed at the gate the proposal was created for. */
  lemma EveryVoteBacked(p: Platform, gate: GateConfig, proposalId: Str, calls: seq<Call>)
    requires ReceiptsSound(p) && NewState(p, gate, proposalId).Ok?
    ensures forall b :: b in AfterCalls(p, NewState(p, gate, proposalId).value, calls).ballots ==> Backed(p, gate, b)
  {
    var start := NewState(p, gate, proposalId).value;
    var good := b => Backed(p, gate, b);
    forall k | 0 <= k < |calls| ensures AddsGood(p, good, AfterCalls(p, start, calls[..k]), calls[k]) {
      RunStaysBalanced(p, gate, proposalId, calls[..k]);
      NewVotesBacked(p, gate, proposalId, AfterCalls(p, start, calls[..k]), calls[k], good);
    }
    AllBallotsGood(p, good, start, calls);
  }

  lemma NewVotesBacked(p: Platform, gate: GateConfig, proposalId: Str, l: Ledger, call: Call, good: Ballot -> bool)
    requires ReceiptsSound(p) && Bound(p, gate, proposalId, l.state) && Balanced(ByDigest(p.sha), l)
    requires forall b :: Backed(p, gate, b) ==> good(b)
    ensures AddsGood(p, good, l, call)
  {
    BallotsKept(p, l, call);
    var next := Advance(p, l, call).ballots;
    if |next| > |l.ballots| {
      NewVoteBacked(p, gate, proposalId, l, call, good);
    }
    GrownGood(l.ballots, next, good);
  }

  lemma GrownGood(before: seq<Ballot>, after: seq<Ballot>, good: Ballot -> bool)
    requires before <= after && |after| <= |before| + 1
    requires |after| > |before| ==> good(after[|before|])
    ensures forall b :: b in after ==> b in before || good(b)
  {
  }

  lemma BallotsKept(p: Platform, l: Ledger, call: Call)
    ensures l.ballots <= Advance(p, l, call).ballots && |Advance(p, l, call).ballots| <= |l.ballots| + 1
  {
  }

  lemma NewVoteBacked(p: Platform, gate: GateConfig, proposalId: Str, l: Ledger, call: Call, good: Ballot -> bool)
    requires ReceiptsSound(p) && Bound(p, gate, proposalId, l.state) && Balanced(ByDigest(p.sha), l)
    requires forall b :: Backed(p, gate, b) ==> good(b)
    requires |Advance(p, l, call).ballots| > |l.ballots|
    ensures good(Advance(p, l, call).ballots[|l.ballots|])
  {
    NewBallot(p, l, call);
    var b := Advance(p, l, call).ballots[|l.ballots|];
    var w, balance := VoteBacked(p, gate, proposalId, l, call.gate, call.envelope, call.choice, call.now);
    BackedBy(p, gate, b, w, balance);
  }

  lemma NewBallot(p: Platform, l: Ledger, call: Call)
    requires |Advance(p, l, call).ballots| > |l.ballots|
    ensures call.CastCall? && Cast(p, l.state, call.gate, call.envelope, call.choice, call.now).Ok?
    ensures var b := Advance(p, l, call).ballots[|l.ballots|];
            && b.challenge == call.envelope.challenge
            && b.presenter == Cast(p, l.state, call.gate, call.envelope, call.choice, call.now).value.1.presenter
  {
  }

  lemma BackedBy(p: Platform, gate: GateConfig, b: Ballot, w: Witness, balance: u128)
    requires Backs(p, gate, b.challenge, b.presenter, w, balance)
    ensures Backed(p, gate, b)
  {
  }

  /**
   * Every run of issue and cast calls from a new state, whatever their gates, inputs and outcomes: the state
   * still validates, the pending set is bounded, the used list is strictly sorted, votes and used challenges are
   * equally many. The digests ever issued are exactly those pending and used. The challenges issued are as many as
   * those pending, used and overwritten together; none is overwritten when no two share a digest. The ballots map votes
   * one to one to issued challenges that were live when cast.
   */
  lemma RunSafety(p: Platform, gate: GateConfig, proposalId: Str, calls: seq<Call>)
    requires NewState(p, gate, proposalId).Ok?
    ensures var l := AfterCalls(p, NewState(p, gate, proposalId).value, calls);
            var digest := ByDigest(p.sha);
            && ValidateError(p, l.state, gate, proposalId) == None
            && |l.state.pending| <= 4096
            && Sorted(l.state.consumed) && Elements(l.state.consumed) == HexSet(Used(digest, l.ballots))
            && |l.state.votes| == |l.state.consumed| == |l.ballots|
            && VotesOk(l.state.votes, l.ballots)
            && OneVoteEach(digest, l.ballots)
            && AllTimely(l.ballots, l.issued)
            && HexSet(Names(digest, l.issued)) == l.state.pending.Keys + Elements(l.state.consumed)
            && |l.issued| == |l.state.pending| + |l.state.consumed|
                  + Overwritten(p, NewState(p, gate, proposalId).value, calls)
            && (DistinctNames(digest, l.issued) ==> |l.issued| == |l.state.pending| + |l.state.consumed|)
  {
    var l := AfterCalls(p, NewState(p, gate, proposalId).value, calls);
    RunStaysBalanced(p, gate, proposalId, calls);
    StillValid(p, gate, proposalId, l);
    NamesSplit(ByDigest(p.sha), l);
    ExactCount(p, gate, proposalId, calls);
    if DistinctNames(ByDigest(p.sha), l.issued) {
      Conservation(ByDigest(p.sha), l);
    }
  }
}
