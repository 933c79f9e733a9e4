/** Token-gated voting: issued challenges, used challenges and votes of one proposal. */
module Governance {
  import opened Bytes
  import opened Types
  import opened Hex
  import opened Verifier

  const STATE_VERSION: u16 := 1
  const MAX_PENDING: nat := 4096

  datatype Choice = Yes | No | Abstain

  datatype VoteRecord = VoteRecord(choice: Choice, castAt: u64)

  datatype State = State(
    version: u16,
    proposalId: Str,
    contextHash: Str,
    pending: map<Str, Challenge>,
    consumed: seq<Str>,
    votes: map<Str, VoteRecord>)

  datatype CastOutcome = CastOutcome(presenter: Digest, choice: Choice, total: nat)

  datatype GovernanceError =
    | InvalidGate | InvalidProposalId | WrongProposalBinding | UnsupportedStateVersion | StateMismatch
    | TooManyPendingChallenges | UnknownChallenge | DuplicateVote | MalformedStateDigest
    | Denied(reason: VerificationError)

  predicate Graphic(s: Str) {
    forall i :: 0 <= i < |s| ==> 33 <= s[i] <= 126
  }

  function BindingError(p: Platform, gate: GateConfig, proposalId: Str): Option<GovernanceError> {
    if !p.gateValid(gate) then Some(GovernanceError.InvalidGate)
    else if |proposalId| == 0 || |proposalId| > 128 || !Graphic(proposalId) then Some(InvalidProposalId)
    else if || gate.context.applicationId != Ascii("proofgate-governance")
            || gate.context.gateId != Ascii("proposal:") + proposalId
            || gate.context.verifierId != Ascii("proofgate-governance:") + proposalId then Some(WrongProposalBinding)
    else None
  }

  function NewState(p: Platform, gate: GateConfig, proposalId: Str): Result<State, GovernanceError> {
    match BindingError(p, gate, proposalId)
    case Some(e) => Err(e)
    case None => Ok(State(STATE_VERSION, proposalId, ToHex(ContextHash(p.sha, gate.context)), map[], [], map[]))
  }

  /** Entries are checked in key order; the first bad one decides the error. */
  function FirstBad(bad: (Str, Challenge) -> Option<GovernanceError>, entries: map<Str, Challenge>, keys: seq<Str>)
    : Option<GovernanceError>
    requires forall k :: k in keys ==> k in entries
  {
    if keys == [] then None
    else
      var n := |keys| - 1;
      match FirstBad(bad, entries, keys[..n])
      case Some(e) => Some(e)
      case None => bad(keys[n], entries[keys[n]])
  }

  function EntryError(sha: Hash, key: Str, c: Challenge): Option<GovernanceError> {
    match ParseDigest(key)
    case None => Some(MalformedStateDigest)
    case Some(d) => if d != ChallengeDigest(sha, c) then Some(StateMismatch) else None
  }

  ghost function ValidateError(p: Platform, st: State, gate: GateConfig, proposalId: Str): Option<GovernanceError> {
    if st.version != STATE_VERSION then Some(UnsupportedStateVersion)
    else if BindingError(p, gate, proposalId).Some? then BindingError(p, gate, proposalId)
    else if st.proposalId != proposalId || st.contextHash != ToHex(ContextHash(p.sha, gate.context)) then
      Some(StateMismatch)
    else if ReadAll(ParseDigest, st.consumed) == None then Some(MalformedStateDigest)
    else if PendingErrorOf(p.sha, st.pending).Some? then PendingErrorOf(p.sha, st.pending)
    else if ReadAll(ParseDigest, Listing(st.votes.Keys)) == None then Some(MalformedStateDigest)
    else None
  }

  ghost function PendingErrorOf(sha: Hash, pending: map<Str, Challenge>): Option<GovernanceError> {
    assert forall k :: k in Listing(pending.Keys) ==> k in Elements(Listing(pending.Keys));
    FirstBad((key, c) => EntryError(sha, key, c), pending, Listing(pending.Keys))
  }

  ghost function Issue(p: Platform, st: State, gate: GateConfig, root: Digest, now: u64, ttl: u64, nonce: Digest)
    : Result<(State, Challenge), GovernanceError>
  {
    match ValidateError(p, st, gate, st.proposalId)
    case Some(e) => Err(e)
    case None =>
      if |st.pending| >= MAX_PENDING then Err(TooManyPendingChallenges)
      else
        match CreateChallenge(p, gate, root, gate.context.verifierId, now, ttl, nonce)
        case Err(e) => Err(Denied(e))
        case Ok(c) => Ok((st.(pending := st.pending[ToHex(ChallengeDigest(p.sha, c)) := c]), c))
  }

  /**
   * Everything a cast checks before it changes the state: the verified claims and all digests then used, or why
   * not.
   */
  ghost function Admission(p: Platform, st: State, gate: GateConfig, e: Envelope, now: u64)
    : Result<(Verified, set<Digest>), GovernanceError>
  {
    match ValidateError(p, st, gate, st.proposalId)
    case Some(error) => Err(error)
    case None =>
      var key := ToHex(ChallengeDigest(p.sha, e.challenge));
      if key !in st.pending then Err(UnknownChallenge)
      else if ToHex(e.journal.presenter) in st.votes then Err(DuplicateVote)
      else
        match ReadAll(ParseDigest, st.consumed)
        case None => Err(MalformedStateDigest)
        case Some(digests) =>
          var used := set d | d in digests;
          match Verify(p, Request(e, st.pending[key], gate, gate.context.verifierId, now), used)
          case Err(error) => Err(Denied(error))
          case Ok(verified) => Ok((verified, used + {ChallengeDigest(p.sha, e.challenge)}))
  }

  /** The vote is recorded, its challenge leaves the pending set and joins the used ones. */
  ghost function Record(
      st: State, digest: Digest, presenter: Digest, used: set<Digest>, choice: Choice, now: u64): State
  {
    st.(pending := st.pending - {ToHex(digest)},
        consumed := Listing(HexSet(used)),
        votes := st.votes[ToHex(presenter) := VoteRecord(choice, now)])
  }

  ghost function Cast(p: Platform, st: State, gate: GateConfig, e: Envelope, choice: Choice, now: u64)
    : Result<(State, CastOutcome), GovernanceError>
  {
    match Admission(p, st, gate, e, now)
    case Err(error) => Err(error)
    case Ok((verified, used)) =>
      var next := Record(st, ChallengeDigest(p.sha, e.challenge), verified.presenter, used, choice, now);
      Ok((next, CastOutcome(verified.presenter, choice, |next.votes|)))
  }

  // ----- Which gates carry a proposal -----

  /** The gate's three identifiers are this proposal's. */
  predicate NamesProposal(gate: GateConfig, proposalId: Str) {
    && gate.context.applicationId == Ascii("proofgate-governance")
    && gate.context.gateId == Ascii("proposal:") + proposalId
    && gate.context.verifierId == Ascii("proofgate-governance:") + proposalId
  }

  /** One to 128 characters, all visible ASCII. */
  predicate ProposalIdOk(id: Str) {
    1 <= |id| <= 128 && forall i :: 0 <= i < |id| ==> '!' as int <= id[i] <= '~' as int
  }

  predicate Founds(p: Platform, gate: GateConfig, proposalId: Str) {
    p.gateValid(gate) && ProposalIdOk(proposalId) && NamesProposal(gate, proposalId)
  }

  lemma BindingExact(p: Platform, gate: GateConfig, proposalId: Str)
    ensures BindingError(p, gate, proposalId) == None <==> Founds(p, gate, proposalId)
    ensures BindingError(p, gate, proposalId) == Some(WrongProposalBinding) <==>
            p.gateValid(gate) && ProposalIdOk(proposalId) && !NamesProposal(gate, proposalId)
    ensures BindingError(p, gate, proposalId) == Some(InvalidProposalId) <==>
            p.gateValid(gate) && !ProposalIdOk(proposalId)
    ensures BindingError(p, gate, proposalId) == Some(GovernanceError.InvalidGate) <==> !p.gateValid(gate)
  {
  }

  /** A state is created exactly by a valid gate for the proposal it names, and begins empty. */
  lemma NewStateExact(p: Platform, gate: GateConfig, proposalId: Str, st: State)
    ensures NewState(p, gate, proposalId) == Ok(st) <==>
            && Founds(p, gate, proposalId)
            && st == State(1, proposalId, ToHex(ContextHash(p.sha, gate.context)), map[], [], map[])
  {
    BindingExact(p, gate, proposalId);
  }

  /** A gate founds one proposal only. */
  lemma GateFoundsOne(p: Platform, gate: GateConfig, a: Str, b: Str)
    requires NewState(p, gate, a).Ok? && NewState(p, gate, b).Ok?
    ensures a == b
  {
    BindingExact(p, gate, a);
    BindingExact(p, gate, b);
    DropTag(Ascii("proposal:"), a, b);
  }

  // ----- Which states are valid -----

  lemma {:induction false} FirstBadExact(
      bad: (Str, Challenge) -> Option<GovernanceError>, entries: map<Str, Challenge>, keys: seq<Str>)
    requires forall k :: k in keys ==> k in entries
    ensures FirstBad(bad, entries, keys) == None <==> forall k :: k in keys ==> bad(k, entries[k]) == None
    ensures FirstBad(bad, entries, keys).Some? ==>
            exists k :: k in keys && bad(k, entries[k]) == FirstBad(bad, entries, keys)
  {
    if keys == [] {
    } else {
      var n := |keys| - 1;
      FirstBadExact(bad, entries, keys[..n]);
      assert forall k :: k in keys <==> k in keys[..n] || k == keys[n];
    }
  }

  /** An entry is refused exactly when its key is not the text of its challenge's digest. */
  lemma EntryErrorExact(sha: Hash, key: Str, c: Challenge)
    ensures EntryError(sha, key, c) == None <==> ParseDigest(key) == Some(ChallengeDigest(sha, c))
    ensures EntryError(sha, key, c) == Some(MalformedStateDigest) <==> ParseDigest(key) == None
    ensures EntryError(sha, key, c).Some? ==> EntryError(sha, key, c).value in {MalformedStateDigest, StateMismatch}
  {
  }

  lemma PendingErrorIsFirst(sha: Hash, pending: map<Str, Challenge>)
    ensures PendingErrorOf(sha, pending) == None <==>
            forall k :: k in pending ==> EntryError(sha, k, pending[k]) == None
    ensures PendingErrorOf(sha, pending).Some? ==>
            exists k :: k in pending && EntryError(sha, k, pending[k]) == PendingErrorOf(sha, pending)
  {
    var keys := Listing(pending.Keys);
    assert forall k :: k in keys <==> k in Elements(keys);
    FirstBadExact((key, c) => EntryError(sha, key, c), pending, keys);
  }

  lemma PendingErrorExact(sha: Hash, pending: map<Str, Challenge>)
    ensures PendingErrorOf(sha, pending) == None <==>
            forall k :: k in pending ==> ParseDigest(k) == Some(ChallengeDigest(sha, pending[k]))
    ensures PendingErrorOf(sha, pending) == Some(MalformedStateDigest) ==>
            exists k :: k in pending && ParseDigest(k) == None
    ensures PendingErrorOf(sha, pending).Some? ==>
            PendingErrorOf(sha, pending).value in {MalformedStateDigest, StateMismatch}
  {
    PendingErrorIsFirst(sha, pending);
    forall k | k in pending
      ensures EntryError(sha, k, pending[k]) == None <==> ParseDigest(k) == Some(ChallengeDigest(sha, pending[k]))
      ensures EntryError(sha, k, pending[k]) == Some(MalformedStateDigest) <==> ParseDigest(k) == None
      ensures EntryError(sha, k, pending[k]).Some? ==>
              EntryError(sha, k, pending[k]).value in {MalformedStateDigest, StateMismatch}
    {
      EntryErrorExact(sha, k, pending[k]);
    }
  }

  /**
   * A state is valid for a gate and proposal exactly when it is theirs, and all its texts are digests of what they
   * stand for.
   */
  lemma ValidateExact(p: Platform, st: State, gate: GateConfig, proposalId: Str)
    ensures ValidateError(p, st, gate, proposalId) == None <==>
            && st.version == 1 && Founds(p, gate, proposalId)
            && st.proposalId == proposalId && st.contextHash == ToHex(ContextHash(p.sha, gate.context))
            && (forall used :: used in st.consumed ==> ParseDigest(used).Some?)
            && (forall key :: key in st.pending ==> ParseDigest(key) == Some(ChallengeDigest(p.sha, st.pending[key])))
            && (forall voter :: voter in st.votes ==> ParseDigest(voter).Some?)
  {
    BindingExact(p, gate, proposalId);
    PendingErrorExact(p.sha, st.pending);
    ReadAllExact(ParseDigest, st.consumed);
    var voters := Listing(st.votes.Keys);
    assert forall voter :: voter in voters <==> voter in Elements(voters);
    ReadAllExact(ParseDigest, voters);
  }

  /** What is wrong with a state, gate or proposal that is refused for this reason. */
  ghost predicate Invalidates(p: Platform, st: State, gate: GateConfig, proposalId: Str, reason: GovernanceError) {
    match reason
    case InvalidGate => !p.gateValid(gate)
    case InvalidProposalId => !ProposalIdOk(proposalId)
    case WrongProposalBinding => !NamesProposal(gate, proposalId)
    case UnsupportedStateVersion => st.version != 1
    case StateMismatch =>
      || st.proposalId != proposalId || st.contextHash != ToHex(ContextHash(p.sha, gate.context))
      || exists k :: k in st.pending && ParseDigest(k) != Some(ChallengeDigest(p.sha, st.pending[k]))
    case MalformedStateDigest =>
      || (exists used :: used in st.consumed && ParseDigest(used) == None)
      || (exists key :: key in st.pending && ParseDigest(key) == None)
      || (exists voter :: voter in st.votes && ParseDigest(voter) == None)
    case _ => false
  }

  lemma ValidateExplained(p: Platform, st: State, gate: GateConfig, proposalId: Str)
    requires ValidateError(p, st, gate, proposalId).Some?
    ensures Invalidates(p, st, gate, proposalId, ValidateError(p, st, gate, proposalId).value)
  {
    BindingExact(p, gate, proposalId);
    PendingErrorExact(p.sha, st.pending);
    ReadAllExact(ParseDigest, st.consumed);
    var voters := Listing(st.votes.Keys);
    assert forall voter :: voter in voters <==> voter in Elements(voters);
    ReadAllExact(ParseDigest, voters);
  }

  /** Every refused cast names a check that it fails. */
  lemma CastExplained(p: Platform, st: State, gate: GateConfig, e: Envelope, choice: Choice, now: u64)
    requires Cast(p, st, gate, e, choice, now).Err?
    ensures var key := ToHex(ChallengeDigest(p.sha, e.challenge));
            match Cast(p, st, gate, e, choice, now).error
            case UnknownChallenge => key !in st.pending
            case DuplicateVote => ToHex(e.journal.presenter) in st.votes
            case Denied(reason) =>
              && key in st.pending
              && Explains(p, Request(e, st.pending[key], gate, gate.context.verifierId, now),
                          Readable(ParseDigest, st.consumed), reason)
            case reason => Invalidates(p, st, gate, st.proposalId, reason)
  {
    var invalid := ValidateError(p, st, gate, st.proposalId);
    if invalid.Some? {
      ValidateExplained(p, st, gate, st.proposalId);
    } else {
      var key := ToHex(ChallengeDigest(p.sha, e.challenge));
      ValidateExact(p, st, gate, st.proposalId);
      ReadAllExact(ParseDigest, st.consumed);
      if key in st.pending && ToHex(e.journal.presenter) !in st.votes {
        var r := Request(e, st.pending[key], gate, gate.context.verifierId, now);
        DeniedExplained(p, r, Readable(ParseDigest, st.consumed));
      }
    }
  }

  lemma DeniedExplained(p: Platform, r: Request, used: set<Digest>)
    ensures Verify(p, r, used).Err? ==> Explains(p, r, used, Verify(p, r, used).error)
  {
    if Verify(p, r, used).Err? { RefusalExplained(p, r, used); }
  }

  lemma {:induction false} ReadAllStops(read: Str -> Option<Digest>, list: seq<Str>, k: nat)
    requires k < |list| && read(list[k]) == None
    ensures ReadAll(read, list) == None
  {
    var n := |list| - 1;
    if k == n {
    } else {
      ReadAllStops(read, list[..n], k);
    }
  }

  lemma {:induction false} FirstBadStops(
      bad: (Str, Challenge) -> Option<GovernanceError>, entries: map<Str, Challenge>, keys: seq<Str>, k: nat)
    requires k <= |keys| && forall x :: x in keys ==> x in entries
    requires FirstBad(bad, entries, keys[..k]).Some?
    ensures FirstBad(bad, entries, keys) == FirstBad(bad, entries, keys[..k])
  {
    var n := |keys| - 1;
    if k == |keys| {
      assert keys[..k] == keys;
    } else {
      assert keys[..n][..k] == keys[..k];
      FirstBadStops(bad, entries, keys[..n], k);
    }
  }

  /** Parses every entry of a list, in order. */
  method ParseEach(list: seq<Str>) returns (digests: Option<seq<Digest>>)
    ensures digests == ReadAll(ParseDigest, list)
  {
    var done: seq<Digest> := [];
    for i := 0 to |list|
      invariant ReadAll(ParseDigest, list[..i]) == Some(done)
    {
      var d := ParseDigest(list[i]);
      if d == None {
        ReadAllStops(ParseDigest, list, i);
        return None;
      }
      assert list[..i + 1][..i] == list[..i];
      done := done + [d.value];
    }
    assert list[..|list|] == list;
    return Some(done);
  }

  method CheckEntries(bad: (Str, Challenge) -> Option<GovernanceError>, entries: map<Str, Challenge>, keys: seq<Str>)
      returns (e: Option<GovernanceError>)
    requires forall k :: k in keys ==> k in entries
    ensures e == FirstBad(bad, entries, keys)
  {
    for i := 0 to |keys|
      invariant FirstBad(bad, entries, keys[..i]) == None
    {
      assert keys[..i + 1][..i] == keys[..i];
      e := bad(keys[i], entries[keys[i]]);
      if e.Some? {
        FirstBadStops(bad, entries, keys, i + 1);
        return e;
      }
    }
    assert keys[..|keys|] == keys;
    return None;
  }

  method CheckPending(sha: Hash, pending: map<Str, Challenge>) returns (e: Option<GovernanceError>)
    ensures e == PendingErrorOf(sha, pending)
  {
    var keys := Sort(pending.Keys);
    assert forall k :: k in keys ==> k in Elements(keys);
    e := CheckEntries((key, c) => EntryError(sha, key, c), pending, keys);
  }

  /** The state as the service updates it. */
  class GovernanceState {
    var version: u16
    var proposalId: Str
    var contextHash: Str
    var pending: map<Str, Challenge>
    var consumed: seq<Str>
    var votes: map<Str, VoteRecord>

    ghost function View(): State
      reads this
    {
      State(version, proposalId, contextHash, pending, consumed, votes)
    }

    constructor (st: State)
      ensures View() == st
    {
      version, proposalId, contextHash := st.version, st.proposalId, st.contextHash;
      pending, consumed, votes := st.pending, st.consumed, st.votes;
    }

    method Validate(p: Platform, gate: GateConfig, id: Str) returns (e: Option<GovernanceError>)
      ensures e == ValidateError(p, View(), gate, id)
    {
      if version != STATE_VERSION {
        return Some(UnsupportedStateVersion);
      }
      e := BindingError(p, gate, id);
      if e.Some? {
        return e;
      }
      var expected := DigestToHex(ContextHash(p.sha, gate.context));
      if proposalId != id || contextHash != expected {
        return Some(StateMismatch);
      }
      var digests := ParseEach(consumed);
      if digests == None {
        return Some(MalformedStateDigest);
      }
      e := CheckPending(p.sha, pending);
      if e.Some? {
        return e;
      }
      var voters := Sort(votes.Keys);
      digests := ParseEach(voters);
      if digests == None {
        return Some(MalformedStateDigest);
      }
      return None;
    }

    /** Success adds one pending challenge; failure changes nothing. */
    method IssueChallenge(p: Platform, gate: GateConfig, root: Digest, now: u64, ttl: u64, nonce: Digest)
        returns (r: Result<Challenge, GovernanceError>)
      modifies this
      ensures match Issue(p, old(View()), gate, root, now, ttl, nonce)
              case Ok((next, c)) => r == Ok(c) && View() == next
              case Err(e) => r == Err(e) && View() == old(View())
    {
      var e := Validate(p, gate, proposalId);
      if e.Some? {
        return Err(e.value);
      }
      if |pending| >= MAX_PENDING {
        return Err(TooManyPendingChallenges);
      }
      var made := CreateChallenge(p, gate, root, gate.context.verifierId, now, ttl, nonce);
      if made.Err? {
        return Err(Denied(made.error));
      }
      var key := DigestToHex(ChallengeDigest(p.sha, made.value));
      pending := pending[key := made.value];
      return Ok(made.value);
    }

    method Admit(p: Platform, gate: GateConfig, envelope: Envelope, now: u64)
        returns (r: Result<(Verified, set<Digest>), GovernanceError>)
      ensures r == Admission(p, View(), gate, envelope, now)
    {
      var e := Validate(p, gate, proposalId);
      if e.Some? {
        return Err(e.value);
      }
      var key := DigestToHex(ChallengeDigest(p.sha, envelope.challenge));
      if key !in pending {
        return Err(UnknownChallenge);
      }
      var presenterKey := DigestToHex(envelope.journal.presenter);
      if presenterKey in votes {
        return Err(DuplicateVote);
      }
      var digests := ParseEach(consumed);
      if digests == None {
        return Err(MalformedStateDigest);
      }
      var cache := new ReplayCache(set d | d in digests.value);
      var verified := cache.VerifyAndConsume(p, Request(envelope, pending[key], gate, gate.context.verifierId, now));
      if verified.Err? {
        return Err(Denied(verified.error));
      }
      return Ok((verified.value, cache.consumed));
    }

    /** Success moves one challenge from pending to consumed and records one vote; failure changes nothing. */
    method CastVote(p: Platform, gate: GateConfig, envelope: Envelope, choice: Choice, now: u64)
        returns (r: Result<CastOutcome, GovernanceError>)
      modifies this
      ensures match Cast(p, old(View()), gate, envelope, choice, now)
              case Ok((next, out)) => r == Ok(out) && View() == next
              case Err(e) => r == Err(e) && View() == old(View())
    {
      var admitted := Admit(p, gate, envelope, now);
      if admitted.Err? {
        return Err(admitted.error);
      }
      var (verified, used) := admitted.value;
      Store(ChallengeDigest(p.sha, envelope.challenge), verified.presenter, used, choice, now);
      return Ok(CastOutcome(verified.presenter, choice, |votes|));
    }

    method Store(digest: Digest, presenter: Digest, used: set<Digest>, choice: Choice, now: u64)
      modifies this
      ensures View() == Record(old(View()), digest, presenter, used, choice, now)
    {
      var key := DigestToHex(digest);
      pending := pending - {key};
      consumed := Sort(HexSet(used));
      var voter := DigestToHex(presenter);
      votes := votes[voter := VoteRecord(choice, now)];
    }
  }
}
