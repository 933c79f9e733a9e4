/** The off-chain verifier: challenges, presentations, the acceptance test and the replay set. */
module Verifier {
  import opened Bytes
  import opened Encoding
  import opened Types
  import opened Merkle
  import opened Circuit

  const MAX_CHALLENGE_TTL: u64 := 300_000
  const MAX_CLOCK_SKEW: u64 := 30_000
  const MAX_PROOF_AGE: u64 := 600_000

  /** A gate file: its context, and everything else the file says. */
  datatype GateConfig = GateConfig(context: GateContext, rest: seq<byte>)

  /** Foreign code: SHA-256, Ed25519, receipt checking and the configuration rules. */
  datatype Platform = Platform(
    sha: Hash,
    keyParses: Digest -> bool,
    signatureOk: (Digest, seq<byte>, seq<byte>) -> bool,
    publicKey: Digest -> Digest,
    sign: (Digest, seq<byte>) -> seq<byte>,
    receiptJournal: seq<byte> -> Option<Journal>,
    gateValid: GateConfig -> bool)

  /** What a signer signs verifies under its own key. */
  ghost predicate SignaturesWork(p: Platform) {
    forall key: Digest, message: seq<byte> ::
      && p.keyParses(p.publicKey(key))
      && |p.sign(key, message)| == 64
      && p.signatureOk(p.publicKey(key), message, p.sign(key, message))
  }

  ghost predicate Provable(sha: Hash, j: Journal) {
    exists w: Witness :: Evaluate(sha, w) == Ok(j)
  }

  /** A receipt checks only for a journal the circuit can return. */
  ghost predicate ReceiptsSound(p: Platform) {
    forall receipt: seq<byte>, j: Journal :: p.receiptJournal(receipt) == Some(j) ==> Provable(p.sha, j)
  }

  datatype VerificationError =
    | InvalidGate | InvalidProof | WrongContext | WrongToken | WrongThreshold | UntrustedCommitmentRoot
    | ExpiredProof | InvalidChallenge | ExpiredChallenge | WrongVerifier | BadPresenter | ReplayedChallenge
    | MalformedEnvelope | InvalidProofTime

  datatype Verified = Verified(contextHash: Digest, root: Digest, presenter: Digest, issuedAt: u64)

  datatype Request = Request(
    envelope: Envelope,
    expected: Challenge,
    gate: GateConfig,
    verifierId: Text,
    now: u64)

  function CreateChallenge(
      p: Platform, gate: GateConfig, root: Digest, verifierId: Text, now: u64, ttl: u64, nonce: Digest)
    : Result<Challenge, VerificationError>
  {
    if !p.gateValid(gate) then Err(InvalidGate)
    else if verifierId != gate.context.verifierId then Err(WrongVerifier)
    else if root == ZERO_DIGEST || ttl == 0 || ttl > MAX_CHALLENGE_TTL then Err(InvalidChallenge)
    else
      match CheckedAdd(now, ttl)
      case None => Err(InvalidChallenge)
      case Some(expiresAt) =>
        Ok(Challenge(CHALLENGE_VERSION, ContextHash(p.sha, gate.context), root, verifierId, nonce, now, expiresAt))
  }

  function PresentationPreimage(sha: Hash, c: Challenge, receipt: seq<byte>): seq<byte> {
    PRESENTATION_TAG + (ChallengeBytes(c) + sha(receipt))
  }

  function PresentationMessage(sha: Hash, c: Challenge, receipt: seq<byte>): Digest {
    sha(PresentationPreimage(sha, c, receipt))
  }

  method WritePresentationMessage(sha: Hash, c: Challenge, receipt: seq<byte>) returns (digest: Digest)
    ensures digest == PresentationMessage(sha, c, receipt)
  {
    var challenge := WriteChallenge(c);
    var message := PRESENTATION_TAG;
    message := message + challenge;
    Associative(PRESENTATION_TAG, challenge, sha(receipt));
    message := message + sha(receipt);
    digest := sha(message);
  }

  function Present(p: Platform, journal: Journal, receipt: seq<byte>, c: Challenge, key: Digest, transport: Transport)
    : Result<Envelope, VerificationError>
  {
    if journal.presenter != p.publicKey(key) then Err(BadPresenter)
    else if journal.root != c.root then Err(UntrustedCommitmentRoot)
    else if journal.contextHash != c.contextHash then Err(WrongContext)
    else Ok(Envelope(journal, receipt, c, p.sign(key, PresentationMessage(p.sha, c, receipt)), transport))
  }

  function ExpiredAt(j: Journal, now: u64): bool {
    j.expiresAt.Some? && now > j.expiresAt.value
  }

  /** Every check before the receipt, in order; None is success. */
  function ClaimsError(p: Platform, r: Request): Option<VerificationError> {
    var e, c, j, g := r.envelope, r.envelope.challenge, r.envelope.journal, r.gate.context;
    var contextHash := ContextHash(p.sha, g);
    if !p.gateValid(r.gate) then Some(InvalidGate)
    else if c != r.expected then Some(InvalidChallenge)
    else if j.version != JOURNAL_VERSION then Some(MalformedEnvelope)
    else if || c.version != CHALLENGE_VERSION || c.issuedAt > c.expiresAt
            || c.expiresAt - c.issuedAt > MAX_CHALLENGE_TTL then
      Some(InvalidChallenge)
    else if r.now > c.expiresAt then Some(ExpiredChallenge)
    else if c.issuedAt > SaturatingAdd(r.now, MAX_CLOCK_SKEW) then Some(InvalidChallenge)
    else if c.verifierId != r.verifierId || c.verifierId != g.verifierId then Some(WrongVerifier)
    else if c.contextHash != contextHash || j.contextHash != contextHash then Some(WrongContext)
    else if j.root != c.root then Some(UntrustedCommitmentRoot)
    else if j.owner != g.owner || j.definitionId != g.definitionId then Some(WrongToken)
    else if j.threshold != g.threshold then Some(WrongThreshold)
    else if j.expiresAt != g.expiresAt then Some(WrongContext)
    else if ExpiredAt(j, r.now) then Some(ExpiredProof)
    else if || j.issuedAt > SaturatingAdd(r.now, MAX_CLOCK_SKEW)
            || SaturatingSub(r.now, j.issuedAt) > MAX_PROOF_AGE
            || SaturatingAdd(j.issuedAt, MAX_PROOF_AGE) < c.issuedAt then Some(InvalidProofTime)
    else if !p.keyParses(j.presenter) then Some(BadPresenter)
    else if |e.signature| != 64 then Some(MalformedEnvelope)
    else if !p.signatureOk(j.presenter, PresentationMessage(p.sha, c, e.receipt), e.signature) then Some(BadPresenter)
    else None
  }

  function Verify(p: Platform, r: Request, consumed: set<Digest>): Result<Verified, VerificationError> {
    match ClaimsError(p, r)
    case Some(error) => Err(error)
    case None =>
      match p.receiptJournal(r.envelope.receipt)
      case None => Err(InvalidProof)
      case Some(j) =>
        if j != r.envelope.journal then Err(InvalidProof)
        else if ChallengeDigest(p.sha, r.envelope.challenge) in consumed then Err(ReplayedChallenge)
        else Ok(Verified(j.contextHash, j.root, j.presenter, j.issuedAt))
  }

  /** The in-memory set of used challenge digests. */
  class ReplayCache {
    var consumed: set<Digest>

    constructor (start: set<Digest>)
      ensures consumed == start
    {
      consumed := start;
    }

    method Consume(digest: Digest) returns (fresh': bool)
      modifies this
      ensures fresh' == (digest !in old(consumed))
      ensures consumed == old(consumed) + {digest}
    {
      fresh' := digest !in consumed;
      consumed := consumed + {digest};
    }

    /** Accepting uses the challenge up; any failure leaves the set alone. */
    method VerifyAndConsume(p: Platform, r: Request) returns (result: Result<Verified, VerificationError>)
      modifies this
      ensures result == Verify(p, r, old(consumed))
      ensures consumed == old(consumed) + if result.Ok? then {ChallengeDigest(p.sha, r.envelope.challenge)} else {}
    {
      var claims := ClaimsError(p, r);
      if claims.Some? {
        return Err(claims.value);
      }
      var journal := p.receiptJournal(r.envelope.receipt);
      if journal == None || journal.value != r.envelope.journal {
        return Err(InvalidProof);
      }
      var isFresh := Consume(ChallengeDigest(p.sha, r.envelope.challenge));
      if !isFresh {
        return Err(ReplayedChallenge);
      }
      var j := journal.value;
      return Ok(Verified(j.contextHash, j.root, j.presenter, j.issuedAt));
    }
  }

  // ----- Freshness -----

  /** The time conditions as plain integer inequalities. */
  predicate Fresh(c: Challenge, j: Journal, now: u64) {
    && c.issuedAt - MAX_CLOCK_SKEW <= now <= c.expiresAt
    && (j.expiresAt.Some? ==> now <= j.expiresAt.value)
    && j.issuedAt - MAX_CLOCK_SKEW <= now <= j.issuedAt + MAX_PROOF_AGE
    && c.issuedAt <= j.issuedAt + MAX_PROOF_AGE
  }

  predicate ChallengeWellFormed(c: Challenge) {
    c.version == CHALLENGE_VERSION && c.issuedAt <= c.expiresAt <= c.issuedAt + MAX_CHALLENGE_TTL
  }

  predicate SpeaksFor(p: Platform, gate: GateConfig, c: Challenge, j: Journal) {
    var g := gate.context;
    && c.verifierId == g.verifierId
    && c.contextHash == j.contextHash == ContextHash(p.sha, g)
    && j.root == c.root
    && j.owner == g.owner && j.definitionId == g.definitionId && j.threshold == g.threshold
    && j.expiresAt == g.expiresAt && j.version == JOURNAL_VERSION
  }

  predicate Signed(p: Platform, e: Envelope) {
    && p.keyParses(e.journal.presenter) && |e.signature| == 64
    && p.signatureOk(e.journal.presenter, PresentationMessage(p.sha, e.challenge, e.receipt), e.signature)
  }

  /** Acceptance, stated without order of checks or saturation: all u64 inputs, both directions. */
  lemma AcceptanceExact(p: Platform, r: Request, consumed: set<Digest>)
    ensures Verify(p, r, consumed).Ok? <==>
            && p.gateValid(r.gate)
            && r.envelope.challenge == r.expected && r.verifierId == r.gate.context.verifierId
            && ChallengeWellFormed(r.expected)
            && SpeaksFor(p, r.gate, r.expected, r.envelope.journal)
            && Fresh(r.expected, r.envelope.journal, r.now)
            && Signed(p, r.envelope)
            && p.receiptJournal(r.envelope.receipt) == Some(r.envelope.journal)
            && ChallengeDigest(p.sha, r.expected) !in consumed
  {
  }

  /**
   * A challenge is created exactly for a valid gate, its own verifier, a real root and a window of at most five minutes
   * that fits u64.
   */
  lemma CreateChallengeExact(
      p: Platform, gate: GateConfig, root: Digest, verifierId: Text, now: u64, ttl: u64, nonce: Digest, c: Challenge)
    ensures CreateChallenge(p, gate, root, verifierId, now, ttl, nonce) == Ok(c) <==>
            && p.gateValid(gate) && verifierId == gate.context.verifierId && root != ZERO_DIGEST
            && ChallengeWellFormed(c) && c.issuedAt == now < c.expiresAt && c.expiresAt - now == ttl
            && c.contextHash == ContextHash(p.sha, gate.context)
            && c.root == root && c.verifierId == verifierId && c.nonce == nonce
  {
  }

  /** One challenge is acceptable only during an interval of 330 seconds, fixed when it is issued. */
  lemma AcceptanceInterval(p: Platform, r: Request, s: Request, a: set<Digest>, b: set<Digest>)
    requires Verify(p, r, a).Ok? && Verify(p, s, b).Ok?
    requires r.expected == s.expected
    ensures r.expected.issuedAt - 30_000 <= r.now <= r.expected.issuedAt + 300_000
    ensures r.now - s.now <= 330_000
  {
    AcceptanceExact(p, r, a);
    AcceptanceExact(p, s, b);
  }

  /** Given the second age test, the last one refuses only when the clock is behind the challenge. */
  lemma ChallengeAgeTestImplied(c: Challenge, j: Journal, now: u64)
    requires now <= j.issuedAt + MAX_PROOF_AGE
    ensures c.issuedAt > SaturatingAdd(j.issuedAt, MAX_PROOF_AGE) ==> now < c.issuedAt
  {
  }

  /** The proof times at which the other two age tests pass and the last one refuses. */
  predicate LastAgeTestRefuses(challengeIssuedAt: u64, now: u64, proofIssuedAt: u64) {
    && proofIssuedAt <= SaturatingAdd(now, MAX_CLOCK_SKEW) && SaturatingSub(now, proofIssuedAt) <= MAX_PROOF_AGE
    && SaturatingAdd(proofIssuedAt, MAX_PROOF_AGE) < challengeIssuedAt
  }

  /**
   * The last test adds something exactly when the clock is behind the challenge and the challenge is older than any
   * proof may be.
   */
  lemma LastAgeTestExact(challengeIssuedAt: u64, now: u64)
    ensures (exists t: u64 :: LastAgeTestRefuses(challengeIssuedAt, now, t)) <==>
            now < challengeIssuedAt && MAX_PROOF_AGE < challengeIssuedAt
  {
    if now < challengeIssuedAt && MAX_PROOF_AGE < challengeIssuedAt {
      assert LastAgeTestRefuses(challengeIssuedAt, now, SaturatingSub(now, MAX_PROOF_AGE));
    }
  }

  /** An honest request for this gate, with these three times. */
  function TimedRequest(
      p: Platform, g: GateConfig, root: Digest, nonce: Digest, presenter: Digest, receipt: seq<byte>,
      signature: seq<byte>,
      challengeIssuedAt: u64, proofIssuedAt: u64, now: u64): Request
    requires challengeIssuedAt + MAX_CHALLENGE_TTL <= U64_MAX
  {
    var hash := ContextHash(p.sha, g.context);
    var c := Challenge(CHALLENGE_VERSION, hash, root, g.context.verifierId, nonce, challengeIssuedAt,
                       challengeIssuedAt + MAX_CHALLENGE_TTL);
    var j := Journal(JOURNAL_VERSION, hash, g.context.owner, g.context.definitionId, g.context.threshold, root,
                     presenter, proofIssuedAt, g.context.expiresAt);
    Request(Envelope(j, receipt, c, signature, Local), c, g, g.context.verifierId, now)
  }

  /**
   * A request that reaches the last test and is refused by it alone: the clock says 600,000, the challenge is issued a
   * millisecond later and the proof at 0. With a proof a millisecond younger the time tests pass.
   */
  lemma ChallengeAgeTestNeeded(
      p: Platform, g: GateConfig, root: Digest, nonce: Digest, presenter: Digest, receipt: seq<byte>,
      signature: seq<byte>,
      consumed: set<Digest>)
    requires p.gateValid(g) && g.context.expiresAt == None
    ensures LastAgeTestRefuses(600_001, 600_000, 0)
    ensures Verify(p, TimedRequest(p, g, root, nonce, presenter, receipt, signature, 600_001, 0, 600_000), consumed)
            == Err(InvalidProofTime)
    ensures Verify(p, TimedRequest(p, g, root, nonce, presenter, receipt, signature, 600_001, 1, 600_000), consumed)
            != Err(InvalidProofTime)
  {
  }

  // ----- What a verdict says -----

  /** The accepted claims: the gate's context, the retained root, and the presenter and time of the proof. */
  predicate Reports(p: Platform, r: Request, v: Verified) {
    && v.contextHash == ContextHash(p.sha, r.gate.context) && v.root == r.expected.root
    && v.presenter == r.envelope.journal.presenter && v.issuedAt == r.envelope.journal.issuedAt
  }

  lemma AcceptedValue(p: Platform, r: Request, consumed: set<Digest>)
    requires Verify(p, r, consumed).Ok?
    ensures Reports(p, r, Verify(p, r, consumed).value)
  {
    AcceptanceExact(p, r, consumed);
  }

  /** What is wrong with a request that is refused for this reason. */
  predicate Explains(p: Platform, r: Request, consumed: set<Digest>, reason: VerificationError) {
    var e, c, j, g := r.envelope, r.envelope.challenge, r.envelope.journal, r.gate.context;
    match reason
    case InvalidGate => !p.gateValid(r.gate)
    case InvalidChallenge => c != r.expected || !ChallengeWellFormed(c) || r.now + MAX_CLOCK_SKEW < c.issuedAt
    case ExpiredChallenge => r.now > c.expiresAt
    case WrongVerifier => c.verifierId != r.verifierId || c.verifierId != g.verifierId
    case WrongContext =>
      || c.contextHash != ContextHash(p.sha, g) || j.contextHash != ContextHash(p.sha, g) || j.expiresAt != g.expiresAt
    case UntrustedCommitmentRoot => j.root != c.root
    case WrongToken => j.owner != g.owner || j.definitionId != g.definitionId
    case WrongThreshold => j.threshold != g.threshold
    case ExpiredProof => j.expiresAt.Some? && r.now > j.expiresAt.value
    case InvalidProofTime =>
      || r.now + MAX_CLOCK_SKEW < j.issuedAt || j.issuedAt + MAX_PROOF_AGE < r.now
      || j.issuedAt + MAX_PROOF_AGE < c.issuedAt
    case BadPresenter =>
      || !p.keyParses(j.presenter) || !p.signatureOk(j.presenter, PresentationMessage(p.sha, c, e.receipt), e.signature)
    case MalformedEnvelope => j.version != JOURNAL_VERSION || |e.signature| != 64
    case InvalidProof => p.receiptJournal(e.receipt) != Some(j)
    case ReplayedChallenge => ChallengeDigest(p.sha, c) in consumed
  }

  /** Every refusal names a check that the request fails. */
  lemma RefusalExplained(p: Platform, r: Request, consumed: set<Digest>)
    requires Verify(p, r, consumed).Err?
    ensures Explains(p, r, consumed, Verify(p, r, consumed).error)
  {
  }

  /** A request that is right in everything but its digest is refused as a replay, and for no other reason. */
  lemma ReplayExactly(p: Platform, r: Request, consumed: set<Digest>)
    ensures Verify(p, r, consumed) == Err(ReplayedChallenge) <==>
            Verify(p, r, {}).Ok? && ChallengeDigest(p.sha, r.expected) in consumed
  {
    if Verify(p, r, consumed) == Err(ReplayedChallenge) {
      assert ClaimsError(p, r) == None;
    }
  }

  /**
   * Presenting succeeds for the journal's own key, root and context, and packs what it was given under a fresh
   * signature.
   */
  lemma PresentExact(
      p: Platform, journal: Journal, receipt: seq<byte>, c: Challenge, key: Digest, transport: Transport, e: Envelope)
    ensures Present(p, journal, receipt, c, key, transport) == Ok(e) <==>
            && journal.presenter == p.publicKey(key) && journal.root == c.root && journal.contextHash == c.contextHash
            && e.journal == journal && e.receipt == receipt && e.challenge == c && e.transport == transport
            && e.signature == p.sign(key, PresentationMessage(p.sha, c, receipt))
  {
  }

  // ----- Binding of the presentation signature -----

  lemma DropTag(tag: seq<byte>, x: seq<byte>, y: seq<byte>)
    requires tag + x == tag + y
    ensures x == y
  {
    assert x == (tag + x)[|tag|..] == (tag + y)[|tag|..] == y;
  }

  lemma PresentationPreimageBinds(sha: Hash, c: Challenge, d: Challenge, receipt: seq<byte>, other: seq<byte>)
    requires PresentationPreimage(sha, c, receipt) == PresentationPreimage(sha, d, other)
    ensures c == d && (receipt == other || Collides(sha, receipt, other))
  {
    DropTag(PRESENTATION_TAG, ChallengeBytes(c) + sha(receipt), ChallengeBytes(d) + sha(other));
    ChallengePrefixFree(c, d, sha(receipt), sha(other));
  }

  /** One signed message stands for one challenge and one receipt, or one of two named pairs collides. */
  lemma PresentationBinds(sha: Hash, c: Challenge, d: Challenge, receipt: seq<byte>, other: seq<byte>)
    requires PresentationMessage(sha, c, receipt) == PresentationMessage(sha, d, other)
    ensures || (c == d && receipt == other)
            || Collides(sha, PresentationPreimage(sha, c, receipt), PresentationPreimage(sha, d, other))
            || Collides(sha, receipt, other)
  {
    if PresentationPreimage(sha, c, receipt) == PresentationPreimage(sha, d, other) {
      PresentationPreimageBinds(sha, c, d, receipt, other);
    }
  }

  // ----- Soundness -----

  /**
   * What acceptance means. The verdict reports the gate's context, the retained root, and the presenter and time
   * of a proof. A hidden account is behind the receipt: its tokens are the gate's, its balance
   * reaches the gate's threshold, and it is committed under the root in the verifier's own challenge. The
   * proof was made for this gate, or the two contexts' bytes collide. In every tree with that root the
   * commitment is the leaf its index names, or the clash found on the way down is a collision.
   */
  lemma AcceptanceSound(p: Platform, r: Request, consumed: set<Digest>) returns (w: Witness, balance: u128)
    requires ReceiptsSound(p)
    requires Verify(p, r, consumed).Ok?
    ensures Evaluate(p.sha, w) == Ok(r.envelope.journal)
    ensures var v := Verify(p, r, consumed).value;
            Reports(p, r, v) && v.presenter == w.presenter && v.issuedAt == w.issuedAt
    ensures w.context.owner == r.gate.context.owner && w.context.definitionId == r.gate.context.definitionId
    ensures w.root == r.expected.root && Holds(p.sha, w, balance) && balance >= r.gate.context.threshold > 0
    ensures ContextHash(p.sha, w.context) == ContextHash(p.sha, r.gate.context)
    ensures w.context == r.gate.context || Collides(p.sha, ContextBytes(w.context), ContextBytes(r.gate.context))
    ensures w.presenter == r.envelope.journal.presenter
         && p.signatureOk(w.presenter, PresentationMessage(p.sha, r.expected, r.envelope.receipt), r.envelope.signature)
    ensures forall t: Tree :: Root(p.sha, t) == r.expected.root ==>
              match Clash(p.sha, t, Commitment(p.sha, w.account), w.index, w.siblings)
              case None => Descend(t, w.index, |w.siblings|) == Some(Leaf(Commitment(p.sha, w.account)))
              case Some((a, b)) => Collides(p.sha, a, b)
  {
    AcceptanceExact(p, r, consumed);
    AcceptedValue(p, r, consumed);
    assert Provable(p.sha, r.envelope.journal);
    w :| Evaluate(p.sha, w) == Ok(r.envelope.journal);
    EvaluateExact(p.sha, w, r.envelope.journal);
    balance :| balance >= w.context.threshold > 0 && Holds(p.sha, w, balance);
    ContextHashBinds(p.sha, w.context, r.gate.context);
    forall t: Tree | Root(p.sha, t) == r.expected.root
      ensures match Clash(p.sha, t, Commitment(p.sha, w.account), w.index, w.siblings)
              case None => Descend(t, w.index, |w.siblings|) == Some(Leaf(Commitment(p.sha, w.account)))
              case Some((a, b)) => Collides(p.sha, a, b)
    {
      MembershipSound(p.sha, t, Commitment(p.sha, w.account), w.index, w.siblings);
    }
  }

  // ----- Completeness -----

  /**
   * An honest run: the gate's challenge, a receipt for a journal the circuit returned for this gate, a
   * presentation by its key. It is accepted exactly while the clock is in the windows and the digest is
   * unused, and once accepted the same request is refused as a replay.
   */
  lemma HonestPresentationAccepted(
      p: Platform, gate: GateConfig, root: Digest, now0: u64, ttl: u64, nonce: Digest, c: Challenge,
      w: Witness, receipt: seq<byte>, key: Digest, transport: Transport, e: Envelope, now: u64, consumed: set<Digest>)
    requires SignaturesWork(p)
    requires CreateChallenge(p, gate, root, gate.context.verifierId, now0, ttl, nonce) == Ok(c)
    requires w.context == gate.context && Evaluate(p.sha, w).Ok?
    requires p.receiptJournal(receipt) == Some(Evaluate(p.sha, w).value)
    requires Present(p, Evaluate(p.sha, w).value, receipt, c, key, transport) == Ok(e)
    ensures var r := Request(e, c, gate, gate.context.verifierId, now);
            var digest := ChallengeDigest(p.sha, c);
            && (Verify(p, r, consumed).Ok? <==> Fresh(c, e.journal, now) && digest !in consumed)
            && (Verify(p, r, consumed).Ok? ==> Verify(p, r, consumed + {digest}) == Err(ReplayedChallenge))
  {
    var r := Request(e, c, gate, gate.context.verifierId, now);
    EvaluateExact(p.sha, w, e.journal);
    assert SpeaksFor(p, gate, c, e.journal) && ChallengeWellFormed(c);
    assert Signed(p, e);
    AcceptanceExact(p, r, consumed);
  }
}
