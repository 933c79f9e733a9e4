/** The gate program: its account state, the claim transition and the validity window it emits. */
module OnChainGate {
  import opened Bytes
  import opened Encoding
  import opened Types
  import opened Circuit
  import opened Verifier

  const GATE_STATE_VERSION: u16 := 3
  const ACCESS_BADGE_VERSION: u16 := 1
  const ON_CHAIN_CHALLENGE_VERSION: u16 := 1
  const MIN_PROOF_AGE: u64 := 60_000
  const MAX_ON_CHAIN_PROOF_AGE: u64 := 86_400_000
  const ON_CHAIN_CLOCK_SKEW: u64 := 30_000

  /** The program that proves balances, by its eight words. */
  const IMAGE_ID: Owner :=
    [3_279_310_716, 722_719_609, 391_791_259, 2_458_932_001, 4_000_613_703, 1_196_648_380, 1_925_272_195, 3_985_399_395]

  datatype GateState = GateState(
    version: u16,
    contextHash: Digest,
    owner: Owner,
    definitionId: Digest,
    threshold: u128,
    root: Digest,
    expiresAt: Option<u64>,
    maxProofAge: u64,
    nonce: Digest,
    counter: u64)

  datatype OnChainChallenge = OnChainChallenge(
    version: u16,
    programId: Owner,
    account: Digest,
    contextHash: Digest,
    nonce: Digest,
    counter: u64)

  datatype Claim = Claim(journal: Journal, signature: seq<byte>)

  datatype Badge = Badge(version: u16, contextHash: Digest, presenter: Digest, number: u64, proofIssuedAt: u64)

  datatype ClaimError =
    | InvalidGateState | MalformedClaim | InvalidJournal | WrongClaimContext | WrongClaimToken | WrongClaimThreshold
    | UntrustedRoot | BadClaimPresenter | CounterOverflow

  predicate Valid(st: GateState) {
    && st.version == GATE_STATE_VERSION && st.threshold != 0
    && st.root != ZERO_DIGEST && st.nonce != ZERO_DIGEST
    && MIN_PROOF_AGE <= st.maxProofAge <= MAX_ON_CHAIN_PROOF_AGE
  }

  function ChallengeFor(st: GateState, programId: Owner, account: Digest): OnChainChallenge {
    OnChainChallenge(ON_CHAIN_CHALLENGE_VERSION, programId, account, st.contextHash, st.nonce, st.counter)
  }

  function OnChainTokens(c: OnChainChallenge): seq<Token> {
    [Fixed(ON_CHAIN_CHALLENGE_TAG), Fixed(LittleEndian(c.version, 2)), Fixed(Words(c.programId)), Fixed(c.account),
     Fixed(c.contextHash), Fixed(c.nonce), Fixed(LittleEndian(c.counter, 8))]
  }

  function OnChainBytes(c: OnChainChallenge): seq<byte> {
    Emit(OnChainTokens(c))
  }

  method WriteOnChainChallenge(c: OnChainChallenge) returns (bytes: seq<byte>)
    ensures bytes == OnChainBytes(c)
  {
    var buffer := new Buffer();
    ghost var goal := OnChainTokens(c);
    buffer.Extend(ON_CHAIN_CHALLENGE_TAG);
    buffer.Extend(LittleEndian(c.version, 2));
    assert buffer.tokens == goal[..2];
    buffer.WriteWords(c.programId);
    buffer.Extend(c.account);
    assert buffer.tokens == goal[..4];
    buffer.Extend(c.contextHash);
    buffer.Extend(c.nonce);
    assert buffer.tokens == goal[..6];
    buffer.Extend(LittleEndian(c.counter, 8));
    assert buffer.tokens == goal;
    bytes := buffer.bytes;
  }

  /** What a presenter signs on chain: the gate's current challenge, the proving program and the journal. */
  function ClaimPreimage(c: OnChainChallenge, j: Journal): seq<byte> {
    ON_CHAIN_PRESENTATION_TAG + (OnChainBytes(c) + (Words(IMAGE_ID) + JournalBytes(j)))
  }

  function ClaimMessage(sha: Hash, c: OnChainChallenge, j: Journal): Digest {
    sha(ClaimPreimage(c, j))
  }

  method WriteClaimMessage(sha: Hash, c: OnChainChallenge, j: Journal) returns (digest: Digest)
    ensures digest == ClaimMessage(sha, c, j)
  {
    var challenge := WriteOnChainChallenge(c);
    var journal := WriteJournal(j);
    var message := ON_CHAIN_PRESENTATION_TAG;
    Associative(message, challenge, Words(IMAGE_ID) + journal);
    Associative(message + challenge, Words(IMAGE_ID), journal);
    message := message + challenge;
    message := AppendWords(message, IMAGE_ID);
    message := message + journal;
    digest := sha(message);
  }

  function RotationPreimage(nonce: Digest, signature: seq<byte>): seq<byte> {
    ON_CHAIN_NONCE_TAG + nonce + signature
  }

  function RotatedNonce(sha: Hash, nonce: Digest, signature: seq<byte>): Digest {
    sha(RotationPreimage(nonce, signature))
  }

  function EvaluateClaim(p: Platform, st: GateState, programId: Owner, account: Digest, claim: Claim)
    : Result<(GateState, Badge), ClaimError>
  {
    EvaluateSigned(p, st, claim, ClaimMessage(p.sha, ChallengeFor(st, programId, account), claim.journal))
  }

  /** The checks and the transition, for the message the presenter must have signed. */
  function EvaluateSigned(p: Platform, st: GateState, claim: Claim, message: Digest)
    : Result<(GateState, Badge), ClaimError>
  {
    var j := claim.journal;
    if !Valid(st) then Err(InvalidGateState)
    else if j.version != JOURNAL_VERSION then Err(InvalidJournal)
    else if j.contextHash != st.contextHash || j.expiresAt != st.expiresAt then Err(WrongClaimContext)
    else if j.owner != st.owner || j.definitionId != st.definitionId then Err(WrongClaimToken)
    else if j.threshold != st.threshold then Err(WrongClaimThreshold)
    else if j.root != st.root then Err(UntrustedRoot)
    else if !p.keyParses(j.presenter) then Err(BadClaimPresenter)
    else if |claim.signature| != 64 then Err(MalformedClaim)
    else if !p.signatureOk(j.presenter, message, claim.signature) then Err(BadClaimPresenter)
    else
      match CheckedAdd(st.counter, 1)
      case None => Err(CounterOverflow)
      case Some(number) =>
        Ok((st.(nonce := RotatedNonce(p.sha, st.nonce, claim.signature), counter := number),
            Badge(ACCESS_BADGE_VERSION, st.contextHash, j.presenter, number, j.issuedAt)))
  }

  // ----- The validity window -----

  /** Times from `from` up to, but not including, `until`. */
  datatype Window = Window(from: u64, until: u64)

  datatype WindowError = ValidityOverflows | WindowEmpty

  function ValidityWindow(issuedAt: u64, expiresAt: Option<u64>, maxProofAge: u64): Result<Window, WindowError> {
    var from := SaturatingSub(issuedAt, ON_CHAIN_CLOCK_SKEW);
    var aged := CheckedAdd(issuedAt, maxProofAge);
    var freshnessEnd := if aged.Some? then CheckedAdd(aged.value, 1) else None;
    if freshnessEnd == None then Err(ValidityOverflows)
    else
      var expiryEnd := if expiresAt.Some? then CheckedAdd(expiresAt.value, 1) else None;
      var until :=
        if expiryEnd.Some? && expiryEnd.value < freshnessEnd.value then expiryEnd.value else freshnessEnd.value;
      if from >= until then Err(WindowEmpty) else Ok(Window(from, until))
  }

  /** A proof issued then is usable at this time. */
  predicate UsableAt(issuedAt: u64, expiresAt: Option<u64>, maxProofAge: u64, time: u64) {
    && issuedAt <= time + 30_000 && time <= issuedAt + maxProofAge
    && (expiresAt.Some? ==> time <= expiresAt.value)
  }

  /**
   * The emitted window is exactly the usable times, on all u64 inputs; it is refused as empty exactly when there are
   * none.
   */
  lemma WindowExact(issuedAt: u64, expiresAt: Option<u64>, maxProofAge: u64)
    ensures match ValidityWindow(issuedAt, expiresAt, maxProofAge)
            case Ok(window) =>
              && (forall t: u64 :: window.from <= t < window.until <==> UsableAt(issuedAt, expiresAt, maxProofAge, t))
              && window.from < window.until
            case Err(ValidityOverflows) => true
            case Err(WindowEmpty) => forall t: u64 :: !UsableAt(issuedAt, expiresAt, maxProofAge, t)
    ensures ValidityWindow(issuedAt, expiresAt, maxProofAge) == Err(ValidityOverflows) <==>
            issuedAt + maxProofAge >= U64_MAX
  {
  }

  /**
   * A journal issued no later than its expiry always has a window, with its issue time inside, unless the sum
   * overflows.
   */
  lemma WindowContainsIssueTime(issuedAt: u64, expiresAt: Option<u64>, maxProofAge: u64)
    requires expiresAt.Some? ==> issuedAt <= expiresAt.value
    ensures match ValidityWindow(issuedAt, expiresAt, maxProofAge)
            case Ok(window) => window.from <= issuedAt < window.until
            case Err(e) => e == ValidityOverflows
    ensures ValidityWindow(issuedAt, expiresAt, maxProofAge).Err? <==> issuedAt + maxProofAge >= U64_MAX
  {
  }

  // ----- The guest program -----

  datatype GuestError =
    | Undecodable | Refused(error: ClaimError) | Unproven | BadWindow(reason: WindowError)

  datatype Output = Output(badge: Badge, window: Window)

  /** The claim instruction on a decoded state; `proved` tells which journals carry a checked proof. */
  function ClaimStep(
      p: Platform, proved: Journal -> bool, st: GateState, programId: Owner, account: Digest, claim: Claim)
    : Result<(GateState, Output), GuestError>
  {
    match EvaluateClaim(p, st, programId, account, claim)
    case Err(e) => Err(Refused(e))
    case Ok((next, badge)) =>
      if !proved(claim.journal) then Err(Unproven)
      else
        match ValidityWindow(claim.journal.issuedAt, claim.journal.expiresAt, st.maxProofAge)
        case Err(e) => Err(BadWindow(e))
        case Ok(window) => Ok((next, Output(badge, window)))
  }

  /** The Borsh layout of the state: fixed-width little-endian fields and a tagged option. */
  function StateTokens(st: GateState): seq<Token> {
    [Fixed(LittleEndian(st.version, 2)), Fixed(st.contextHash), Fixed(Words(st.owner)), Fixed(st.definitionId),
     Fixed(LittleEndian(st.threshold, 16)), Fixed(st.root), Moment(st.expiresAt),
     Fixed(LittleEndian(st.maxProofAge, 8)), Fixed(st.nonce), Fixed(LittleEndian(st.counter, 8))]
  }

  function EncodeState(st: GateState): seq<byte> {
    Emit(StateTokens(st))
  }

  const STATE_SHAPES: seq<Shape> :=
    [FixedShape(2), FixedShape(32), FixedShape(32), FixedShape(32), FixedShape(16), FixedShape(32), MomentShape,
     FixedShape(8), FixedShape(32), FixedShape(8)]

  function StateOf(ts: seq<Token>): GateState
    requires Shapes(ts) == STATE_SHAPES
  {
    assert forall i :: 0 <= i < |ts| ==> ShapeOf(ts[i]) == Shapes(ts)[i];
    Widths();
    FromLittleEndianRoundTrip(ts[0].bytes);
    FromLittleEndianRoundTrip(ts[4].bytes);
    FromLittleEndianRoundTrip(ts[7].bytes);
    FromLittleEndianRoundTrip(ts[9].bytes);
    GateState(FromLittleEndian(ts[0].bytes), ts[1].bytes, FromWords(ts[2].bytes), ts[3].bytes,
              FromLittleEndian(ts[4].bytes),
              ts[5].bytes, ts[6].time, FromLittleEndian(ts[7].bytes), ts[8].bytes, FromLittleEndian(ts[9].bytes))
  }

  /** Decoding uses every byte or fails. */
  function DecodeState(bytes: seq<byte>): Option<GateState> {
    match Parse(STATE_SHAPES, bytes)
    case None => None
    case Some((ts, rest)) =>
      ParseExact(STATE_SHAPES, bytes);
      if rest == [] then Some(StateOf(ts)) else None
  }

  lemma StateRoundTrip(st: GateState)
    ensures DecodeState(EncodeState(st)) == Some(st)
  {
    var ts := StateTokens(st);
    assert Shapes(ts) == STATE_SHAPES;
    ParseRoundTrip(ts, []);
    assert EncodeState(st) + [] == EncodeState(st);
    Widths();
    WordsRoundTrip(st.owner);
    LittleEndianRoundTrip(st.version, 2);
    LittleEndianRoundTrip(st.threshold, 16);
    LittleEndianRoundTrip(st.maxProofAge, 8);
    LittleEndianRoundTrip(st.counter, 8);
  }

  lemma NumberBack(t: Token, k: nat)
    requires ShapeOf(t) == FixedShape(k)
    ensures t.Fixed? && |t.bytes| == k && Fixed(LittleEndian(FromLittleEndian(t.bytes), k)) == t
  {
    FromLittleEndianRoundTrip(t.bytes);
  }

  lemma ShapeAt(ts: seq<Token>, i: nat)
    requires i < |ts|
    ensures Shapes(ts)[i] == ShapeOf(ts[i])
  {
  }

  /** The ten shapes, one by one. */
  lemma StateShapes(ts: seq<Token>)
    requires Shapes(ts) == STATE_SHAPES
    ensures |ts| == 10 && ShapeOf(ts[0]) == FixedShape(2) && ShapeOf(ts[1]) == FixedShape(32)
    ensures ShapeOf(ts[2]) == FixedShape(32) && ShapeOf(ts[3]) == FixedShape(32) && ShapeOf(ts[4]) == FixedShape(16)
    ensures ShapeOf(ts[5]) == FixedShape(32) && ShapeOf(ts[6]) == MomentShape && ShapeOf(ts[7]) == FixedShape(8)
    ensures ShapeOf(ts[8]) == FixedShape(32) && ShapeOf(ts[9]) == FixedShape(8)
  {
    assert |Shapes(ts)| == 10;
    forall i | 0 <= i < 10 ensures ShapeOf(ts[i]) == STATE_SHAPES[i] { ShapeAt(ts, i); }
  }

  lemma StateTokensBack(ts: seq<Token>)
    requires Shapes(ts) == STATE_SHAPES
    ensures StateTokens(StateOf(ts)) == ts
  {
    StateShapes(ts);
    NumberBack(ts[0], 2);
    NumberBack(ts[4], 16);
    NumberBack(ts[7], 8);
    NumberBack(ts[9], 8);
    FromWordsRoundTrip(ts[2].bytes);
    TenTokens(StateTokens(StateOf(ts)), ts);
  }

  lemma TenTokens(a: seq<Token>, b: seq<Token>)
    requires |a| == |b| == 10
    requires a[0] == b[0] && a[1] == b[1] && a[2] == b[2] && a[3] == b[3] && a[4] == b[4]
    requires a[5] == b[5] && a[6] == b[6] && a[7] == b[7] && a[8] == b[8] && a[9] == b[9]
    ensures a == b
  {
    assert forall i :: 0 <= i < 10 ==> a[i] == b[i];
  }

  /** Account data decodes exactly when it is the encoding of a state: nothing missing, nothing left over. */
  lemma DecodeStateExact(bytes: seq<byte>, st: GateState)
    ensures DecodeState(bytes) == Some(st) <==> bytes == EncodeState(st)
  {
    StateRoundTrip(st);
    if DecodeState(bytes) == Some(st) {
      ParseExact(STATE_SHAPES, bytes);
      var (ts, rest) := Parse(STATE_SHAPES, bytes).value;
      StateTokensBack(ts);
      assert Emit(ts) + [] == Emit(ts);
    }
  }

  function BadgeTokens(b: Badge): seq<Token> {
    [Fixed(LittleEndian(b.version, 2)), Fixed(b.contextHash), Fixed(b.presenter), Fixed(LittleEndian(b.number, 8)),
     Fixed(LittleEndian(b.proofIssuedAt, 8))]
  }

  function EncodeBadge(b: Badge): seq<byte> {
    Emit(BadgeTokens(b))
  }

  const BADGE_SHAPES: seq<Shape> := [FixedShape(2), FixedShape(32), FixedShape(32), FixedShape(8), FixedShape(8)]

  function BadgeOf(ts: seq<Token>): Badge
    requires Shapes(ts) == BADGE_SHAPES
  {
    assert forall i :: 0 <= i < |ts| ==> ShapeOf(ts[i]) == Shapes(ts)[i];
    Widths();
    FromLittleEndianRoundTrip(ts[0].bytes);
    FromLittleEndianRoundTrip(ts[3].bytes);
    FromLittleEndianRoundTrip(ts[4].bytes);
    Badge(FromLittleEndian(ts[0].bytes), ts[1].bytes, ts[2].bytes, FromLittleEndian(ts[3].bytes),
          FromLittleEndian(ts[4].bytes))
  }

  function DecodeBadge(bytes: seq<byte>): Option<Badge> {
    match Parse(BADGE_SHAPES, bytes)
    case None => None
    case Some((ts, rest)) =>
      ParseExact(BADGE_SHAPES, bytes);
      if rest == [] then Some(BadgeOf(ts)) else None
  }

  lemma BadgeRoundTrip(b: Badge)
    ensures DecodeBadge(EncodeBadge(b)) == Some(b)
  {
    var ts := BadgeTokens(b);
    assert Shapes(ts) == BADGE_SHAPES;
    ParseRoundTrip(ts, []);
    assert EncodeBadge(b) + [] == EncodeBadge(b);
    Widths();
    LittleEndianRoundTrip(b.version, 2);
    LittleEndianRoundTrip(b.number, 8);
    LittleEndianRoundTrip(b.proofIssuedAt, 8);
  }

  lemma BadgeTokensBack(ts: seq<Token>)
    requires Shapes(ts) == BADGE_SHAPES
    ensures BadgeTokens(BadgeOf(ts)) == ts
  {
    assert forall i :: 0 <= i < |ts| ==> ShapeOf(ts[i]) == Shapes(ts)[i];
    FromLittleEndianRoundTrip(ts[0].bytes);
    FromLittleEndianRoundTrip(ts[3].bytes);
    FromLittleEndianRoundTrip(ts[4].bytes);
    var back := BadgeTokens(BadgeOf(ts));
    assert back[0] == ts[0] && back[1] == ts[1] && back[2] == ts[2] && back[3] == ts[3] && back[4] == ts[4];
  }

  lemma DecodeBadgeExact(bytes: seq<byte>, b: Badge)
    ensures DecodeBadge(bytes) == Some(b) <==> bytes == EncodeBadge(b)
  {
    BadgeRoundTrip(b);
    if DecodeBadge(bytes) == Some(b) {
      ParseExact(BADGE_SHAPES, bytes);
      var (ts, rest) := Parse(BADGE_SHAPES, bytes).value;
      BadgeTokensBack(ts);
      assert Emit(ts) + [] == Emit(ts);
    }
  }

  datatype Initialize = Initialize(
    contextHash: Digest,
    owner: Owner,
    definitionId: Digest,
    threshold: u128,
    root: Digest,
    expiresAt: u64,
    maxProofAge: u64,
    nonce: Digest)

  /** The instruction the client builds for a state: a missing expiry travels as zero. */
  function InitializationOf(st: GateState): Initialize {
    Initialize(st.contextHash, st.owner, st.definitionId, st.threshold, st.root,
               if st.expiresAt.Some? then st.expiresAt.value else 0, st.maxProofAge, st.nonce)
  }

  function InitializedState(i: Initialize): GateState {
    GateState(GATE_STATE_VERSION, i.contextHash, i.owner, i.definitionId, i.threshold, i.root,
              if i.expiresAt != 0 then Some(i.expiresAt) else None, i.maxProofAge, i.nonce, 0)
  }

  /** The limits on an instruction: a threshold, a root and a nonce, and a proof age from a minute to a day. */
  predicate Acceptable(i: Initialize) {
    i.threshold > 0 && i.root != ZERO_DIGEST && i.nonce != ZERO_DIGEST && 60_000 <= i.maxProofAge <= 24 * 3_600_000
  }

  /** An instruction initializes exactly within the limits. */
  lemma InitializesExactly(i: Initialize)
    ensures Valid(InitializedState(i)) <==> Acceptable(i)
  {
  }

  /** The state repeats the instruction: the client would build the same one from it. It starts at counter 0. */
  lemma InitializedStateRepeats(i: Initialize)
    ensures InitializationOf(InitializedState(i)) == i
    ensures InitializedState(i).counter == 0 && InitializedState(i).version == 3
    ensures InitializedState(i).expiresAt == None <==> i.expiresAt == 0
  {
  }

  /** The account that receives a badge. */
  class BadgeAccount {
    var data: seq<byte>

    constructor ()
      ensures data == []
    {
      data := [];
    }
  }

  /** The gate's account, whose data the program overwrites. */
  class GateAccount {
    var data: seq<byte>

    constructor ()
      ensures data == []
    {
      data := [];
    }

    method InitializeGate(i: Initialize) returns (r: Result<(), GuestError>)
      modifies this
      ensures if Acceptable(i) then r == Ok(()) && DecodeState(data) == Some(InitializedState(i))
              else r == Err(Refused(InvalidGateState)) && data == old(data)
    {
      var st := InitializedState(i);
      InitializesExactly(i);
      if !Valid(st) {
        return Err(Refused(InvalidGateState));
      }
      StateRoundTrip(st);
      data := EncodeState(st);
      return Ok(());
    }

    /**
     * An accepted claim replaces the state by its successor and stores the badge; a refused one leaves both accounts as
     * they were.
     */
    method ClaimAccess(
        p: Platform, proved: Journal -> bool, programId: Owner, badge: BadgeAccount, account: Digest, claim: Claim)
        returns (r: Result<Output, GuestError>)
      modifies this, badge
      ensures r.Err? ==> badge.data == old(badge.data)
      ensures r.Ok? ==> DecodeBadge(badge.data) == Some(r.value.badge)
      ensures match DecodeState(old(data))
              case None => r == Err(Undecodable) && data == old(data)
              case Some(st) =>
                match ClaimStep(p, proved, st, programId, account, claim)
                case Err(e) => r == Err(e) && data == old(data)
                case Ok((next, out)) => r == Ok(out) && DecodeState(data) == Some(next)
    {
      var decoded := DecodeState(data);
      if decoded == None {
        return Err(Undecodable);
      }
      var st := decoded.value;
      var evaluated := EvaluateClaim(p, st, programId, account, claim);
      if evaluated.Err? {
        return Err(Refused(evaluated.error));
      }
      var (next, issued) := evaluated.value;
      if !proved(claim.journal) {
        return Err(Unproven);
      }
      var window := ValidityWindow(claim.journal.issuedAt, claim.journal.expiresAt, st.maxProofAge);
      if window.Err? {
        return Err(BadWindow(window.error));
      }
      StateRoundTrip(next);
      BadgeRoundTrip(issued);
      data := EncodeState(next);
      badge.data := EncodeBadge(issued);
      return Ok(Output(issued, window.value));
    }
  }

  /**
   * For a valid state the client's instruction reproduces it exactly when nothing was claimed yet and its expiry is not
   * zero.
   */
  lemma InitializationRoundTrip(st: GateState)
    requires Valid(st)
    ensures InitializedState(InitializationOf(st)) == st <==> st.counter == 0 && st.expiresAt != Some(0)
    ensures Valid(InitializedState(InitializationOf(st)))
  {
  }

  // ----- Binding of the claim signature -----

  lemma OnChainPrefixFree(c: OnChainChallenge, d: OnChainChallenge, x: seq<byte>, y: seq<byte>)
    requires OnChainBytes(c) + x == OnChainBytes(d) + y
    ensures c == d && x == y
  {
    var s, t := OnChainTokens(c), OnChainTokens(d);
    assert Shapes(s) == Shapes(t);
    PrefixFree(s, t, x, y);
    OnChainTokensInjective(c, d);
  }

  lemma OnChainTokensInjective(c: OnChainChallenge, d: OnChainChallenge)
    requires OnChainTokens(c) == OnChainTokens(d)
    ensures c == d
  {
    var s, t := OnChainTokens(c), OnChainTokens(d);
    assert s[1] == t[1] && s[2] == t[2] && s[3] == t[3] && s[4] == t[4] && s[5] == t[5] && s[6] == t[6];
    WordsInjective(c.programId, d.programId);
    Widths();
    LittleEndianInjective(c.version, d.version, 2);
    LittleEndianInjective(c.counter, d.counter, 8);
  }

  lemma ClaimPreimageInjective(c: OnChainChallenge, d: OnChainChallenge, j: Journal, k: Journal)
    requires ClaimPreimage(c, j) == ClaimPreimage(d, k)
    ensures c == d && j == k
  {
    var x, y := Words(IMAGE_ID) + JournalBytes(j), Words(IMAGE_ID) + JournalBytes(k);
    DropTag(ON_CHAIN_PRESENTATION_TAG, OnChainBytes(c) + x, OnChainBytes(d) + y);
    OnChainPrefixFree(c, d, x, y);
    DropTag(Words(IMAGE_ID), JournalBytes(j), JournalBytes(k));
    JournalPrefixFree(j, k, [], []);
  }

  /** What the challenge of a state consists of; the badge account is its second field. */
  lemma ChallengeFields(st: GateState, programId: Owner, account: Digest)
    ensures var c := ChallengeFor(st, programId, account);
            && c.programId == programId && c.account == account && c.contextHash == st.contextHash
            && c.nonce == st.nonce && c.counter == st.counter && c.version == 1
  {
  }

  /**
   * One signed message is for one program, one badge account, one gate state and one journal, or two named
   * preimages collide.
   */
  lemma ClaimMessageBinds(
      sha: Hash, st: GateState, programId: Owner, account: Digest, j: Journal,
      st': GateState, programId': Owner, account': Digest, k: Journal)
    requires ClaimMessage(sha, ChallengeFor(st, programId, account), j)
             == ClaimMessage(sha, ChallengeFor(st', programId', account'), k)
    ensures || (&& programId == programId' && account == account' && j == k
                && st.contextHash == st'.contextHash && st.nonce == st'.nonce && st.counter == st'.counter)
            || Collides(sha, ClaimPreimage(ChallengeFor(st, programId, account), j),
                        ClaimPreimage(ChallengeFor(st', programId', account'), k))
  {
    var c, d := ChallengeFor(st, programId, account), ChallengeFor(st', programId', account');
    ChallengeFields(st, programId, account);
    ChallengeFields(st', programId', account');
    if ClaimPreimage(c, j) == ClaimPreimage(d, k) {
      ClaimPreimageInjective(c, d, j, k);
    }
  }

  /** This signature verifies for one message at most under this key. */
  ghost predicate SignsOneMessage(p: Platform, key: Digest, signature: seq<byte>) {
    forall m: seq<byte>, n: seq<byte> :: p.signatureOk(key, m, signature) && p.signatureOk(key, n, signature) ==> m == n
  }

  /**
   * A claim whose signature verifies for one message only is accepted for one badge account, at one program and one
   * nonce and counter, or two named preimages collide.
   */
  lemma ClaimForOneAccount(
      p: Platform, proved: Journal -> bool, st: GateState, programId: Owner, account: Digest,
      st': GateState, programId': Owner, account': Digest, claim: Claim)
    requires SignsOneMessage(p, claim.journal.presenter, claim.signature)
    requires ClaimStep(p, proved, st, programId, account, claim).Ok?
    requires ClaimStep(p, proved, st', programId', account', claim).Ok?
    ensures || (&& programId == programId' && account == account'
                && st.contextHash == st'.contextHash && st.nonce == st'.nonce && st.counter == st'.counter)
            || Collides(p.sha, ClaimPreimage(ChallengeFor(st, programId, account), claim.journal),
                        ClaimPreimage(ChallengeFor(st', programId', account'), claim.journal))
  {
    ClaimStepExact(p, proved, st, programId, account, claim);
    ClaimStepExact(p, proved, st', programId', account', claim);
    ClaimMessageBinds(p.sha, st, programId, account, claim.journal, st', programId', account', claim.journal);
  }

  /** What is wrong with a claim that is refused for this reason, when this is the message to sign. */
  predicate RefusedFor(p: Platform, st: GateState, claim: Claim, message: Digest, reason: ClaimError) {
    var j := claim.journal;
    match reason
    case InvalidGateState => !Valid(st)
    case InvalidJournal => j.version != JOURNAL_VERSION
    case WrongClaimContext => j.contextHash != st.contextHash || j.expiresAt != st.expiresAt
    case WrongClaimToken => j.owner != st.owner || j.definitionId != st.definitionId
    case WrongClaimThreshold => j.threshold != st.threshold
    case UntrustedRoot => j.root != st.root
    case MalformedClaim => |claim.signature| != 64
    case BadClaimPresenter =>
      !p.keyParses(j.presenter) || !p.signatureOk(j.presenter, message, claim.signature)
    case CounterOverflow => st.counter == U64_MAX
  }

  /** Every refusal names a check that the claim fails. */
  lemma ClaimExplained(
      p: Platform, proved: Journal -> bool, st: GateState, programId: Owner, account: Digest, claim: Claim)
    requires ClaimStep(p, proved, st, programId, account, claim).Err?
    ensures match ClaimStep(p, proved, st, programId, account, claim).error
            case Refused(reason) =>
              RefusedFor(p, st, claim, ClaimMessage(p.sha, ChallengeFor(st, programId, account), claim.journal), reason)
            case Unproven => !proved(claim.journal)
            case BadWindow(ValidityOverflows) => claim.journal.issuedAt + st.maxProofAge >= U64_MAX
            case BadWindow(WindowEmpty) =>
              forall t: u64 :: !UsableAt(claim.journal.issuedAt, st.expiresAt, st.maxProofAge, t)
            case Undecodable => false
  {
    EvaluationExplained(p, st, claim, ClaimMessage(p.sha, ChallengeFor(st, programId, account), claim.journal));
    WindowExact(claim.journal.issuedAt, claim.journal.expiresAt, st.maxProofAge);
  }

  lemma EvaluationExplained(p: Platform, st: GateState, claim: Claim, message: Digest)
    ensures match EvaluateSigned(p, st, claim, message)
            case Ok(_) => claim.journal.expiresAt == st.expiresAt
            case Err(reason) => RefusedFor(p, st, claim, message, reason)
  {
  }

  // ----- Runs -----

  datatype Attempt = Attempt(account: Digest, claim: Claim)

  /** What an accepted claim left behind: the challenge it answered and its outputs. */
  datatype Entry = Entry(challenge: OnChainChallenge, journal: Journal, output: Output)

  /** How one attempt is accepted, if it is. */
  type Acceptance = (GateState, Attempt) -> Option<(GateState, Entry)>

  function Claiming(p: Platform, proved: Journal -> bool, programId: Owner): Acceptance {
    (st: GateState, attempt: Attempt) =>
      match ClaimStep(p, proved, st, programId, attempt.account, attempt.claim)
      case Err(_) => None
      case Ok((next, out)) =>
        Some((next, Entry(ChallengeFor(st, programId, attempt.account), attempt.claim.journal, out)))
  }

  /** A run in which every attempt is accepted. */
  function RunClaims(accept: Acceptance, st: GateState, attempts: seq<Attempt>): Option<(GateState, seq<Entry>)> {
    if attempts == [] then Some((st, []))
    else
      var n := |attempts| - 1;
      match RunClaims(accept, st, attempts[..n])
      case None => None
      case Some((before, entries)) =>
        match accept(before, attempts[n])
        case None => None
        case Some((next, entry)) => Some((next, entries + [entry]))
  }

  predicate SamePolicy(a: GateState, b: GateState) {
    a.(nonce := b.nonce, counter := b.counter) == b
  }

  predicate PolicyRepeated(st: GateState, j: Journal) {
    && j.version == JOURNAL_VERSION && j.contextHash == st.contextHash && j.expiresAt == st.expiresAt
    && j.owner == st.owner && j.definitionId == st.definitionId && j.threshold == st.threshold && j.root == st.root
  }

  predicate SignedBy(p: Platform, claim: Claim, message: Digest) {
    && p.keyParses(claim.journal.presenter) && |claim.signature| == 64
    && p.signatureOk(claim.journal.presenter, message, claim.signature)
  }

  /** The journal repeats the gate's policy, and its presenter signed the gate's current challenge. */
  predicate Eligible(p: Platform, st: GateState, programId: Owner, account: Digest, claim: Claim) {
    && PolicyRepeated(st, claim.journal)
    && SignedBy(p, claim, ClaimMessage(p.sha, ChallengeFor(st, programId, account), claim.journal))
  }

  /** When a claim is accepted, in both directions, without the order of checks. */
  lemma ClaimStepExact(
      p: Platform, proved: Journal -> bool, st: GateState, programId: Owner, account: Digest, claim: Claim)
    ensures ClaimStep(p, proved, st, programId, account, claim).Ok? <==>
            && Valid(st) && st.counter < U64_MAX && proved(claim.journal)
            && Eligible(p, st, programId, account, claim)
            && claim.journal.issuedAt + st.maxProofAge < U64_MAX
            && exists t: u64 :: UsableAt(claim.journal.issuedAt, st.expiresAt, st.maxProofAge, t)
  {
    var j := claim.journal;
    WindowExact(j.issuedAt, st.expiresAt, st.maxProofAge);
    var window := ValidityWindow(j.issuedAt, st.expiresAt, st.maxProofAge);
    if window.Ok? { assert UsableAt(j.issuedAt, st.expiresAt, st.maxProofAge, window.value.from); }
    ClaimVerdict(p, proved, st, programId, account, claim);
  }

  lemma ClaimVerdict(
      p: Platform, proved: Journal -> bool, st: GateState, programId: Owner, account: Digest, claim: Claim)
    ensures ClaimStep(p, proved, st, programId, account, claim).Ok? <==>
            && Valid(st) && st.counter < U64_MAX && proved(claim.journal)
            && Eligible(p, st, programId, account, claim)
            && ValidityWindow(claim.journal.issuedAt, st.expiresAt, st.maxProofAge).Ok?
  {
    var message := ClaimMessage(p.sha, ChallengeFor(st, programId, account), claim.journal);
    EvaluationExact(p, st, claim, message);
    EvaluationExplained(p, st, claim, message);
  }

  /** The checks, in both directions, and what passing them does. */
  lemma EvaluationExact(p: Platform, st: GateState, claim: Claim, message: Digest)
    ensures EvaluateSigned(p, st, claim, message).Ok? <==>
            && Valid(st) && st.counter < U64_MAX && PolicyRepeated(st, claim.journal) && SignedBy(p, claim, message)
    ensures EvaluateSigned(p, st, claim, message).Ok? ==>
            EvaluateSigned(p, st, claim, message).value
            == (st.(nonce := RotatedNonce(p.sha, st.nonce, claim.signature), counter := st.counter + 1),
                Badge(ACCESS_BADGE_VERSION, st.contextHash, claim.journal.presenter, st.counter + 1,
                      claim.journal.issuedAt))
  {
  }

  /** What one accepted claim did. */
  lemma ClaimStepEffect(
      p: Platform, proved: Journal -> bool, st: GateState, programId: Owner, account: Digest, claim: Claim)
    requires ClaimStep(p, proved, st, programId, account, claim).Ok?
    ensures var (next, out) := ClaimStep(p, proved, st, programId, account, claim).value;
            && Valid(st) && SamePolicy(st, next) && next.counter == st.counter + 1 == out.badge.number
            && next.nonce == RotatedNonce(p.sha, st.nonce, claim.signature) && |claim.signature| == 64
            && out.badge.version == ACCESS_BADGE_VERSION && out.badge.contextHash == st.contextHash
            && out.badge.presenter == claim.journal.presenter && out.badge.proofIssuedAt == claim.journal.issuedAt
            && (Valid(next) <==> next.nonce != ZERO_DIGEST)
            && proved(claim.journal)
            && claim.journal.owner == st.owner && claim.journal.definitionId == st.definitionId
            && claim.journal.threshold == st.threshold && claim.journal.root == st.root
            && claim.journal.contextHash == st.contextHash && claim.journal.expiresAt == st.expiresAt
            && ValidityWindow(claim.journal.issuedAt, st.expiresAt, st.maxProofAge) == Ok(out.window)
  {
    EvaluationExact(p, st, claim, ClaimMessage(p.sha, ChallengeFor(st, programId, account), claim.journal));
  }

  /** An accepted attempt keeps the policy and moves the counter by one; the entry records both ends. */
  predicate Counted(proved: Journal -> bool, st: GateState, next: GateState, entry: Entry) {
    && Valid(st) && SamePolicy(st, next) && (Valid(next) <==> next.nonce != ZERO_DIGEST)
    && entry.challenge.counter == st.counter && entry.output.badge.number == next.counter == st.counter + 1
    && proved(entry.journal)
  }

  ghost predicate Counts(proved: Journal -> bool, accept: Acceptance) {
    forall st: GateState, attempt: Attempt :: accept(st, attempt).Some? ==>
      Counted(proved, st, accept(st, attempt).value.0, accept(st, attempt).value.1)
  }

  lemma ClaimingCounts(p: Platform, proved: Journal -> bool, programId: Owner)
    ensures Counts(proved, Claiming(p, proved, programId))
  {
    var accept := Claiming(p, proved, programId);
    forall st: GateState, attempt: Attempt | accept(st, attempt).Some?
      ensures Counted(proved, st, accept(st, attempt).value.0, accept(st, attempt).value.1)
    {
      ClaimStepEffect(p, proved, st, programId, attempt.account, attempt.claim);
    }
  }

  lemma {:induction false} CountedRun(
      proved: Journal -> bool, accept: Acceptance, st: GateState, attempts: seq<Attempt>)
    requires Counts(proved, accept) && RunClaims(accept, st, attempts).Some?
    ensures var (end, entries) := RunClaims(accept, st, attempts).value;
            && SamePolicy(st, end) && end.counter == st.counter + |attempts|
            && |entries| == |attempts|
            && (forall i :: 0 <= i < |entries| ==>
                  && entries[i].output.badge.number == st.counter + i + 1
                  && entries[i].challenge.counter == st.counter + i
                  && proved(entries[i].journal))
            && (attempts != [] ==> Valid(st) && (Valid(end) <==> end.nonce != ZERO_DIGEST))
  {
    if attempts == [] {
    } else {
      var n := |attempts| - 1;
      CountedRun(proved, accept, st, attempts[..n]);
      var (before, _) := RunClaims(accept, st, attempts[..n]).value;
      assert accept(before, attempts[n]).Some?;
    }
  }

  /** An initial part of a run is a run, and a claim follows it, so its final state is valid. */
  lemma {:induction false} PrefixesValid(
      proved: Journal -> bool, accept: Acceptance, st: GateState, attempts: seq<Attempt>, k: nat)
    requires Counts(proved, accept) && RunClaims(accept, st, attempts).Some? && k < |attempts|
    ensures RunClaims(accept, st, attempts[..k]).Some? && Valid(RunClaims(accept, st, attempts[..k]).value.0)
  {
    var n := |attempts| - 1;
    if k == n {
      var before := RunClaims(accept, st, attempts[..n]).value.0;
      assert accept(before, attempts[n]).Some?;
    } else {
      assert attempts[..n][..k] == attempts[..k];
      PrefixesValid(proved, accept, st, attempts[..n], k);
    }
  }

  /**
   * The policy never changes, the counter counts the claims and never wraps, badge numbers are consecutive and end at
   * the counter, each claim answered a challenge with its own counter, every state before the last is valid, and the
   * last is valid exactly when its nonce is not all zeros.
   */
  ghost predicate SafeRun(proved: Journal -> bool, accept: Acceptance, st: GateState, attempts: seq<Attempt>)
    requires RunClaims(accept, st, attempts).Some?
  {
    var (end, entries) := RunClaims(accept, st, attempts).value;
    && SamePolicy(st, end) && end.counter == st.counter + |attempts| <= U64_MAX
    && |entries| == |attempts|
    && (forall i :: 0 <= i < |entries| ==>
          && entries[i].output.badge.number == st.counter + i + 1
          && entries[i].challenge.counter == st.counter + i
          && proved(entries[i].journal))
    && (attempts != [] ==> Valid(st) && (Valid(end) <==> end.nonce != ZERO_DIGEST))
    && (forall k :: 0 <= k < |attempts| ==>
          RunClaims(accept, st, attempts[..k]).Some? && Valid(RunClaims(accept, st, attempts[..k]).value.0))
  }

  lemma CountedRunSafe(proved: Journal -> bool, accept: Acceptance, st: GateState, attempts: seq<Attempt>)
    requires Counts(proved, accept) && RunClaims(accept, st, attempts).Some?
    ensures SafeRun(proved, accept, st, attempts)
  {
    CountedRun(proved, accept, st, attempts);
    forall k | 0 <= k < |attempts|
      ensures RunClaims(accept, st, attempts[..k]).Some? && Valid(RunClaims(accept, st, attempts[..k]).value.0)
    {
      PrefixesValid(proved, accept, st, attempts, k);
    }
  }

  /** Every run of accepted claims is safe. */
  lemma ClaimRunSafety(p: Platform, proved: Journal -> bool, programId: Owner, st: GateState, attempts: seq<Attempt>)
    requires RunClaims(Claiming(p, proved, programId), st, attempts).Some?
    ensures SafeRun(proved, Claiming(p, proved, programId), st, attempts)
  {
    ClaimingCounts(p, proved, programId);
    CountedRunSafe(proved, Claiming(p, proved, programId), st, attempts);
  }

  // ----- When a gate is at its end -----

  /** Some claim is accepted in this state: for this hash, with suitable keys, signatures and proofs. */
  ghost predicate CanGoOn(sha: Hash, st: GateState, programId: Owner) {
    exists p: Platform, proved: Journal -> bool, a: Attempt ::
      p.sha == sha && ClaimStep(p, proved, st, programId, a.account, a.claim).Ok?
  }

  /** A platform with this hash on which every key and every signature checks. */
  function Permissive(sha: Hash): Platform {
    Platform(sha, _ => true, (_, _, _) => true, _ => ZERO_DIGEST, (_, _) => [], _ => None, _ => true)
  }

  /** A claim whose journal repeats the gate's policy, issued at time 0. */
  function RepeatingClaim(st: GateState): Claim {
    Claim(Journal(JOURNAL_VERSION, st.contextHash, st.owner, st.definitionId, st.threshold, st.root, ZERO_DIGEST, 0,
                  st.expiresAt),
          ZERO_DIGEST + ZERO_DIGEST)
  }

  lemma RepeatingClaimAccepted(sha: Hash, st: GateState, programId: Owner)
    requires Valid(st) && st.counter < U64_MAX
    ensures ClaimStep(Permissive(sha), _ => true, st, programId, ZERO_DIGEST, RepeatingClaim(st)).Ok?
  {
    assert UsableAt(0, st.expiresAt, st.maxProofAge, 0);
    ClaimStepExact(Permissive(sha), _ => true, st, programId, ZERO_DIGEST, RepeatingClaim(st));
  }

  lemma GoesOnBy(p: Platform, proved: Journal -> bool, st: GateState, programId: Owner, a: Attempt)
    requires ClaimStep(p, proved, st, programId, a.account, a.claim).Ok?
    ensures CanGoOn(p.sha, st, programId)
  {
  }

  lemma GoesOnOnlyFromValid(sha: Hash, st: GateState, programId: Owner)
    requires CanGoOn(sha, st, programId)
    ensures Valid(st) && st.counter < U64_MAX
  {
    var p: Platform, proved: Journal -> bool, a: Attempt :|
      p.sha == sha && ClaimStep(p, proved, st, programId, a.account, a.claim).Ok?;
    ClaimStepExact(p, proved, st, programId, a.account, a.claim);
  }

  /** Claims go on exactly from the valid states whose counter can still grow. */
  lemma GoesOnExactly(sha: Hash, st: GateState, programId: Owner)
    ensures CanGoOn(sha, st, programId) <==> Valid(st) && st.counter < U64_MAX
  {
    if Valid(st) && st.counter < U64_MAX {
      RepeatingClaimAccepted(sha, st, programId);
      GoesOnBy(Permissive(sha), _ => true, st, programId, Attempt(ZERO_DIGEST, RepeatingClaim(st)));
    }
    if CanGoOn(sha, st, programId) {
      GoesOnOnlyFromValid(sha, st, programId);
    }
  }

  /**
   * After an accepted claim the gate is at its end exactly when the nonce has rotated to zeros or the counter is at its
   * largest.
   */
  lemma GateEndsExactly(
      p: Platform, proved: Journal -> bool, st: GateState, programId: Owner, account: Digest, claim: Claim)
    requires ClaimStep(p, proved, st, programId, account, claim).Ok?
    ensures var next := ClaimStep(p, proved, st, programId, account, claim).value.0;
            CanGoOn(p.sha, next, programId) <==>
            RotatedNonce(p.sha, st.nonce, claim.signature) != ZERO_DIGEST && st.counter + 1 < U64_MAX
  {
    ClaimStepEffect(p, proved, st, programId, account, claim);
    GoesOnExactly(p.sha, ClaimStep(p, proved, st, programId, account, claim).value.0, programId);
  }

  /** A nonce of zeros is exactly what makes every later claim be refused for the state itself. */
  lemma ZeroNonceEndsGate(
      p: Platform, proved: Journal -> bool, st: GateState, programId: Owner, account: Digest, claim: Claim)
    requires ClaimStep(p, proved, st, programId, account, claim).Ok?
    ensures var next := ClaimStep(p, proved, st, programId, account, claim).value.0;
            (RotatedNonce(p.sha, st.nonce, claim.signature) == ZERO_DIGEST) <==>
            (forall attempt: Attempt ::
               ClaimStep(p, proved, next, programId, attempt.account, attempt.claim) == Err(Refused(InvalidGateState)))
  {
    ClaimStepEffect(p, proved, st, programId, account, claim);
    var next := ClaimStep(p, proved, st, programId, account, claim).value.0;
    if Valid(next) {
      var again := Attempt(account, claim);
      ValidNotRefused(p, proved, next, programId, account, claim);
      assert ClaimStep(p, proved, next, programId, again.account, again.claim) != Err(Refused(InvalidGateState));
    } else {
      forall attempt: Attempt
        ensures ClaimStep(p, proved, next, programId, attempt.account, attempt.claim) == Err(Refused(InvalidGateState))
      {
        InvalidRefused(p, proved, next, programId, attempt.account, attempt.claim);
      }
    }
  }

  lemma ValidNotRefused(
      p: Platform, proved: Journal -> bool, st: GateState, programId: Owner, account: Digest, claim: Claim)
    requires Valid(st)
    ensures ClaimStep(p, proved, st, programId, account, claim) != Err(Refused(InvalidGateState))
  {
    EvaluationExplained(p, st, claim, ClaimMessage(p.sha, ChallengeFor(st, programId, account), claim.journal));
  }

  lemma InvalidRefused(
      p: Platform, proved: Journal -> bool, st: GateState, programId: Owner, account: Digest, claim: Claim)
    requires !Valid(st)
    ensures ClaimStep(p, proved, st, programId, account, claim) == Err(Refused(InvalidGateState))
  {
  }

  /** A gate over this root, with this nonce and counter. */
  function PlainGate(root: Digest, nonce: Digest, counter: u64): GateState {
    GateState(GATE_STATE_VERSION, ZERO_DIGEST, IMAGE_ID, ZERO_DIGEST, 1, root, None, MIN_PROOF_AGE, nonce, counter)
  }

  /** Under a hash that is constantly `output`, an accepted claim leaves this nonce. */
  lemma ConstantHashClaim(output: Digest, root: Digest, nonce: Digest, counter: u64, programId: Owner)
    requires root != ZERO_DIGEST && nonce != ZERO_DIGEST && counter < U64_MAX
    ensures var st := PlainGate(root, nonce, counter);
            var step := ClaimStep(Permissive(_ => output), _ => true, st, programId, ZERO_DIGEST, RepeatingClaim(st));
            step.Ok? && step.value.0 == PlainGate(root, output, counter + 1)
  {
    var st := PlainGate(root, nonce, counter);
    RepeatingClaimAccepted(_ => output, st, programId);
    ClaimStepEffect(Permissive(_ => output), _ => true, st, programId, ZERO_DIGEST, RepeatingClaim(st));
  }

  /** Both ends are reached. Here an accepted first claim leaves a nonce of zeros and an invalid state. */
  lemma ZeroNonceHappens(root: Digest, nonce: Digest, programId: Owner)
    requires root != ZERO_DIGEST && nonce != ZERO_DIGEST
    ensures var st := PlainGate(root, nonce, 0);
            var step := ClaimStep(Permissive(_ => ZERO_DIGEST), _ => true, st, programId, ZERO_DIGEST,
                              RepeatingClaim(st));
            Valid(st) && step.Ok? && !Valid(step.value.0)
  {
    ConstantHashClaim(ZERO_DIGEST, root, nonce, 0, programId);
  }

  /** And here an accepted claim leaves a valid state with a nonce that is not zero, from which no claim is accepted. */
  lemma FullCounterHappens(root: Digest, nonce: Digest, programId: Owner)
    requires root != ZERO_DIGEST && nonce != ZERO_DIGEST
    ensures var st := PlainGate(root, nonce, U64_MAX - 1);
            var step := ClaimStep(Permissive(_ => nonce), _ => true, st, programId, ZERO_DIGEST, RepeatingClaim(st));
            && step.Ok? && Valid(step.value.0) && step.value.0.nonce == nonce
            && !CanGoOn(_ => nonce, step.value.0, programId)
  {
    ConstantHashClaim(nonce, root, nonce, U64_MAX - 1, programId);
    GoesOnExactly(_ => nonce, PlainGate(root, nonce, U64_MAX), programId);
  }

  /** Signed messages of different counters differ, or their preimages collide. */
  lemma CountersSeparate(sha: Hash, a: Entry, b: Entry)
    requires a.challenge.counter != b.challenge.counter
    ensures ClaimMessage(sha, a.challenge, a.journal) != ClaimMessage(sha, b.challenge, b.journal)
         || Collides(sha, ClaimPreimage(a.challenge, a.journal), ClaimPreimage(b.challenge, b.journal))
  {
    if ClaimPreimage(a.challenge, a.journal) == ClaimPreimage(b.challenge, b.journal) {
      ClaimPreimageInjective(a.challenge, b.challenge, a.journal, b.journal);
    }
  }

  /**
   * No signed message serves two accepted claims, even if rotated nonces repeat: the counters would make the preimages
   * collide.
   */
  lemma ClaimMessagesDiffer(
      p: Platform, proved: Journal -> bool, programId: Owner, st: GateState, attempts: seq<Attempt>, i: nat, j: nat)
    requires RunClaims(Claiming(p, proved, programId), st, attempts).Some? && i < j < |attempts|
    ensures var entries := RunClaims(Claiming(p, proved, programId), st, attempts).value.1;
            && |entries| == |attempts|
            && var a, b := entries[i], entries[j];
               ClaimMessage(p.sha, a.challenge, a.journal) != ClaimMessage(p.sha, b.challenge, b.journal)
               || Collides(p.sha, ClaimPreimage(a.challenge, a.journal), ClaimPreimage(b.challenge, b.journal))
  {
    ClaimRunSafety(p, proved, programId, st, attempts);
    var entries := RunClaims(Claiming(p, proved, programId), st, attempts).value.1;
    CountersSeparate(p.sha, entries[i], entries[j]);
  }

  // ----- The nonce as a hash chain -----

  function NonceChain(sha: Hash, start: Digest, signatures: seq<seq<byte>>): Digest {
    if signatures == [] then start
    else
      var n := |signatures| - 1;
      RotatedNonce(sha, NonceChain(sha, start, signatures[..n]), signatures[n])
  }

  function Signatures(attempts: seq<Attempt>): seq<seq<byte>> {
    seq(|attempts|, i requires 0 <= i < |attempts| => attempts[i].claim.signature)
  }

  ghost predicate Rotates(sha: Hash, accept: Acceptance) {
    forall st: GateState, attempt: Attempt :: accept(st, attempt).Some? ==>
      accept(st, attempt).value.0.nonce == RotatedNonce(sha, st.nonce, attempt.claim.signature)
  }

  lemma {:induction false} RunRotates(sha: Hash, accept: Acceptance, st: GateState, attempts: seq<Attempt>)
    requires Rotates(sha, accept) && RunClaims(accept, st, attempts).Some?
    ensures RunClaims(accept, st, attempts).value.0.nonce == NonceChain(sha, st.nonce, Signatures(attempts))
  {
    if attempts == [] {
    } else {
      var n := |attempts| - 1;
      RunRotates(sha, accept, st, attempts[..n]);
      assert Signatures(attempts)[..n] == Signatures(attempts[..n]);
      var before := RunClaims(accept, st, attempts[..n]).value.0;
      assert accept(before, attempts[n]).Some?;
    }
  }

  lemma ClaimingRotates(p: Platform, proved: Journal -> bool, programId: Owner)
    ensures Rotates(p.sha, Claiming(p, proved, programId))
  {
    var accept := Claiming(p, proved, programId);
    forall st: GateState, attempt: Attempt | accept(st, attempt).Some?
      ensures accept(st, attempt).value.0.nonce == RotatedNonce(p.sha, st.nonce, attempt.claim.signature)
    {
      ClaimStepEffect(p, proved, st, programId, attempt.account, attempt.claim);
    }
  }

  /** Where two chains of one length first differ, read from the end: two inputs of the rotation hash. */
  function Fork(sha: Hash, start: Digest, s: seq<seq<byte>>, t: seq<seq<byte>>): (seq<byte>, seq<byte>)
    requires |s| == |t|
  {
    if s == [] then ([], [])
    else
      var n := |s| - 1;
      var x := RotationPreimage(NonceChain(sha, start, s[..n]), s[n]);
      var y := RotationPreimage(NonceChain(sha, start, t[..n]), t[n]);
      if x != y then (x, y) else Fork(sha, start, s[..n], t[..n])
  }

  lemma SplitRotation(tag: seq<byte>, a: Digest, b: Digest, s: seq<byte>, t: seq<byte>)
    requires tag + a + s == tag + b + t
    ensures a == b && s == t
  {
    Associative(tag, a, s);
    Associative(tag, b, t);
    DropTag(tag, a + s, b + t);
    assert a == (a + s)[..32] && b == (b + t)[..32];
    assert s == (a + s)[32..] && t == (b + t)[32..];
  }

  lemma {:induction false} ChainBinds(sha: Hash, start: Digest, s: seq<seq<byte>>, t: seq<seq<byte>>)
    requires |s| == |t| && NonceChain(sha, start, s) == NonceChain(sha, start, t)
    ensures s == t || Collides(sha, Fork(sha, start, s, t).0, Fork(sha, start, s, t).1)
  {
    if s == [] {
    } else {
      var n := |s| - 1;
      var a, b := NonceChain(sha, start, s[..n]), NonceChain(sha, start, t[..n]);
      if RotationPreimage(a, s[n]) == RotationPreimage(b, t[n]) {
        SplitRotation(ON_CHAIN_NONCE_TAG, a, b, s[n], t[n]);
        ChainBinds(sha, start, s[..n], t[..n]);
        assert s == s[..n] + [s[n]] && t == t[..n] + [t[n]];
      }
    }
  }

  /**
   * The nonce fixes the history: two runs of one length that end in one nonce used the same signatures, or the fork is
   * a collision.
   */
  lemma NonceFixesHistory(
      p: Platform, proved: Journal -> bool, programId: Owner, st: GateState, a: seq<Attempt>, b: seq<Attempt>)
    requires RunClaims(Claiming(p, proved, programId), st, a).Some?
             && RunClaims(Claiming(p, proved, programId), st, b).Some?
    requires |a| == |b|
    requires RunClaims(Claiming(p, proved, programId), st, a).value.0.nonce ==
             RunClaims(Claiming(p, proved, programId), st, b).value.0.nonce
    ensures var (x, y) := Fork(p.sha, st.nonce, Signatures(a), Signatures(b));
            Signatures(a) == Signatures(b) || Collides(p.sha, x, y)
  {
    ClaimingRotates(p, proved, programId);
    RunRotates(p.sha, Claiming(p, proved, programId), st, a);
    RunRotates(p.sha, Claiming(p, proved, programId), st, b);
    ChainBinds(p.sha, st.nonce, Signatures(a), Signatures(b));
  }

  /**
   * For a journal the circuit can return, an accepted and proved claim can fail only by overflow of its time
   * window.
   */
  lemma ProvedClaimFailsOnlyByOverflow(
      p: Platform, proved: Journal -> bool, st: GateState, programId: Owner, account: Digest, claim: Claim)
    requires proved(claim.journal) && Provable(p.sha, claim.journal)
    requires EvaluateClaim(p, st, programId, account, claim).Ok?
    ensures match ClaimStep(p, proved, st, programId, account, claim)
            case Ok(_) => claim.journal.issuedAt + st.maxProofAge < U64_MAX
            case Err(e) => e == BadWindow(ValidityOverflows) && claim.journal.issuedAt + st.maxProofAge >= U64_MAX
  {
    var w, balance := JournalWitness(p.sha, claim.journal);
    WindowContainsIssueTime(claim.journal.issuedAt, claim.journal.expiresAt, st.maxProofAge);
  }

  /** The hidden account behind a journal the circuit can return. */
  lemma JournalWitness(sha: Hash, j: Journal) returns (w: Witness, balance: u128)
    requires Provable(sha, j)
    ensures w.root == j.root && w.context.owner == j.owner && w.context.definitionId == j.definitionId
    ensures ContextHash(sha, w.context) == j.contextHash && w.presenter == j.presenter && w.issuedAt == j.issuedAt
    ensures Holds(sha, w, balance) && balance >= j.threshold > 0
    ensures j.expiresAt.Some? ==> w.issuedAt <= j.expiresAt.value
  {
    w :| Evaluate(sha, w) == Ok(j);
    EvaluateExact(sha, w, j);
    balance :| balance >= w.context.threshold > 0 && Holds(sha, w, balance);
  }

  /**
   * On-chain soundness: a claim is accepted only over a hidden account that meets the gate's policy, within its
   * window.
   */
  lemma ClaimSound(p: Platform, proved: Journal -> bool, st: GateState, programId: Owner, account: Digest, claim: Claim)
      returns (w: Witness, balance: u128)
    requires forall j: Journal :: proved(j) ==> Provable(p.sha, j)
    requires ClaimStep(p, proved, st, programId, account, claim).Ok?
    ensures var window := ClaimStep(p, proved, st, programId, account, claim).value.1.window;
            && w.root == st.root && w.context.owner == st.owner && w.context.definitionId == st.definitionId
            && ContextHash(p.sha, w.context) == st.contextHash
            && Holds(p.sha, w, balance) && balance >= st.threshold > 0
            && w.presenter == claim.journal.presenter
            && window.from <= w.issuedAt < window.until
            && forall t: u64 :: window.from <= t < window.until <==>
                  UsableAt(w.issuedAt, st.expiresAt, st.maxProofAge, t)
  {
    ClaimStepEffect(p, proved, st, programId, account, claim);
    w, balance := JournalWitness(p.sha, claim.journal);
    WindowContainsIssueTime(w.issuedAt, st.expiresAt, st.maxProofAge);
    WindowExact(w.issuedAt, st.expiresAt, st.maxProofAge);
  }
}
