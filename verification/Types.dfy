/** The gate context, the journal, the challenge and the envelope, with their canonical bytes. */
module Types {
  import opened Bytes
  import opened Encoding

  const JOURNAL_VERSION: u16 := 2
  const CHALLENGE_VERSION: u16 := 2

  datatype GateContext = GateContext(
    applicationId: Text,
    gateId: Text,
    owner: Owner,
    definitionId: Digest,
    threshold: u128,
    verifierId: Text,
    expiresAt: Option<u64>)

  datatype Journal = Journal(
    version: u16,
    contextHash: Digest,
    owner: Owner,
    definitionId: Digest,
    threshold: u128,
    root: Digest,
    presenter: Digest,
    issuedAt: u64,
    expiresAt: Option<u64>)

  datatype Challenge = Challenge(
    version: u16,
    contextHash: Digest,
    root: Digest,
    verifierId: Text,
    nonce: Digest,
    issuedAt: u64,
    expiresAt: u64)

  datatype Transport = OnChain | LogosMessaging | Local

  datatype Envelope = Envelope(
    journal: Journal,
    receipt: seq<byte>,
    challenge: Challenge,
    signature: seq<byte>,
    transport: Transport)

  function ContextTokens(c: GateContext): seq<Token> {
    [Fixed(GATE_CONTEXT_TAG), Prefixed(c.applicationId), Prefixed(c.gateId), Fixed(Words(c.owner)),
     Fixed(c.definitionId), Fixed(LittleEndian(c.threshold, 16)), Prefixed(c.verifierId), Moment(c.expiresAt)]
  }

  function JournalTokens(j: Journal): seq<Token> {
    [Fixed(JOURNAL_TAG), Fixed(LittleEndian(j.version, 2)), Fixed(j.contextHash), Fixed(Words(j.owner)),
     Fixed(j.definitionId), Fixed(LittleEndian(j.threshold, 16)), Fixed(j.root), Fixed(j.presenter),
     Fixed(LittleEndian(j.issuedAt, 8)), Moment(j.expiresAt)]
  }

  function ChallengeTokens(c: Challenge): seq<Token> {
    [Fixed(CHALLENGE_TAG), Fixed(LittleEndian(c.version, 2)), Fixed(c.contextHash), Fixed(c.root),
     Prefixed(c.verifierId), Fixed(c.nonce), Fixed(LittleEndian(c.issuedAt, 8)), Fixed(LittleEndian(c.expiresAt, 8))]
  }

  function ContextBytes(c: GateContext): seq<byte> {
    Emit(ContextTokens(c))
  }

  function JournalBytes(j: Journal): seq<byte> {
    Emit(JournalTokens(j))
  }

  function ChallengeBytes(c: Challenge): seq<byte> {
    Emit(ChallengeTokens(c))
  }

  function ContextHash(sha: Hash, c: GateContext): Digest {
    sha(ContextBytes(c))
  }

  function ChallengeDigest(sha: Hash, c: Challenge): Digest {
    sha(ChallengeBytes(c))
  }

  method WriteContext(c: GateContext) returns (bytes: seq<byte>)
    ensures bytes == ContextBytes(c)
  {
    var buffer := new Buffer();
    ghost var goal := ContextTokens(c);
    buffer.Extend(GATE_CONTEXT_TAG);
    buffer.WriteString(c.applicationId);
    assert buffer.tokens == goal[..2];
    buffer.WriteString(c.gateId);
    buffer.WriteWords(c.owner);
    assert buffer.tokens == goal[..4];
    buffer.Extend(c.definitionId);
    buffer.Extend(LittleEndian(c.threshold, 16));
    assert buffer.tokens == goal[..6];
    buffer.WriteString(c.verifierId);
    buffer.WriteMoment(c.expiresAt);
    assert buffer.tokens == goal;
    bytes := buffer.bytes;
  }

  method WriteJournal(j: Journal) returns (bytes: seq<byte>)
    ensures bytes == JournalBytes(j)
  {
    var buffer := new Buffer();
    ghost var goal := JournalTokens(j);
    buffer.Extend(JOURNAL_TAG);
    buffer.Extend(LittleEndian(j.version, 2));
    assert buffer.tokens == goal[..2];
    buffer.Extend(j.contextHash);
    buffer.WriteWords(j.owner);
    assert buffer.tokens == goal[..4];
    buffer.Extend(j.definitionId);
    buffer.Extend(LittleEndian(j.threshold, 16));
    assert buffer.tokens == goal[..6];
    buffer.Extend(j.root);
    buffer.Extend(j.presenter);
    assert buffer.tokens == goal[..8];
    buffer.Extend(LittleEndian(j.issuedAt, 8));
    buffer.WriteMoment(j.expiresAt);
    assert buffer.tokens == goal;
    bytes := buffer.bytes;
  }

  method WriteChallenge(c: Challenge) returns (bytes: seq<byte>)
    ensures bytes == ChallengeBytes(c)
  {
    var buffer := new Buffer();
    ghost var goal := ChallengeTokens(c);
    buffer.Extend(CHALLENGE_TAG);
    buffer.Extend(LittleEndian(c.version, 2));
    assert buffer.tokens == goal[..2];
    buffer.Extend(c.contextHash);
    buffer.Extend(c.root);
    assert buffer.tokens == goal[..4];
    buffer.WriteString(c.verifierId);
    buffer.Extend(c.nonce);
    assert buffer.tokens == goal[..6];
    buffer.Extend(LittleEndian(c.issuedAt, 8));
    buffer.Extend(LittleEndian(c.expiresAt, 8));
    assert buffer.tokens == goal;
    bytes := buffer.bytes;
  }

  lemma ContextTokensInjective(a: GateContext, b: GateContext)
    ensures Shapes(ContextTokens(a)) == Shapes(ContextTokens(b))
    ensures ContextTokens(a) == ContextTokens(b) ==> a == b
  {
    var s, t := ContextTokens(a), ContextTokens(b);
    if s == t {
      assert s[1] == t[1] && s[2] == t[2] && s[3] == t[3] && s[4] == t[4];
      assert s[5] == t[5] && s[6] == t[6] && s[7] == t[7];
      WordsInjective(a.owner, b.owner);
      Widths();
      LittleEndianInjective(a.threshold, b.threshold, 16);
    }
  }

  lemma JournalTokensInjective(a: Journal, b: Journal)
    ensures Shapes(JournalTokens(a)) == Shapes(JournalTokens(b))
    ensures JournalTokens(a) == JournalTokens(b) ==> a == b
  {
    var s, t := JournalTokens(a), JournalTokens(b);
    if s == t {
      assert s[1] == t[1] && s[2] == t[2] && s[3] == t[3] && s[4] == t[4] && s[5] == t[5];
      assert s[6] == t[6] && s[7] == t[7] && s[8] == t[8] && s[9] == t[9];
      WordsInjective(a.owner, b.owner);
      Widths();
      LittleEndianInjective(a.version, b.version, 2);
      LittleEndianInjective(a.threshold, b.threshold, 16);
      LittleEndianInjective(a.issuedAt, b.issuedAt, 8);
    }
  }

  lemma ChallengeTokensInjective(a: Challenge, b: Challenge)
    ensures Shapes(ChallengeTokens(a)) == Shapes(ChallengeTokens(b))
    ensures ChallengeTokens(a) == ChallengeTokens(b) ==> a == b
  {
    var s, t := ChallengeTokens(a), ChallengeTokens(b);
    if s == t {
      assert s[1] == t[1] && s[2] == t[2] && s[3] == t[3] && s[4] == t[4];
      assert s[5] == t[5] && s[6] == t[6] && s[7] == t[7];
      Widths();
      LittleEndianInjective(a.version, b.version, 2);
      LittleEndianInjective(a.issuedAt, b.issuedAt, 8);
      LittleEndianInjective(a.expiresAt, b.expiresAt, 8);
    }
  }

  /** Whatever follows them, equal context bytes come from one context. */
  lemma ContextPrefixFree(a: GateContext, b: GateContext, x: seq<byte>, y: seq<byte>)
    requires ContextBytes(a) + x == ContextBytes(b) + y
    ensures a == b && x == y
  {
    ContextTokensInjective(a, b);
    PrefixFree(ContextTokens(a), ContextTokens(b), x, y);
  }

  lemma JournalPrefixFree(a: Journal, b: Journal, x: seq<byte>, y: seq<byte>)
    requires JournalBytes(a) + x == JournalBytes(b) + y
    ensures a == b && x == y
  {
    JournalTokensInjective(a, b);
    PrefixFree(JournalTokens(a), JournalTokens(b), x, y);
  }

  lemma ChallengePrefixFree(a: Challenge, b: Challenge, x: seq<byte>, y: seq<byte>)
    requires ChallengeBytes(a) + x == ChallengeBytes(b) + y
    ensures a == b && x == y
  {
    ChallengeTokensInjective(a, b);
    PrefixFree(ChallengeTokens(a), ChallengeTokens(b), x, y);
  }

  /** A context hash names one context, or the two contexts' bytes are a collision. */
  lemma ContextHashBinds(sha: Hash, a: GateContext, b: GateContext)
    requires ContextHash(sha, a) == ContextHash(sha, b)
    ensures a == b || Collides(sha, ContextBytes(a), ContextBytes(b))
  {
    if ContextBytes(a) == ContextBytes(b) {
      ContextPrefixFree(a, b, [], []);
    }
  }

  lemma ChallengeDigestBinds(sha: Hash, a: Challenge, b: Challenge)
    requires ChallengeDigest(sha, a) == ChallengeDigest(sha, b)
    ensures a == b || Collides(sha, ChallengeBytes(a), ChallengeBytes(b))
  {
    if ChallengeBytes(a) == ChallengeBytes(b) {
      ChallengePrefixFree(a, b, [], []);
    }
  }
}
