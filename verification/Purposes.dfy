/** Every byte string that is hashed or signed begins with the tag of its purpose, so none serves two purposes. */
module Purposes {
  import opened Bytes
  import opened Encoding
  import opened Types
  import opened Verifier
  import opened OnChainGate
  import opened Admission

  /** The byte string was made for this purpose. */
  ghost predicate MadeFor(d: Domain, bytes: seq<byte>) {
    exists rest :: bytes == Tag(d) + rest
  }

  /** A hash made for one purpose serves no other: equal hashes of byte strings for two purposes are a collision. */
  lemma PurposesSeparate(sha: Hash, d: Domain, e: Domain, a: seq<byte>, b: seq<byte>)
    requires d != e && MadeFor(d, a) && MadeFor(e, b)
    ensures a != b
    ensures sha(a) == sha(b) ==> Collides(sha, a, b)
  {
    var x :| a == Tag(d) + x;
    var y :| b == Tag(e) + y;
    DomainSeparation(d, e, x, y);
  }

  lemma FirstTokenLeads(d: Domain, ts: seq<Token>)
    requires ts != [] && ts[0] == Fixed(Tag(d))
    ensures MadeFor(d, Emit(ts))
  {
    assert Emit(ts) == Tag(d) + Emit(ts[1..]);
  }

  lemma ContextPurpose(c: GateContext)
    ensures MadeFor(GateContextTag, ContextBytes(c))
  {
    FirstTokenLeads(GateContextTag, ContextTokens(c));
  }

  lemma JournalPurpose(j: Journal)
    ensures MadeFor(JournalTag, JournalBytes(j))
  {
    FirstTokenLeads(JournalTag, JournalTokens(j));
  }

  lemma ChallengePurpose(c: Challenge)
    ensures MadeFor(ChallengeTag, ChallengeBytes(c))
  {
    FirstTokenLeads(ChallengeTag, ChallengeTokens(c));
  }

  lemma OnChainChallengePurpose(c: OnChainChallenge)
    ensures MadeFor(OnChainChallengeTag, OnChainBytes(c))
  {
    FirstTokenLeads(OnChainChallengeTag, OnChainTokens(c));
  }

  lemma AdmissionPurpose(c: Challenge, group: Text, member: Text)
    ensures MadeFor(AdmissionTag, AdmissionPreimage(c, group, member))
  {
    FirstTokenLeads(AdmissionTag, AdmissionTokens(c, c.nonce[..16], group, member));
  }

  lemma PresentationPurpose(sha: Hash, c: Challenge, receipt: seq<byte>)
    ensures MadeFor(PresentationTag, PresentationPreimage(sha, c, receipt))
  {
    assert PresentationPreimage(sha, c, receipt) == Tag(PresentationTag) + (ChallengeBytes(c) + sha(receipt));
  }

  lemma ClaimPurpose(c: OnChainChallenge, j: Journal)
    ensures MadeFor(OnChainPresentationTag, ClaimPreimage(c, j))
  {
    assert ClaimPreimage(c, j) == Tag(OnChainPresentationTag) + (OnChainBytes(c) + (Words(IMAGE_ID) + JournalBytes(j)));
  }

  lemma RotationPurpose(nonce: Digest, signature: seq<byte>)
    ensures MadeFor(OnChainNonceTag, RotationPreimage(nonce, signature))
  {
    Associative(ON_CHAIN_NONCE_TAG, nonce, signature);
    assert RotationPreimage(nonce, signature) == Tag(OnChainNonceTag) + (nonce + signature);
  }

  /** A signature for a presentation signs no claim, and the other way round, or the two preimages collide. */
  lemma SignaturesDoNotCross(sha: Hash, c: Challenge, receipt: seq<byte>, d: OnChainChallenge, j: Journal)
    requires PresentationMessage(sha, c, receipt) == ClaimMessage(sha, d, j)
    ensures Collides(sha, PresentationPreimage(sha, c, receipt), ClaimPreimage(d, j))
  {
    PresentationPurpose(sha, c, receipt);
    ClaimPurpose(d, j);
    PurposesSeparate(sha, PresentationTag, OnChainPresentationTag, PresentationPreimage(sha, c, receipt),
                     ClaimPreimage(d, j));
  }

  // ----- All of them together -----

  /** A preimage, by what it is made for. */
  datatype Preimage =
    | OfContext(context: GateContext)
    | OfJournal(journal: Journal)
    | OfChallenge(challenge: Challenge)
    | OfPresentation(presented: Challenge, receipt: seq<byte>)
    | OfOnChainChallenge(onChain: OnChainChallenge)
    | OfClaim(answered: OnChainChallenge, claimed: Journal)
    | OfRotation(nonce: Digest, signature: seq<byte>)
    | OfAdmission(admitting: Challenge, group: Text, member: Text)

  function BytesOf(sha: Hash, x: Preimage): seq<byte> {
    match x
    case OfContext(c) => ContextBytes(c)
    case OfJournal(j) => JournalBytes(j)
    case OfChallenge(c) => ChallengeBytes(c)
    case OfPresentation(c, receipt) => PresentationPreimage(sha, c, receipt)
    case OfOnChainChallenge(c) => OnChainBytes(c)
    case OfClaim(c, j) => ClaimPreimage(c, j)
    case OfRotation(nonce, signature) => RotationPreimage(nonce, signature)
    case OfAdmission(c, group, member) => AdmissionPreimage(c, group, member)
  }

  function PurposeOf(x: Preimage): Domain {
    match x
    case OfContext(_) => GateContextTag
    case OfJournal(_) => JournalTag
    case OfChallenge(_) => ChallengeTag
    case OfPresentation(_, _) => PresentationTag
    case OfOnChainChallenge(_) => OnChainChallengeTag
    case OfClaim(_, _) => OnChainPresentationTag
    case OfRotation(_, _) => OnChainNonceTag
    case OfAdmission(_, _, _) => AdmissionTag
  }

  /** Each preimage is made for its purpose. */
  lemma PreimagePurpose(sha: Hash, x: Preimage)
    ensures MadeFor(PurposeOf(x), BytesOf(sha, x))
  {
    match x
    case OfContext(c) => ContextPurpose(c);
    case OfJournal(j) => JournalPurpose(j);
    case OfChallenge(c) => ChallengePurpose(c);
    case OfPresentation(c, receipt) => PresentationPurpose(sha, c, receipt);
    case OfOnChainChallenge(c) => OnChainChallengePurpose(c);
    case OfClaim(c, j) => ClaimPurpose(c, j);
    case OfRotation(nonce, signature) => RotationPurpose(nonce, signature);
    case OfAdmission(c, group, member) => AdmissionPurpose(c, group, member);
  }

  /** What two preimages with one byte string have in common: everything they cover, short of a receipt collision. */
  predicate SameContent(sha: Hash, x: Preimage, y: Preimage) {
    match (x, y)
    case (OfPresentation(c, r), OfPresentation(d, s)) => c == d && (r == s || Collides(sha, r, s))
    case (OfAdmission(c, g, m), OfAdmission(d, h, n)) => g == h && m == n && c.(nonce := d.nonce, root := d.root) == d
                                                         && c.nonce[..16] == d.nonce[..16]
    case _ => x == y
  }

  /** One byte string, one purpose and one content: the encodings taken together are injective. */
  lemma BytesDetermineContent(sha: Hash, x: Preimage, y: Preimage)
    requires BytesOf(sha, x) == BytesOf(sha, y)
    ensures PurposeOf(x) == PurposeOf(y) && SameContent(sha, x, y)
  {
    PreimagePurpose(sha, x);
    PreimagePurpose(sha, y);
    if PurposeOf(x) != PurposeOf(y) {
      PurposesSeparate(sha, PurposeOf(x), PurposeOf(y), BytesOf(sha, x), BytesOf(sha, y));
    }
    SamePurposeSameContent(sha, x, y);
  }

  lemma SamePurposeSameContent(sha: Hash, x: Preimage, y: Preimage)
    requires BytesOf(sha, x) == BytesOf(sha, y) && PurposeOf(x) == PurposeOf(y)
    ensures SameContent(sha, x, y)
  {
    match x
    case OfPresentation(c, receipt) => PresentationPreimageBinds(sha, c, y.presented, receipt, y.receipt);
    case OfAdmission(c, group, member) =>
      AdmissionPreimageInjective(c, y.admitting, group, y.group, member, y.member);
    case OfRotation(nonce, signature) => RotationInjective(nonce, y.nonce, signature, y.signature);
    case OfClaim(c, j) => ClaimPreimageInjective(c, y.answered, j, y.claimed);
    case _ => EncodedInjective(sha, x, y);
  }

  lemma EncodedInjective(sha: Hash, x: Preimage, y: Preimage)
    requires BytesOf(sha, x) == BytesOf(sha, y) && PurposeOf(x) == PurposeOf(y)
    requires x.OfContext? || x.OfJournal? || x.OfChallenge? || x.OfOnChainChallenge?
    ensures x == y
  {
    match x
    case OfContext(c) => ContextPrefixFree(c, y.context, [], []);
    case OfJournal(j) => JournalPrefixFree(j, y.journal, [], []);
    case OfChallenge(c) => ChallengePrefixFree(c, y.challenge, [], []);
    case OfOnChainChallenge(c) => OnChainPrefixFree(c, y.onChain, [], []);
  }

  lemma RotationInjective(a: Digest, b: Digest, s: seq<byte>, t: seq<byte>)
    requires RotationPreimage(a, s) == RotationPreimage(b, t)
    ensures a == b && s == t
  {
    SplitRotation(ON_CHAIN_NONCE_TAG, a, b, s, t);
  }
}
