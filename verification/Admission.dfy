/** Challenges that admit one member to one chat group: half of the nonce is a hash of both. */
module Admission {
  import opened Bytes
  import opened Encoding
  import opened Types

  function AdmissionTokens(c: Challenge, prefix: seq<byte>, group: Text, member: Text): seq<Token> {
    [Fixed(ADMISSION_TAG), Fixed(LittleEndian(c.version, 2)), Fixed(c.contextHash), Prefixed(c.verifierId),
     Fixed(LittleEndian(c.issuedAt, 8)), Fixed(LittleEndian(c.expiresAt, 8)), Fixed(prefix), Prefixed(group),
     Prefixed(member)]
  }

  function AdmissionPreimage(c: Challenge, group: Text, member: Text): seq<byte> {
    Emit(AdmissionTokens(c, c.nonce[..16], group, member))
  }

  method WriteAdmissionPreimage(c: Challenge, group: Text, member: Text) returns (bytes: seq<byte>)
    ensures bytes == AdmissionPreimage(c, group, member)
  {
    var buffer := new Buffer();
    ghost var goal := AdmissionTokens(c, c.nonce[..16], group, member);
    buffer.Extend(ADMISSION_TAG);
    buffer.Extend(LittleEndian(c.version, 2));
    assert buffer.tokens == goal[..2];
    buffer.Extend(c.contextHash);
    buffer.WriteString(c.verifierId);
    assert buffer.tokens == goal[..4];
    buffer.Extend(LittleEndian(c.issuedAt, 8));
    buffer.Extend(LittleEndian(c.expiresAt, 8));
    assert buffer.tokens == goal[..6];
    buffer.Extend(c.nonce[..16]);
    buffer.WriteString(group);
    buffer.WriteString(member);
    assert buffer.tokens == goal;
    bytes := buffer.bytes;
  }

  function Bind(sha: Hash, c: Challenge, group: Text, member: Text): Challenge {
    c.(nonce := c.nonce[..16] + sha(AdmissionPreimage(c, group, member))[..16])
  }

  predicate Matches(sha: Hash, c: Challenge, group: Text, member: Text) {
    c.nonce[16..] == sha(AdmissionPreimage(c, group, member))[..16]
  }

  /**
   * A bound challenge matches its group and member, binding twice is binding once, and only half of the nonce
   * changes.
   */
  lemma BoundChallengeMatches(sha: Hash, c: Challenge, group: Text, member: Text)
    ensures var bound := Bind(sha, c, group, member);
            && Matches(sha, bound, group, member)
            && Bind(sha, bound, group, member) == bound
            && bound.nonce[..16] == c.nonce[..16] && bound == c.(nonce := bound.nonce)
    ensures Matches(sha, c, group, member) <==> Bind(sha, c, group, member) == c
  {
    var bound := Bind(sha, c, group, member);
    assert bound.nonce[..16] == c.nonce[..16];
    assert AdmissionTokens(bound, bound.nonce[..16], group, member) == AdmissionTokens(c, c.nonce[..16], group, member);
    assert c.nonce == c.nonce[..16] + c.nonce[16..];
    assert bound.nonce[16..] == sha(AdmissionPreimage(c, group, member))[..16];
  }

  lemma AdmissionPreimageInjective(c: Challenge, d: Challenge, group: Text, group': Text, member: Text, member': Text)
    requires AdmissionPreimage(c, group, member) == AdmissionPreimage(d, group', member')
    ensures group == group' && member == member' && c.nonce[..16] == d.nonce[..16]
    ensures c.version == d.version && c.contextHash == d.contextHash && c.verifierId == d.verifierId
    ensures c.issuedAt == d.issuedAt && c.expiresAt == d.expiresAt
  {
    var s, t := AdmissionTokens(c, c.nonce[..16], group, member), AdmissionTokens(d, d.nonce[..16], group', member');
    assert s == t by {
      AdmissionShapes(c, d, c.nonce[..16], d.nonce[..16], group, group', member, member');
      PrefixFree(s, t, [], []);
    }
    AdmissionTokensInjective(c, d, c.nonce[..16], d.nonce[..16], group, group', member, member');
  }

  lemma AdmissionShapes(
      c: Challenge, d: Challenge, x: seq<byte>, y: seq<byte>, group: Text, group': Text, member: Text, member': Text)
    requires |x| == |y|
    ensures Shapes(AdmissionTokens(c, x, group, member)) == Shapes(AdmissionTokens(d, y, group', member'))
  {
  }

  lemma AdmissionTokensInjective(
      c: Challenge, d: Challenge, x: seq<byte>, y: seq<byte>, group: Text, group': Text, member: Text, member': Text)
    requires AdmissionTokens(c, x, group, member) == AdmissionTokens(d, y, group', member')
    ensures group == group' && member == member' && x == y
    ensures c.version == d.version && c.contextHash == d.contextHash && c.verifierId == d.verifierId
    ensures c.issuedAt == d.issuedAt && c.expiresAt == d.expiresAt
  {
    var s, t := AdmissionTokens(c, x, group, member), AdmissionTokens(d, y, group', member');
    assert s[1] == t[1] && s[2] == t[2] && s[3] == t[3] && s[4] == t[4] && s[5] == t[5];
    assert s[6] == t[6] && s[7] == t[7] && s[8] == t[8];
    Widths();
    LittleEndianInjective(c.version, d.version, 2);
    LittleEndianInjective(c.issuedAt, d.issuedAt, 8);
    LittleEndianInjective(c.expiresAt, d.expiresAt, 8);
  }

  /** A challenge that matches two memberships exhibits two different inputs whose hashes agree on 16 bytes. */
  lemma OneMembership(sha: Hash, c: Challenge, group: Text, group': Text, member: Text, member': Text)
    requires Matches(sha, c, group, member) && Matches(sha, c, group', member')
    requires group != group' || member != member'
    ensures AdmissionPreimage(c, group, member) != AdmissionPreimage(c, group', member')
    ensures sha(AdmissionPreimage(c, group, member))[..16] == sha(AdmissionPreimage(c, group', member'))[..16]
  {
    if AdmissionPreimage(c, group, member) == AdmissionPreimage(c, group', member') {
      AdmissionPreimageInjective(c, c, group, group', member, member');
    }
  }
}
