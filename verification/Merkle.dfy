/** Private accounts, their commitments, and membership of a commitment under a Merkle root. */
module Merkle {
  import opened Bytes
  import opened Encoding

  datatype Account = Account(id: Digest, owner: Owner, balance: u128, nonce: u128, data: seq<byte>)

  const COMMITMENT_PREFIX: seq<byte> := Ascii("/LEE/v0.3/Commitment/") + [0, 0, 0, 0, 0, 0, 0, 0, 0, 0, 0]

  function AccountTokens(sha: Hash, a: Account): seq<Token> {
    [Fixed(COMMITMENT_PREFIX), Fixed(a.id), Fixed(Words(a.owner)), Fixed(LittleEndian(a.balance, 16)),
     Fixed(LittleEndian(a.nonce, 16)), Fixed(sha(a.data))]
  }

  function CommitmentPreimage(sha: Hash, a: Account): seq<byte> {
    Emit(AccountTokens(sha, a))
  }

  function Commitment(sha: Hash, a: Account): Digest {
    sha(CommitmentPreimage(sha, a))
  }

  /** Overwrites part of a buffer whose first `at` bytes are already final. */
  method CopyAt(buffer: array<byte>, at: nat, slice: seq<byte>)
    requires at + |slice| <= buffer.Length
    modifies buffer
    ensures buffer[..at + |slice|] == old(buffer[..at]) + slice
  {
    for i := 0 to |slice|
      invariant buffer[..at + i] == old(buffer[..at]) + slice[..i]
    {
      buffer[at + i] := slice[i];
    }
    assert slice[..|slice|] == slice;
  }

  method CopyWordsAt(buffer: array<byte>, at: nat, owner: Owner)
    requires at + 32 <= buffer.Length
    modifies buffer
    ensures buffer[..at + 32] == old(buffer[..at]) + Words(owner)
  {
    for i := 0 to 8
      invariant buffer[..at + 4 * i] == old(buffer[..at]) + Words(owner[..i])
    {
      assert owner[..i + 1] == owner[..i] + [owner[i]];
      WordsOne(owner[..i], owner[i]);
      Associative(old(buffer[..at]), Words(owner[..i]), LittleEndian(owner[i], 4));
      CopyAt(buffer, at + 4 * i, LittleEndian(owner[i], 4));
    }
    assert owner[..8] == owner;
  }

  /** The fields after the prefix, each in its place. */
  method FillFields(sha: Hash, a: Account, buffer: array<byte>)
    requires buffer.Length == 160
    modifies buffer
    ensures buffer[..160] ==
            old(buffer[..32]) + a.id + Words(a.owner) + LittleEndian(a.balance, 16) + LittleEndian(a.nonce, 16)
            + sha(a.data)
  {
    CopyAt(buffer, 32, a.id);
    CopyWordsAt(buffer, 64, a.owner);
    CopyAt(buffer, 96, LittleEndian(a.balance, 16));
    CopyAt(buffer, 112, LittleEndian(a.nonce, 16));
    CopyAt(buffer, 128, sha(a.data));
  }

  /** The 160 bytes are filled in place, field by field. */
  method FillPreimage(sha: Hash, a: Account) returns (buffer: array<byte>)
    ensures buffer[..] == CommitmentPreimage(sha, a) && buffer.Length == 160
  {
    buffer := new byte[160](_ => 0);
    CopyAt(buffer, 0, COMMITMENT_PREFIX);
    assert buffer[..32] == COMMITMENT_PREFIX;
    FillFields(sha, a, buffer);
    assert buffer[..] == buffer[..160];
    PreimageParts(sha, a);
  }

  lemma PreimageParts(sha: Hash, a: Account)
    ensures CommitmentPreimage(sha, a) ==
            COMMITMENT_PREFIX + a.id + Words(a.owner) + LittleEndian(a.balance, 16) + LittleEndian(a.nonce, 16)
            + sha(a.data)
  {
    var t := AccountTokens(sha, a);
    EmitOne([], t[0]);
    EmitOne([t[0]], t[1]);
    EmitOne([t[0], t[1]], t[2]);
    EmitOne([t[0], t[1], t[2]], t[3]);
    EmitOne([t[0], t[1], t[2], t[3]], t[4]);
    EmitOne([t[0], t[1], t[2], t[3], t[4]], t[5]);
    assert [] + [t[0]] == [t[0]];
    assert [t[0]] + [t[1]] == [t[0], t[1]];
    assert [t[0], t[1]] + [t[2]] == [t[0], t[1], t[2]];
    assert [t[0], t[1], t[2]] + [t[3]] == [t[0], t[1], t[2], t[3]];
    assert [t[0], t[1], t[2], t[3]] + [t[4]] == [t[0], t[1], t[2], t[3], t[4]];
    assert [t[0], t[1], t[2], t[3], t[4]] + [t[5]] == t;
    assert Emit([]) + COMMITMENT_PREFIX == COMMITMENT_PREFIX;
  }

  /** A commitment fixes every field of the account, its data included, or one of two named pairs collides. */
  lemma CommitmentBinds(sha: Hash, a: Account, b: Account)
    requires Commitment(sha, a) == Commitment(sha, b)
    ensures a == b
         || Collides(sha, CommitmentPreimage(sha, a), CommitmentPreimage(sha, b))
         || Collides(sha, a.data, b.data)
  {
    if CommitmentPreimage(sha, a) == CommitmentPreimage(sha, b) {
      var s, t := AccountTokens(sha, a), AccountTokens(sha, b);
      assert Shapes(s) == Shapes(t);
      PrefixFree(s, t, [], []);
      assert s[1] == t[1] && s[2] == t[2] && s[3] == t[3] && s[4] == t[4] && s[5] == t[5];
      WordsInjective(a.owner, b.owner);
      Widths();
      LittleEndianInjective(a.balance, b.balance, 16);
      LittleEndianInjective(a.nonce, b.nonce, 16);
    }
  }

  // ----- Token holdings -----

  datatype Holding = Holding(definitionId: Digest, balance: u128)

  datatype HoldingError = InvalidLength(actual: nat) | NotFungible(variant: byte)

  function EncodeHolding(h: Holding): seq<byte> {
    [0] + h.definitionId + LittleEndian(h.balance, 16)
  }

  function DecodeHolding(bytes: seq<byte>): Result<Holding, HoldingError> {
    if |bytes| != 49 then Err(InvalidLength(|bytes|))
    else if bytes[0] != 0 then Err(NotFungible(bytes[0]))
    else
      assert FromLittleEndian(bytes[33..49]) < 0x1_0000_0000_0000_0000_0000_0000_0000_0000 by {
        FromLittleEndianRoundTrip(bytes[33..49]);
        Widths();
      }
      Ok(Holding(bytes[1..33], FromLittleEndian(bytes[33..49])))
  }

  /** Encoding and decoding are inverse to each other, in both directions. */
  lemma HoldingRoundTrip(h: Holding, bytes: seq<byte>)
    ensures DecodeHolding(bytes) == Ok(h) <==> bytes == EncodeHolding(h)
  {
    EncodedHoldingDecodes(h);
    if DecodeHolding(bytes) == Ok(h) { DecodedHoldingEncodes(bytes); }
  }

  lemma EncodedHoldingDecodes(h: Holding)
    ensures DecodeHolding(EncodeHolding(h)) == Ok(h)
  {
    var e := EncodeHolding(h);
    Widths();
    LittleEndianRoundTrip(h.balance, 16);
    assert e[1..33] == h.definitionId && e[33..49] == LittleEndian(h.balance, 16);
  }

  lemma DecodedHoldingEncodes(bytes: seq<byte>)
    requires DecodeHolding(bytes).Ok?
    ensures EncodeHolding(DecodeHolding(bytes).value) == bytes
  {
    FromLittleEndianRoundTrip(bytes[33..49]);
    assert bytes == [bytes[0]] + bytes[1..33] + bytes[33..49];
  }

  // ----- Membership -----

  function PairUp(bit: nat, current: Digest, sibling: Digest): seq<byte> {
    if bit == 0 then current + sibling else sibling + current
  }

  /** The walk from a leaf hash to the root; the lowest index bit belongs to the lowest level. */
  function Fold(sha: Hash, start: Digest, index: nat, siblings: seq<Digest>): Digest
    decreases siblings
  {
    if siblings == [] then start
    else Fold(sha, sha(PairUp(index % 2, start, siblings[0])), index / 2, siblings[1..])
  }

  method ComputeRoot(sha: Hash, commitment: Digest, index: nat, siblings: seq<Digest>) returns (root: Digest)
    ensures root == Fold(sha, sha(commitment), index, siblings)
  {
    root := sha(commitment);
    var level := index;
    for i := 0 to |siblings|
      invariant Fold(sha, root, level, siblings[i..]) == Fold(sha, sha(commitment), index, siblings)
    {
      var pair: seq<byte>;
      if level % 2 == 0 {
        pair := root + siblings[i];
      } else {
        pair := siblings[i] + root;
      }
      assert siblings[i..][1..] == siblings[i + 1..];
      root := sha(pair);
      level := level / 2;
    }
  }

  predicate Verifies(sha: Hash, commitment: Digest, index: nat, siblings: seq<Digest>, root: Digest) {
    Fold(sha, sha(commitment), index, siblings) == root
  }

  function Bit(index: nat, k: nat): nat {
    if k == 0 then index % 2 else Bit(index / 2, k - 1)
  }

  function Pow2(k: nat): (p: nat)
    ensures p > 0
  {
    if k == 0 then 1 else 2 * Pow2(k - 1)
  }

  /** The last sibling is hashed last, on the side its index bit says. */
  lemma {:induction false} FoldLast(sha: Hash, start: Digest, index: nat, front: seq<Digest>, last: Digest)
    ensures Fold(sha, start, index, front + [last])
         == sha(PairUp(Bit(index, |front|), Fold(sha, start, index, front), last))
    decreases front
  {
    if front == [] {
      assert front + [last] == [last];
      assert [last][1..] == [];
    } else {
      assert (front + [last])[1..] == front[1..] + [last];
      FoldLast(sha, sha(PairUp(index % 2, start, front[0])), index / 2, front[1..], last);
    }
  }

  function LowBits(index: nat, k: nat): nat {
    if k == 0 then 0 else index % 2 + 2 * LowBits(index / 2, k - 1)
  }

  function HighBits(index: nat, k: nat): nat {
    if k == 0 then index else HighBits(index / 2, k - 1)
  }

  lemma {:induction false} SplitBits(index: nat, k: nat)
    ensures LowBits(index, k) < Pow2(k) && index == HighBits(index, k) * Pow2(k) + LowBits(index, k)
  {
    if k == 0 {
    } else {
      SplitBits(index / 2, k - 1);
      var p, h := Pow2(k - 1), HighBits(index / 2, k - 1);
      Double(h, p);
      var x := h * p;
      assert index == 2 * x + 2 * LowBits(index / 2, k - 1) + index % 2;
    }
  }

  lemma Double(h: nat, p: nat)
    ensures h * (2 * p) == 2 * (h * p)
  {
  }

  lemma {:induction false} FoldReadsLowBits(sha: Hash, start: Digest, index: nat, siblings: seq<Digest>)
    ensures Fold(sha, start, index, siblings) == Fold(sha, start, LowBits(index, |siblings|), siblings)
    decreases siblings
  {
    if siblings == [] {
    } else {
      FoldReadsLowBits(sha, sha(PairUp(index % 2, start, siblings[0])), index / 2, siblings[1..]);
      var low := LowBits(index, |siblings|);
      assert low % 2 == index % 2 && low / 2 == LowBits(index / 2, |siblings| - 1);
    }
  }

  /** Index bits above the tree are ignored. */
  lemma OnlyLowIndexBitsMatter(sha: Hash, start: Digest, index: nat, siblings: seq<Digest>)
    ensures Fold(sha, start, index, siblings) == Fold(sha, start, index % Pow2(|siblings|), siblings)
  {
    var k := |siblings|;
    FoldReadsLowBits(sha, start, index, siblings);
    SplitBits(index, k);
    Regroup(HighBits(index, k), LowBits(index, k), Pow2(k));
  }

  // ----- Trees -----

  datatype Tree = Leaf(commitment: Digest) | Node(left: Tree, right: Tree)

  function Root(sha: Hash, t: Tree): Digest {
    match t
    case Leaf(c) => sha(c)
    case Node(l, r) => sha(Root(sha, l) + Root(sha, r))
  }

  function Leaves(t: Tree): set<Digest> {
    match t
    case Leaf(c) => {c}
    case Node(l, r) => Leaves(l) + Leaves(r)
  }

  function Child(t: Tree, bit: nat): Tree
    requires t.Node?
  {
    if bit == 0 then t.left else t.right
  }

  /** The subtree reached by following the low `depth` index bits from the top. */
  function Descend(t: Tree, index: nat, depth: nat): Option<Tree>
    decreases depth
  {
    if depth == 0 then Some(t)
    else if t.Leaf? then None
    else Descend(Child(t, Bit(index, depth - 1)), index, depth - 1)
  }

  /** The sibling roots beside a path, lowest first. */
  function Siblings(sha: Hash, t: Tree, index: nat, depth: nat): (s: seq<Digest>)
    requires Descend(t, index, depth).Some?
    ensures |s| == depth
    decreases depth
  {
    if depth == 0 then []
    else
      var bit := Bit(index, depth - 1);
      Siblings(sha, Child(t, bit), index, depth - 1) + [Root(sha, Child(t, 1 - (if bit == 0 then 0 else 1)))]
  }

  lemma {:induction false} BitIsBinary(index: nat, k: nat)
    ensures Bit(index, k) < 2
  {
    if k == 0 {
    } else {
      BitIsBinary(index / 2, k - 1);
    }
  }

  /** A path read off a tree verifies against the tree's root. */
  lemma {:induction false} PathVerifies(sha: Hash, t: Tree, index: nat, depth: nat, c: Digest)
    requires Descend(t, index, depth) == Some(Leaf(c))
    ensures Verifies(sha, c, index, Siblings(sha, t, index, depth), Root(sha, t))
    decreases depth
  {
    if depth == 0 {
    } else {
      var bit := Bit(index, depth - 1);
      BitIsBinary(index, depth - 1);
      var child := Child(t, bit);
      PathVerifies(sha, child, index, depth - 1, c);
      FoldLast(sha, sha(c), index, Siblings(sha, child, index, depth - 1), Root(sha, Child(t, 1 - bit)));
    }
  }

  /** Where a proof that verifies first disagrees with the tree, if it does: two inputs hashed to one node. */
  function Clash(sha: Hash, t: Tree, c: Digest, index: nat, siblings: seq<Digest>): Option<(seq<byte>, seq<byte>)>
    decreases |siblings|
  {
    if siblings == [] then
      match t
      case Leaf(d) => if c == d then None else Some((c, d))
      case Node(l, r) => Some((c, Root(sha, l) + Root(sha, r)))
    else
      var n := |siblings| - 1;
      var bit := Bit(index, n);
      var input := PairUp(bit, Fold(sha, sha(c), index, siblings[..n]), siblings[n]);
      match t
      case Leaf(d) => Some((input, d))
      case Node(l, r) =>
        if input != Root(sha, l) + Root(sha, r) then Some((input, Root(sha, l) + Root(sha, r)))
        else Clash(sha, Child(t, bit), c, index, siblings[..n])
  }

  /** A proof of any length that verifies leads to a leaf with that commitment, or the clash is a collision. */
  lemma {:induction false} MembershipSound(sha: Hash, t: Tree, c: Digest, index: nat, siblings: seq<Digest>)
    requires Verifies(sha, c, index, siblings, Root(sha, t))
    ensures match Clash(sha, t, c, index, siblings)
            case None => Descend(t, index, |siblings|) == Some(Leaf(c))
            case Some((a, b)) => Collides(sha, a, b)
    decreases |siblings|
  {
    if siblings == [] {
    } else {
      var n := |siblings| - 1;
      var front, bit := siblings[..n], Bit(index, n);
      assert siblings == front + [siblings[n]];
      FoldLast(sha, sha(c), index, front, siblings[n]);
      var below := Fold(sha, sha(c), index, front);
      var input := PairUp(bit, below, siblings[n]);
      if t.Node? && input == Root(sha, t.left) + Root(sha, t.right) {
        assert input[..32] == Root(sha, t.left) && input[32..] == Root(sha, t.right);
        assert below == Root(sha, Child(t, bit)) by {
          assert below == if bit == 0 then input[..32] else input[32..];
        }
        MembershipSound(sha, Child(t, bit), c, index, front);
      }
    }
  }

  lemma {:induction false} DescendReachesLeaves(t: Tree, index: nat, depth: nat, c: Digest)
    requires Descend(t, index, depth) == Some(Leaf(c))
    ensures c in Leaves(t)
    decreases depth
  {
    if depth == 0 {
    } else {
      DescendReachesLeaves(Child(t, Bit(index, depth - 1)), index, depth - 1, c);
    }
  }

  /** Adding a bit above the path does not disturb the path. */
  lemma {:induction false} HighBit(index: nat, depth: nat, bit: nat, k: nat)
    requires index < Pow2(depth) && bit < 2 && k <= depth
    ensures Bit(index + bit * Pow2(depth), k) == if k == depth then bit else Bit(index, k)
  {
    if depth == 0 {
    } else {
      var p := Pow2(depth - 1);
      assert bit * Pow2(depth) == 2 * (bit * p);
      assert (index + bit * Pow2(depth)) / 2 == index / 2 + bit * p;
      assert (index + bit * Pow2(depth)) % 2 == index % 2;
      if k > 0 { HighBit(index / 2, depth - 1, bit, k - 1); }
    }
  }

  lemma {:induction false} DescendIgnoresHighBit(t: Tree, index: nat, depth: nat, bit: nat, k: nat)
    requires index < Pow2(depth) && bit < 2 && k <= depth
    ensures Descend(t, index + bit * Pow2(depth), k) == Descend(t, index, k)
    decreases k
  {
    if k == 0 || t.Leaf? {
    } else {
      HighBit(index, depth, bit, k - 1);
      DescendIgnoresHighBit(Child(t, Bit(index, k - 1)), index, depth, bit, k - 1);
    }
  }

  /** Every leaf has an index, so by PathVerifies every leaf has a proof. */
  lemma {:induction false} LeafHasIndex(t: Tree, c: Digest) returns (index: nat, depth: nat)
    requires c in Leaves(t)
    ensures index < Pow2(depth) && Descend(t, index, depth) == Some(Leaf(c))
  {
    match t
    case Leaf(_) =>
      index, depth := 0, 0;
    case Node(l, r) =>
      var bit := if c in Leaves(l) then 0 else 1;
      var i, d := LeafHasIndex(Child(t, bit), c);
      index, depth := i + bit * Pow2(d), d + 1;
      HighBit(i, d, bit, d);
      DescendIgnoresHighBit(Child(t, bit), i, d, bit, d);
  }
}
