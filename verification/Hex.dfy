/** Hexadecimal text of digests and program identifiers, and sorted lists of such text. */
module Hex {
  import opened Bytes

  function Nibble(v: int): byte
    requires 0 <= v < 16
  {
    if v < 10 then 48 + v else 97 + v - 10
  }

  function HexDigit(c: byte): Option<int> {
    if 48 <= c <= 57 then Some(c - 48)
    else if 97 <= c <= 102 then Some(c - 97 + 10)
    else if 65 <= c <= 70 then Some(c - 65 + 10)
    else None
  }

  /** Two lower-case digits a byte, high nibble first. */
  function ToHex(bytes: seq<byte>): (s: Str)
    ensures |s| == 2 * |bytes|
  {
    if bytes == [] then []
    else
      var n := |bytes| - 1;
      ToHex(bytes[..n]) + [Nibble(bytes[n] / 16), Nibble(bytes[n] % 16)]
  }

  method DigestToHex(digest: Digest) returns (output: Str)
    ensures output == ToHex(digest)
  {
    output := [];
    for i := 0 to 32
      invariant output == ToHex(digest[..i])
    {
      assert digest[..i + 1][..i] == digest[..i];
      output := output + [Nibble(digest[i] / 16)];
      output := output + [Nibble(digest[i] % 16)];
    }
    assert digest[..32] == digest;
  }

  /** A byte read by `u8::from_str_radix`, which also takes a plus sign before one digit. */
  function ParseRadix(a: byte, b: byte): Option<byte> {
    if a == 43 then HexDigit(b)
    else
      match (HexDigit(a), HexDigit(b))
      case (Some(x), Some(y)) => Some(16 * x + y)
      case _ => None
  }

  /** A byte read by the `hex` crate: two digits of either case. */
  function ParsePair(a: byte, b: byte): Option<byte> {
    match (HexDigit(a), HexDigit(b))
    case (Some(x), Some(y)) => Some(16 * x + y)
    case _ => None
  }

  function ReadPairs(pair: (byte, byte) -> Option<byte>, s: Str): Option<seq<byte>>
    requires |s| % 2 == 0
  {
    if s == [] then Some([])
    else
      match ReadPairs(pair, s[..|s| - 2])
      case None => None
      case Some(front) =>
        match pair(s[|s| - 2], s[|s| - 1])
        case None => None
        case Some(b) => Some(front + [b])
  }

  function StripPrefix(s: Str): Str {
    if |s| >= 2 && s[0] == 48 && (s[1] == 120 || s[1] == 88) then s[2..] else s
  }

  predicate Continuation(b: byte) {
    128 <= b < 192
  }

  /** A slice may begin or end here: the place is not inside a multi-byte character. Slicing elsewhere panics. */
  predicate Boundary(s: Str, i: nat)
    requires i <= |s|
  {
    i == 0 || i == |s| || !Continuation(s[i])
  }

  /** The pair of bytes at one place, sliced out and read. */
  function ReadPairAt(s: Str, i: nat): Parsed<byte>
    requires 2 * i + 2 <= |s|
  {
    if !Boundary(s, 2 * i) || !Boundary(s, 2 * i + 2) then Panics
    else
      match ParseRadix(s[2 * i], s[2 * i + 1])
      case None => Malformed
      case Some(b) => Parsed(b)
  }

  function ReadBytes(s: Str, k: nat): (r: Parsed<seq<byte>>)
    requires 2 * k <= |s|
    ensures r.Parsed? ==> |r.value| == k
  {
    if k == 0 then Parsed([])
    else
      match ReadBytes(s, k - 1)
      case Malformed => Malformed
      case Panics => Panics
      case Parsed(front) =>
        match ReadPairAt(s, k - 1)
        case Malformed => Malformed
        case Panics => Panics
        case Parsed(b) => Parsed(front + [b])
  }

  /** `digest_from_hex`: an optional 0x, then 64 bytes of text. */
  function DigestFromHex(text: Str): Parsed<Digest> {
    var s := StripPrefix(text);
    if |s| != 64 then Malformed
    else
      match ReadBytes(s, 32)
      case Malformed => Malformed
      case Panics => Panics
      case Parsed(bytes) => Parsed(bytes)
  }

  /** The digest, or nothing: for a process that ends the same way on a refusal and on a panic. */
  function HexDigest(text: Str): Option<Digest> {
    match DigestFromHex(text)
    case Parsed(d) => Some(d)
    case _ => None
  }

  /** `parse_digest`: the `hex` crate's decoder, then exactly 32 bytes. */
  function ParseDigest(text: Str): (r: Option<Digest>) {
    if |text| % 2 != 0 then None
    else
      match ReadPairs(ParsePair, text)
      case None => None
      case Some(bytes) => if |bytes| == 32 then Some(bytes) else None
  }

  method ReadDigestFromHex(text: Str) returns (r: Parsed<Digest>)
    ensures r == DigestFromHex(text)
  {
    var s := StripPrefix(text);
    if |s| != 64 {
      return Malformed;
    }
    var bytes: seq<byte> := [];
    for i := 0 to 32
      invariant ReadBytes(s, i) == Parsed(bytes)
    {
      if !Boundary(s, 2 * i) || !Boundary(s, 2 * i + 2) {
        ReadBytesStops(s, i + 1, 32);
        return Panics;
      }
      var b := ParseRadix(s[2 * i], s[2 * i + 1]);
      if b == None {
        ReadBytesStops(s, i + 1, 32);
        return Malformed;
      }
      bytes := bytes + [b.value];
    }
    return Parsed(bytes);
  }

  /** The first pair that cannot be read decides. */
  lemma {:induction false} ReadBytesStops(s: Str, k: nat, n: nat)
    requires k <= n && 2 * n <= |s| && !ReadBytes(s, k).Parsed?
    ensures ReadBytes(s, n) == ReadBytes(s, k)
  {
    if k == n {
    } else {
      ReadBytesStops(s, k, n - 1);
    }
  }

  // ----- When the reader panics -----

  /** A continuation byte follows another byte of its character, as in all UTF-8. */
  predicate CharactersWhole(s: Str) {
    forall i :: 0 <= i < |s| && Continuation(s[i]) ==> i > 0 && s[i - 1] >= 128
  }

  predicate HexPair(s: Str, i: nat)
    requires 2 * i + 2 <= |s|
  {
    ParseRadix(s[2 * i], s[2 * i + 1]).Some?
  }

  /** The first pair that is not a hexadecimal byte. */
  predicate FirstBadPair(s: Str, k: nat)
    requires 2 * k + 2 <= |s|
  {
    !HexPair(s, k) && forall i :: 0 <= i < k ==> HexPair(s, i)
  }

  lemma HexPairBounds(s: Str, i: nat)
    requires CharactersWhole(s) && 2 * i + 2 <= |s| && HexPair(s, i)
    ensures Boundary(s, 2 * i) && Boundary(s, 2 * i + 2)
  {
    assert s[2 * i] < 128 && s[2 * i + 1] < 128;
  }

  lemma {:induction false} HexPairsRead(s: Str, k: nat)
    requires CharactersWhole(s) && 2 * k <= |s| && forall i :: 0 <= i < k ==> HexPair(s, i)
    ensures ReadBytes(s, k).Parsed?
  {
    if k == 0 {
    } else {
      HexPairsRead(s, k - 1);
      HexPairBounds(s, k - 1);
    }
  }

  lemma BadPairDecides(s: Str, k: nat, n: nat)
    requires CharactersWhole(s) && k < n && 2 * n <= |s| && FirstBadPair(s, k)
    ensures ReadBytes(s, n) == if Boundary(s, 2 * k + 2) then Malformed else Panics
  {
    HexPairsRead(s, k);
    if k > 0 { HexPairBounds(s, k - 1); }
    ReadBytesStops(s, k + 1, n);
  }

  lemma {:induction false} SomeFirstBadPair(s: Str, n: nat) returns (k: nat)
    requires 2 * n <= |s| && exists i :: 0 <= i < n && !HexPair(s, i)
    ensures k < n && FirstBadPair(s, k)
  {
    if j :| 0 <= j < n - 1 && !HexPair(s, j) {
      k := SomeFirstBadPair(s, n - 1);
    } else {
      k := n - 1;
    }
  }

  /**
   * The three outcomes, exactly. After an optional 0x the text must have 64 bytes. It is read when all its pairs are
   * hexadecimal bytes; otherwise the first pair that is not decides: the reader panics when that pair's slice ends
   * inside a character, and refuses the text when it does not.
   */
  lemma DigestFromHexExact(text: Str)
    requires CharactersWhole(text)
    ensures var s := StripPrefix(text);
            && (DigestFromHex(text).Parsed? <==> |s| == 64 && forall i :: 0 <= i < 32 ==> HexPair(s, i))
            && (DigestFromHex(text).Panics? <==>
                  |s| == 64 && exists k :: 0 <= k < 32 && FirstBadPair(s, k) && !Boundary(s, 2 * k + 2))
  {
    var s := StripPrefix(text);
    assert CharactersWhole(s);
    if |s| == 64 {
      if forall i :: 0 <= i < 32 ==> HexPair(s, i) {
        HexPairsRead(s, 32);
      } else {
        var k := SomeFirstBadPair(s, 32);
        BadPairDecides(s, k, 32);
        forall j | 0 <= j < 32 && FirstBadPair(s, j) ensures j == k {
          assert !HexPair(s, j) && !HexPair(s, k);
        }
      }
    }
  }

  /** An a, an accented e and 61 more letters: 64 bytes of UTF-8. */
  function PanicText(): Str {
    [97, 195, 169] + seq(61, _ => 97)
  }

  lemma PanicTextPanics()
    ensures CharactersWhole(PanicText()) && |PanicText()| == 64
    ensures DigestFromHex(PanicText()) == Panics
  {
    var s := PanicText();
    assert StripPrefix(s) == s;
    assert FirstBadPair(s, 0) && !Boundary(s, 2);
    DigestFromHexExact(s);
  }

  /** Text of single-byte characters never makes the reader panic. */
  lemma {:induction false} AsciiReads(s: Str, k: nat)
    requires 2 * k <= |s| && forall i :: 0 <= i < |s| ==> s[i] < 128
    ensures var pairs := ReadPairs(ParseRadix, s[..2 * k]);
            ReadBytes(s, k) == if pairs.Some? then Parsed(pairs.value) else Malformed
  {
    if k == 0 {
    } else {
      AsciiReads(s, k - 1);
      assert s[..2 * k][..2 * (k - 1)] == s[..2 * (k - 1)];
    }
  }

  lemma {:induction false} ReadPairsUndoes(pair: (byte, byte) -> Option<byte>, bytes: seq<byte>)
    requires forall b: byte :: pair(Nibble(b / 16), Nibble(b % 16)) == Some(b)
    ensures ReadPairs(pair, ToHex(bytes)) == Some(bytes)
  {
    if bytes == [] {
    } else {
      var n := |bytes| - 1;
      ReadPairsUndoes(pair, bytes[..n]);
      var s := ToHex(bytes);
      assert s[..|s| - 2] == ToHex(bytes[..n]);
      assert pair(s[|s| - 2], s[|s| - 1]) == Some(bytes[n]);
      assert bytes[..n] + [bytes[n]] == bytes;
    }
  }

  /** Printed digests are read back by both readers. */
  lemma HexRoundTrip(d: Digest)
    ensures DigestFromHex(ToHex(d)) == Parsed(d)
    ensures ParseDigest(ToHex(d)) == Some(d)
  {
    ToHexDigits(d);
    NoPrefix(ToHex(d));
    forall b: byte ensures ParseRadix(Nibble(b / 16), Nibble(b % 16)) == Some(b) { NibblesRead(b); }
    forall b: byte ensures ParsePair(Nibble(b / 16), Nibble(b % 16)) == Some(b) { NibblesRead(b); }
    ReadPairsUndoes(ParseRadix, d);
    ReadPairsUndoes(ParsePair, d);
    AsciiReads(ToHex(d), 32);
    assert ToHex(d)[..64] == ToHex(d);
  }

  lemma NibblesRead(b: byte)
    ensures ParseRadix(Nibble(b / 16), Nibble(b % 16)) == Some(b)
    ensures ParsePair(Nibble(b / 16), Nibble(b % 16)) == Some(b)
  {
    assert HexDigit(Nibble(b / 16)) == Some(b / 16);
    assert HexDigit(Nibble(b % 16)) == Some(b % 16);
  }

  lemma {:induction false} ToHexDigits(bytes: seq<byte>)
    ensures forall i :: 0 <= i < |ToHex(bytes)| ==> HexDigit(ToHex(bytes)[i]).Some?
  {
    if bytes == [] {
    } else {
      ToHexDigits(bytes[..|bytes| - 1]);
    }
  }

  lemma NoPrefix(s: Str)
    requires forall i :: 0 <= i < |s| ==> HexDigit(s[i]).Some?
    ensures StripPrefix(s) == s
  {
    if |s| >= 2 {
      assert HexDigit(s[1]).Some?;
    }
  }

  lemma HexInjective(d: Digest, e: Digest)
    ensures ToHex(d) == ToHex(e) ==> d == e
  {
    HexRoundTrip(d);
    HexRoundTrip(e);
  }

  // ----- What the readers accept -----

  function Lower(c: byte): byte {
    if 65 <= c <= 70 then c + 32 else c
  }

  function LowerText(s: Str): Str {
    seq(|s|, i requires 0 <= i < |s| => Lower(s[i]))
  }

  /** A plus sign that opens a pair stands for a zero. */
  function Unsigned(s: Str): Str {
    seq(|s|, i requires 0 <= i < |s| => if i % 2 == 0 && s[i] == 43 then 48 else s[i])
  }

  lemma PairExact(a: byte, b: byte, v: byte)
    ensures ParsePair(a, b) == Some(v) <==> Lower(a) == Nibble(v / 16) && Lower(b) == Nibble(v % 16)
    ensures ParseRadix(a, b) == ParsePair(if a == 43 then 48 else a, b)
  {
    DigitExact(a, v / 16);
    DigitExact(b, v % 16);
  }

  lemma DigitExact(c: byte, v: int)
    requires 0 <= v < 16
    ensures HexDigit(c) == Some(v) <==> Lower(c) == Nibble(v)
  {
  }

  lemma {:induction false} ReadPairsExact(s: Str, bytes: seq<byte>)
    requires |s| == 2 * |bytes|
    ensures ReadPairs(ParsePair, s) == Some(bytes) <==> LowerText(s) == ToHex(bytes)
  {
    if bytes == [] {
      assert LowerText(s) == [];
    } else {
      var n, k := |bytes| - 1, |s| - 2;
      ReadPairsExact(s[..k], bytes[..n]);
      PairExact(s[k], s[k + 1], bytes[n]);
      assert LowerText(s) == LowerText(s[..k]) + [Lower(s[k]), Lower(s[k + 1])];
      assert bytes == bytes[..n] + [bytes[n]];
      SplitLast(LowerText(s[..k]), ToHex(bytes[..n]), [Lower(s[k]), Lower(s[k + 1])],
                [Nibble(bytes[n] / 16), Nibble(bytes[n] % 16)]);
      LastRead(s, bytes);
    }
  }

  lemma SplitLast(a: seq<byte>, b: seq<byte>, x: seq<byte>, y: seq<byte>)
    requires |a| == |b|
    ensures a + x == b + y <==> a == b && x == y
  {
    if a + x == b + y {
      assert a == (a + x)[..|a|] && x == (a + x)[|a|..];
      assert b == (b + y)[..|b|] && y == (b + y)[|b|..];
    }
  }

  lemma LastRead(s: Str, bytes: seq<byte>)
    requires |s| == 2 * |bytes| && bytes != []
    ensures var n, k := |bytes| - 1, |s| - 2;
            ReadPairs(ParsePair, s) == Some(bytes) <==>
            ReadPairs(ParsePair, s[..k]) == Some(bytes[..n]) && ParsePair(s[k], s[k + 1]) == Some(bytes[n])
  {
    var n := |bytes| - 1;
    assert bytes == bytes[..n] + [bytes[n]];
    var front, last := ReadPairs(ParsePair, s[..|s| - 2]), ParsePair(s[|s| - 2], s[|s| - 1]);
    if front.Some? && last.Some? && front.value + [last.value] == bytes {
      assert front.value == bytes[..n] && last.value == bytes[n];
    }
  }

  lemma {:induction false} RadixIsUnsigned(s: Str)
    requires |s| % 2 == 0
    ensures ReadPairs(ParseRadix, s) == ReadPairs(ParsePair, Unsigned(s))
  {
    if s == [] {
      assert Unsigned(s) == [];
    } else {
      var k := |s| - 2;
      RadixIsUnsigned(s[..k]);
      assert Unsigned(s)[..k] == Unsigned(s[..k]);
      PairExact(s[k], s[k + 1], 0);
    }
  }

  lemma {:induction false} ReadBytesIsPairs(s: Str, k: nat)
    requires 2 * k <= |s|
    ensures ReadBytes(s, k).Parsed? ==> ReadPairs(ParseRadix, s[..2 * k]) == Some(ReadBytes(s, k).value)
    ensures CharactersWhole(s) && ReadPairs(ParseRadix, s[..2 * k]).Some? ==>
            ReadBytes(s, k).Parsed? && forall i :: 0 <= i < k ==> HexPair(s, i)
  {
    if k == 0 {
    } else {
      ReadBytesIsPairs(s, k - 1);
      assert s[..2 * k][..2 * (k - 1)] == s[..2 * (k - 1)];
      if CharactersWhole(s) && ReadPairs(ParseRadix, s[..2 * k]).Some? {
        HexPairBounds(s, k - 1);
      }
    }
  }

  /** The strict reader accepts exactly printed digests, in either case, and reads what was printed. */
  lemma ParseDigestExact(text: Str, d: Digest)
    ensures ParseDigest(text) == Some(d) <==> LowerText(text) == ToHex(d)
  {
    if |text| == 64 {
      ReadPairsExact(text, d);
    } else if |text| % 2 == 0 {
      ReadPairsLength(ParsePair, text);
    }
  }

  /** So does the lenient one, after an optional 0x and with plus signs for the first zeros of pairs. */
  lemma DigestValueExact(text: Str, d: Digest)
    requires CharactersWhole(text)
    ensures DigestFromHex(text) == Parsed(d) <==> LowerText(Unsigned(StripPrefix(text))) == ToHex(d)
  {
    var s := StripPrefix(text);
    assert CharactersWhole(s);
    if |s| == 64 {
      ReadBytesIsPairs(s, 32);
      assert s[..64] == s;
      RadixIsUnsigned(s);
      ReadPairsExact(Unsigned(s), d);
    }
  }

  lemma {:induction false} ReadPairsLength(pair: (byte, byte) -> Option<byte>, s: Str)
    requires |s| % 2 == 0
    ensures ReadPairs(pair, s).Some? ==> |ReadPairs(pair, s).value| == |s| / 2
  {
    if s == [] {
    } else {
      ReadPairsLength(pair, s[..|s| - 2]);
    }
  }

  /** A program identifier survives printing and reading. */
  lemma OwnerHexRoundTrip(o: Owner)
    ensures DigestFromHex(ToHex(Words(o))) == Parsed(Words(o)) && FromWords(Words(o)) == o
  {
    HexRoundTrip(Words(o));
    WordsRoundTrip(o);
  }

  predicate LowerDigits(s: Str) {
    forall i :: 0 <= i < |s| ==> HexDigit(s[i]).Some? && !(65 <= s[i] <= 90)
  }

  lemma {:induction false} ToHexLower(bytes: seq<byte>)
    ensures LowerDigits(ToHex(bytes))
  {
    if bytes == [] {
    } else {
      ToHexLower(bytes[..|bytes| - 1]);
    }
  }

  /** Text of lower-case digits is printed from some bytes. */
  lemma {:induction false} LowerDigitsPrinted(s: Str) returns (bytes: seq<byte>)
    requires |s| % 2 == 0 && LowerDigits(s)
    ensures |s| == 2 * |bytes| && s == ToHex(bytes)
  {
    if s == [] {
      bytes := [];
    } else {
      var k := |s| - 2;
      var front := LowerDigitsPrinted(s[..k]);
      var x, y := HexDigit(s[k]).value, HexDigit(s[k + 1]).value;
      DigitExact(s[k], x);
      DigitExact(s[k + 1], y);
      Regroup(x, y, 16);
      bytes := front + [x * 16 + y];
      assert bytes[..|bytes| - 1] == front;
      assert s == s[..k] + [s[k], s[k + 1]];
    }
  }

  // ----- Sorted lists of text -----

  /** The byte order of strings. */
  predicate Less(a: Str, b: Str) {
    b != [] && (a == [] || a[0] < b[0] || (a[0] == b[0] && Less(a[1..], b[1..])))
  }

  /** The first difference decides; a proper prefix comes first. */
  predicate DiffersAt(a: Str, b: Str, k: nat) {
    && k <= |a| && k < |b| && a[..k] == b[..k]
    && (k == |a| || a[k] < b[k])
  }

  lemma {:induction false} LessExact(a: Str, b: Str)
    ensures Less(a, b) <==> exists k: nat :: DiffersAt(a, b, k)
  {
    if a == [] || b == [] || a[0] < b[0] {
      assert b != [] ==> DiffersAt(a, b, 0);
    } else {
      LessExact(a[1..], b[1..]);
      if a[0] == b[0] {
        if k: nat :| DiffersAt(a[1..], b[1..], k) {
          assert a[..k + 1] == [a[0]] + a[1..][..k] && b[..k + 1] == [b[0]] + b[1..][..k];
          assert DiffersAt(a, b, k + 1);
        }
      }
      if k: nat :| DiffersAt(a, b, k) {
        assert a[..k] == b[..k] && (k > 0 ==> a[..k][0] == b[..k][0]);
        if k > 0 {
          assert a[1..][..k - 1] == a[..k][1..] && b[1..][..k - 1] == b[..k][1..];
          assert DiffersAt(a[1..], b[1..], k - 1);
        }
      }
    }
  }

  lemma {:induction false} LessTransitive(a: Str, b: Str, c: Str)
    requires Less(a, b) && Less(b, c)
    ensures Less(a, c)
  {
    if a == [] || a[0] != b[0] || b[0] != c[0] {
    } else {
      LessTransitive(a[1..], b[1..], c[1..]);
    }
  }

  lemma {:induction false} LessTotal(a: Str, b: Str)
    ensures Less(a, b) || Less(b, a) || a == b
    ensures !(Less(a, b) && Less(b, a)) && !Less(a, a)
  {
    if a == [] || b == [] {
    } else {
      LessTotal(a[1..], b[1..]);
      if a[0] == b[0] && a[1..] == b[1..] {
        assert a == [a[0]] + a[1..] == b;
      }
    }
    if a == [] {
    } else {
      LessTotal(a[1..], a[1..]);
    }
  }

  ghost predicate Sorted(s: seq<Str>) {
    forall i, j :: 0 <= i < j < |s| ==> Less(s[i], s[j])
  }

  ghost function Elements(s: seq<Str>): set<Str> {
    set x | x in s
  }

  function Insert(s: seq<Str>, x: Str): seq<Str> {
    if s == [] then [x]
    else if Less(x, s[0]) then [x] + s
    else if x == s[0] then s
    else [s[0]] + Insert(s[1..], x)
  }

  lemma {:induction false} InsertElements(s: seq<Str>, x: Str)
    ensures Elements(Insert(s, x)) == Elements(s) + {x}
  {
    if s == [] || Less(x, s[0]) || x == s[0] {
    } else {
      InsertElements(s[1..], x);
      assert s == [s[0]] + s[1..];
      assert Elements(s) == {s[0]} + Elements(s[1..]);
      assert Elements([s[0]] + Insert(s[1..], x)) == {s[0]} + Elements(Insert(s[1..], x));
    }
  }

  lemma SortedCons(x: Str, s: seq<Str>)
    requires Sorted(s)
    requires forall y :: y in Elements(s) ==> Less(x, y)
    ensures Sorted([x] + s)
  {
    var t := [x] + s;
    forall i, j | 0 <= i < j < |t| ensures Less(t[i], t[j]) {
      assert t[j] == s[j - 1] && t[j] in Elements(s);
      if i > 0 { assert t[i] == s[i - 1]; }
    }
  }

  lemma FirstIsLeast(s: seq<Str>, y: Str)
    requires Sorted(s) && s != [] && y in s
    ensures y == s[0] || Less(s[0], y)
  {
  }

  lemma {:induction false} InsertKeepsOrder(s: seq<Str>, x: Str)
    requires Sorted(s)
    ensures Sorted(Insert(s, x))
    ensures |Insert(s, x)| == |s| + if x in s then 0 else 1
  {
    if s == [] {
    } else {
      LessTotal(x, s[0]);
      if Less(x, s[0]) {
        forall y | y in Elements(s) ensures Less(x, y) {
          FirstIsLeast(s, y);
          if y != s[0] { LessTransitive(x, s[0], y); }
        }
        if x in s { LessTotal(x, x); }
        SortedCons(x, s);
      } else if x != s[0] {
        var rest := s[1..];
        InsertKeepsOrder(rest, x);
        InsertElements(rest, x);
        assert s == [s[0]] + rest;
        forall y | y in Elements(Insert(rest, x)) ensures Less(s[0], y) {
          if y in rest { assert y in s; FirstIsLeast(s, y); SortedTail(s, y); }
        }
        SortedCons(s[0], Insert(rest, x));
      }
    }
  }

  /** A sorted list is determined by its elements. */
  lemma {:induction false} SortedUnique(s: seq<Str>, t: seq<Str>)
    requires Sorted(s) && Sorted(t) && Elements(s) == Elements(t)
    ensures s == t
  {
    if s == [] {
      NoElements(t);
    } else {
      assert s[0] in Elements(t);
      assert t != [] && t[0] in Elements(s);
      var i :| 0 <= i < |t| && t[i] == s[0];
      var j :| 0 <= j < |s| && s[j] == t[0];
      LessTotal(s[0], t[0]);
      assert s[0] == t[0];
      forall x ensures x in Elements(s[1..]) <==> x in Elements(t[1..]) {
        SortedTail(s, x);
        SortedTail(t, x);
      }
      SortedUnique(s[1..], t[1..]);
    }
  }

  lemma NoElements(t: seq<Str>)
    ensures Elements(t) == {} ==> t == []
  {
    if t != [] { assert t[0] in Elements(t); }
  }

  lemma SortedTail(s: seq<Str>, x: Str)
    requires Sorted(s) && s != []
    ensures x in Elements(s[1..]) <==> x in Elements(s) && x != s[0]
  {
    LessTotal(s[0], s[0]);
    if x in s && x != s[0] {
      var i :| 0 <= i < |s| && s[i] == x;
      assert s[1..][i - 1] == x;
    }
  }

  /** The sorted list of a set of strings. */
  ghost function Listing(keys: set<Str>): (s: seq<Str>)
    ensures Sorted(s) && Elements(s) == keys && |s| == |keys|
  {
    if keys == {} then []
    else
      var x :| x in keys;
      InsertKeepsOrder(Listing(keys - {x}), x);
      InsertElements(Listing(keys - {x}), x);
      assert x !in Listing(keys - {x}) by { assert x !in Elements(Listing(keys - {x})); }
      Insert(Listing(keys - {x}), x)
  }

  /** Collecting a hash set into a vector and sorting it. */
  method Sort(keys: set<Str>) returns (s: seq<Str>)
    ensures s == Listing(keys)
  {
    s := [];
    var left := keys;
    while left != {}
      invariant left <= keys && Sorted(s) && Elements(s) == keys - left
      decreases left
    {
      var x :| x in left;
      InsertKeepsOrder(s, x);
      InsertElements(s, x);
      s := Insert(s, x);
      left := left - {x};
    }
    SortedUnique(s, Listing(keys));
  }

  function HexSet(digests: set<Digest>): set<Str> {
    set d | d in digests :: ToHex(d)
  }

  lemma {:induction false} HexSetSize(digests: set<Digest>)
    ensures |HexSet(digests)| == |digests|
  {
    if digests == {} {
    } else {
      var d :| d in digests;
      HexSetSize(digests - {d});
      forall e | e in digests - {d} ensures ToHex(e) != ToHex(d) { HexInjective(d, e); }
      assert HexSet(digests) == HexSet(digests - {d}) + {ToHex(d)};
    }
  }

  /** Reads a list of digests, or nothing if one entry is bad. */
  function ReadAll(read: Str -> Option<Digest>, list: seq<Str>): Option<seq<Digest>> {
    if list == [] then Some([])
    else
      match (ReadAll(read, list[..|list| - 1]), read(list[|list| - 1]))
      case (Some(front), Some(d)) => Some(front + [d])
      case _ => None
  }

  /** The digests of the readable entries. */
  function Readable(read: Str -> Option<Digest>, list: seq<Str>): set<Digest> {
    set entry | entry in list && read(entry).Some? :: read(entry).value
  }

  lemma ReadableOne(read: Str -> Option<Digest>, front: seq<Str>, entry: Str)
    ensures Readable(read, front + [entry])
            == Readable(read, front) + if read(entry).Some? then {read(entry).value} else {}
  {
    assert forall x :: x in front + [entry] <==> x in front || x == entry;
  }

  /** A list is read exactly when all its entries are, and to their digests. */
  lemma {:induction false} ReadAllExact(read: Str -> Option<Digest>, list: seq<Str>)
    ensures ReadAll(read, list).Some? <==> forall entry :: entry in list ==> read(entry).Some?
    ensures ReadAll(read, list).Some? ==>
            (set d | d in ReadAll(read, list).value) == Readable(read, list)
  {
    if list == [] {
    } else {
      var n := |list| - 1;
      ReadAllExact(read, list[..n]);
      assert list == list[..n] + [list[n]];
      ReadableOne(read, list[..n], list[n]);
      if ReadAll(read, list).Some? {
        var front, last := ReadAll(read, list[..n]).value, read(list[n]).value;
        assert forall d :: d in front + [last] <==> d in front || d == last;
      }
    }
  }

  lemma {:induction false} ReadAllPointwise(read: Str -> Option<Digest>, list: seq<Str>, digests: seq<Digest>)
    requires |list| == |digests| && forall i :: 0 <= i < |list| ==> read(list[i]) == Some(digests[i])
    ensures ReadAll(read, list) == Some(digests)
  {
    if list == [] {
    } else {
      var n := |list| - 1;
      ReadAllPointwise(read, list[..n], digests[..n]);
      assert digests == digests[..n] + [digests[n]];
    }
  }

  /** A reader that undoes the printer gets a set back from any list of its printed elements. */
  lemma ReadPrinted(read: Str -> Option<Digest>, list: seq<Str>, cache: set<Digest>)
      returns (digests: seq<Digest>)
    requires forall d :: d in cache ==> read(ToHex(d)) == Some(d)
    requires forall i :: 0 <= i < |list| ==> exists d :: d in cache && ToHex(d) == list[i]
    requires forall d :: d in cache ==> ToHex(d) in list
    ensures ReadAll(read, list) == Some(digests) && (set d | d in digests) == cache
  {
    forall i | 0 <= i < |list| ensures read(list[i]).Some? && read(list[i]).value in cache {
      var d :| d in cache && ToHex(d) == list[i];
    }
    digests := seq(|list|, i requires 0 <= i < |list| => read(list[i]).value);
    ReadAllPointwise(read, list, digests);
    forall d | d in cache ensures d in digests {
      var i :| 0 <= i < |list| && list[i] == ToHex(d);
      assert digests[i] == d;
    }
  }

  lemma ReadListing(read: Str -> Option<Digest>, cache: set<Digest>) returns (digests: seq<Digest>)
    requires forall d :: d in cache ==> read(ToHex(d)) == Some(d)
    ensures ReadAll(read, Listing(HexSet(cache))) == Some(digests) && (set d | d in digests) == cache
  {
    var list := Listing(HexSet(cache));
    forall i | 0 <= i < |list| ensures exists d :: d in cache && ToHex(d) == list[i] {
      assert list[i] in Elements(list);
    }
    forall d | d in cache ensures ToHex(d) in list {
      assert ToHex(d) in Elements(list);
    }
    digests := ReadPrinted(read, list, cache);
  }
}
