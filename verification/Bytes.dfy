/** Machine integers, byte strings, little-endian numbers and the hash as a parameter. */
module Bytes {

  datatype Option<+T> = None | Some(value: T)

  datatype Result<+T, +E> = Ok(value: T) | Err(error: E)

  /** What a reader of text can do: read it, refuse it, or panic, which ends the process. */
  datatype Parsed<+T> = Parsed(value: T) | Malformed | Panics

  type byte = x: int | 0 <= x < 256
  type u16 = x: int | 0 <= x < 0x1_0000
  type u32 = x: int | 0 <= x < 0x1_0000_0000
  type u64 = x: int | 0 <= x < 0x1_0000_0000_0000_0000
  type u128 = x: int | 0 <= x < 0x1_0000_0000_0000_0000_0000_0000_0000_0000

  const U64_MAX: u64 := 0xFFFF_FFFF_FFFF_FFFF

  /** A Rust string is its UTF-8 bytes. */
  type Str = seq<byte>

  /** A string whose length fits the u32 prefix; the encoders panic on longer ones. */
  type Text = s: Str | |s| < 0x1_0000_0000

  type Digest = d: seq<byte> | |d| == 32 witness seq(32, _ => 0)

  /** The eight little-endian words of a program identifier. */
  type Owner = o: seq<u32> | |o| == 8 witness seq(8, _ => 0)

  /** SHA-256 is a parameter of the whole model: theorems hold for every function of this type. */
  type Hash = seq<byte> -> Digest

  /** Two different inputs with one hash. Theorems name the pair, they never assert that one merely exists. */
  predicate Collides(sha: Hash, a: seq<byte>, b: seq<byte>) {
    a != b && sha(a) == sha(b)
  }

  const ZERO_DIGEST: Digest :=
    [0, 0, 0, 0, 0, 0, 0, 0, 0, 0, 0, 0, 0, 0, 0, 0, 0, 0, 0, 0, 0, 0, 0, 0, 0, 0, 0, 0, 0, 0, 0, 0]

  function Ascii(s: string): (b: Str)
    ensures |b| == |s|
    ensures forall i :: 0 <= i < |s| ==> b[i] == s[i] as int % 256
  {
    seq(|s|, i requires 0 <= i < |s| => s[i] as int % 256)
  }

  /** u64 addition and subtraction that stop at the ends of the range. */
  function SaturatingAdd(a: u64, b: u64): u64 {
    if a + b <= U64_MAX then a + b else U64_MAX
  }

  function SaturatingSub(a: u64, b: u64): u64 {
    if b <= a then a - b else 0
  }

  function CheckedAdd(a: u64, b: u64): Option<u64> {
    if a + b <= U64_MAX then Some(a + b) else None
  }

  /** A number put together from a quotient and a remainder comes apart again. */
  lemma Regroup(high: int, low: int, n: int)
    requires 0 <= high && 0 <= low < n
    ensures (high * n + low) / n == high && (high * n + low) % n == low
  {
    var q := (high * n + low) / n;
    assert n * q + (high * n + low) % n == high * n + low;
    assert n * (q - high) == low - (high * n + low) % n;
    Multiples(n, q - high);
  }

  lemma Multiples(n: int, d: int)
    requires n > 0
    ensures d >= 1 ==> n * d >= n
    ensures d <= -1 ==> n * d <= 0 - n
  {
  }

  function Pow256(k: nat): nat {
    if k == 0 then 1 else 256 * Pow256(k - 1)
  }

  lemma Widths()
    ensures Pow256(2) == 0x1_0000 && Pow256(4) == 0x1_0000_0000
    ensures Pow256(8) == 0x1_0000_0000_0000_0000
    ensures Pow256(16) == 0x1_0000_0000_0000_0000_0000_0000_0000_0000
  {
    assert Pow256(4) == 256 * Pow256(3);
    assert Pow256(8) == 256 * Pow256(7) == 65536 * Pow256(6) == 65536 * 65536 * Pow256(4) by {
      assert Pow256(6) == 256 * Pow256(5);
    }
    assert Pow256(12) == 65536 * 65536 * Pow256(8) by {
      assert Pow256(12) == 256 * Pow256(11);
      assert Pow256(10) == 256 * Pow256(9);
    }
    assert Pow256(16) == 65536 * 65536 * Pow256(12) by {
      assert Pow256(16) == 256 * Pow256(15);
      assert Pow256(14) == 256 * Pow256(13);
    }
  }

  /** The k low bytes of n, least significant first. */
  function LittleEndian(n: nat, k: nat): (s: seq<byte>)
    ensures |s| == k
  {
    if k == 0 then [] else [n % 256] + LittleEndian(n / 256, k - 1)
  }

  /** Byte i counts the multiples of 256 to the power i. */
  lemma {:induction false} LittleEndianAt(n: nat, k: nat, i: nat)
    requires i < k
    ensures Pow256(i) > 0 && LittleEndian(n, k)[i] == n / Pow256(i) % 256
  {
    if i == 0 {
    } else {
      LittleEndianAt(n / 256, k - 1, i - 1);
      DivideTwice(n, Pow256(i - 1));
    }
  }

  lemma DivideTwice(n: nat, m: nat)
    requires m > 0
    ensures n / 256 / m == n / (256 * m)
  {
    var q, r := n / 256, n % 256;
    var x, y := q / m, q % m;
    assert q == x * m + y;
    assert x * (256 * m) == 256 * (x * m);
    Regroup(x, 256 * y + r, 256 * m);
  }

  function FromLittleEndian(s: seq<byte>): nat {
    if s == [] then 0 else s[0] + 256 * FromLittleEndian(s[1..])
  }

  lemma {:induction false} LittleEndianRoundTrip(n: nat, k: nat)
    requires n < Pow256(k)
    ensures FromLittleEndian(LittleEndian(n, k)) == n
  {
    if k == 0 {
    } else {
      LittleEndianRoundTrip(n / 256, k - 1);
      assert LittleEndian(n, k)[1..] == LittleEndian(n / 256, k - 1);
    }
  }

  lemma SplitByte(low: byte, high: nat)
    ensures (low + 256 * high) % 256 == low && (low + 256 * high) / 256 == high
  {
  }

  lemma {:induction false} FromLittleEndianRoundTrip(s: seq<byte>)
    ensures FromLittleEndian(s) < Pow256(|s|)
    ensures LittleEndian(FromLittleEndian(s), |s|) == s
  {
    if s == [] {
    } else {
      var low, high := s[0], FromLittleEndian(s[1..]);
      FromLittleEndianRoundTrip(s[1..]);
      SplitByte(low, high);
      assert Pow256(|s|) == 256 * Pow256(|s| - 1);
      assert s == [low] + s[1..];
    }
  }

  lemma LittleEndianInjective(m: nat, n: nat, k: nat)
    requires m < Pow256(k) && n < Pow256(k)
    requires LittleEndian(m, k) == LittleEndian(n, k)
    ensures m == n
  {
    LittleEndianRoundTrip(m, k);
    LittleEndianRoundTrip(n, k);
  }

  /** The words of an identifier, each in four bytes. */
  function Words(o: seq<u32>): (s: seq<byte>)
    ensures |s| == 4 * |o|
  {
    if o == [] then [] else LittleEndian(o[0], 4) + Words(o[1..])
  }

  lemma {:induction false} WordsInjective(o: seq<u32>, p: seq<u32>)
    requires |o| == |p| && Words(o) == Words(p)
    ensures o == p
  {
    if o == [] {
    } else {
      Widths();
      assert LittleEndian(o[0], 4) == Words(o)[..4] == LittleEndian(p[0], 4);
      assert Words(o[1..]) == Words(o)[4..] == Words(p[1..]);
      LittleEndianInjective(o[0], p[0], 4);
      WordsInjective(o[1..], p[1..]);
      assert o == [o[0]] + o[1..] && p == [p[0]] + p[1..];
    }
  }

  function FromWords(s: seq<byte>): (o: seq<u32>)
    requires |s| % 4 == 0
    ensures |o| == |s| / 4
  {
    if s == [] then []
    else
      assert FromLittleEndian(s[..4]) < 0x1_0000_0000 by {
        FromLittleEndianRoundTrip(s[..4]);
        Widths();
      }
      [FromLittleEndian(s[..4])] + FromWords(s[4..])
  }

  lemma {:induction false} FromWordsRoundTrip(s: seq<byte>)
    requires |s| % 4 == 0
    ensures Words(FromWords(s)) == s
  {
    if s == [] {
    } else {
      FromLittleEndianRoundTrip(s[..4]);
      FromWordsRoundTrip(s[4..]);
      assert FromWords(s)[1..] == FromWords(s[4..]);
      assert s == s[..4] + s[4..];
    }
  }

  lemma {:induction false} WordsRoundTrip(o: seq<u32>)
    ensures FromWords(Words(o)) == o
  {
    if o == [] {
    } else {
      Widths();
      LittleEndianRoundTrip(o[0], 4);
      WordsRoundTrip(o[1..]);
      assert Words(o)[..4] == LittleEndian(o[0], 4) && Words(o)[4..] == Words(o[1..]);
      assert o == [o[0]] + o[1..];
    }
  }
}
