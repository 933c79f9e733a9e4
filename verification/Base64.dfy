/** Base64 with the standard alphabet and padding, as section 4 of RFC 4648 defines it. */
module Base64 {
  import opened Bytes

  const PAD: byte := 61

  function Symbol(v: int): byte
    requires 0 <= v < 64
  {
    if v < 26 then 65 + v
    else if v < 52 then 97 + v - 26
    else if v < 62 then 48 + v - 52
    else if v == 62 then 43
    else 47
  }

  function Value(c: byte): Option<int> {
    if 65 <= c <= 90 then Some(c - 65)
    else if 97 <= c <= 122 then Some(c - 97 + 26)
    else if 48 <= c <= 57 then Some(c - 48 + 52)
    else if c == 43 then Some(62)
    else if c == 47 then Some(63)
    else None
  }

  /** Three bytes are four symbols; one or two bytes left over are padded to four. */
  function Encode(b: seq<byte>): (s: Str)
    ensures |s| == (|b| + 2) / 3 * 4
  {
    if b == [] then []
    else if |b| == 1 then [Symbol(b[0] / 4), Symbol(b[0] % 4 * 16), PAD, PAD]
    else if |b| == 2 then [Symbol(b[0] / 4), Symbol(b[0] % 4 * 16 + b[1] / 16), Symbol(b[1] % 16 * 4), PAD]
    else [Symbol(b[0] / 4), Symbol(b[0] % 4 * 16 + b[1] / 16), Symbol(b[1] % 16 * 4 + b[2] / 64), Symbol(b[2] % 64)]
         + Encode(b[3..])
  }

  /** The bytes of one group of four symbols; padding only where the text ends, and its spare bits must be zero. */
  function DecodeGroup(a: byte, b: byte, c: byte, d: byte, last: bool): Option<seq<byte>> {
    match (Value(a), Value(b))
    case (Some(v), Some(w)) =>
      if last && c == PAD && d == PAD then
        if w % 16 == 0 then Some([v * 4 + w / 16]) else None
      else
        (match (Value(c), Value(d))
         case (Some(x), Some(y)) => Some([v * 4 + w / 16, w % 16 * 16 + x / 4, x % 4 * 64 + y])
         case (Some(x), None) =>
           if last && d == PAD && x % 4 == 0 then Some([v * 4 + w / 16, w % 16 * 16 + x / 4]) else None
         case _ => None)
    case _ => None
  }

  function Decode(s: Str): (r: Option<seq<byte>>)
    ensures r.Some? ==> |s| == (|r.value| + 2) / 3 * 4
  {
    if s == [] then Some([])
    else if |s| < 4 then None
    else
      match (DecodeGroup(s[0], s[1], s[2], s[3], |s| == 4), Decode(s[4..]))
      case (Some(group), Some(rest)) => Some(group + rest)
      case _ => None
  }

  lemma SymbolRead(v: int)
    requires 0 <= v < 64
    ensures Value(Symbol(v)) == Some(v) && Symbol(v) != PAD
  {
  }

  lemma GroupRead(x: byte, y: byte, z: byte, last: bool)
    ensures DecodeGroup(Symbol(x / 4), Symbol(x % 4 * 16 + y / 16), Symbol(y % 16 * 4 + z / 64), Symbol(z % 64), last)
            == Some([x, y, z])
  {
    var v, w, s, t := x / 4, x % 4 * 16 + y / 16, y % 16 * 4 + z / 64, z % 64;
    Regroup(x % 4, y / 16, 16);
    Regroup(y % 16, z / 64, 4);
    assert v * 4 + w / 16 == x && w % 16 * 16 + s / 4 == y && s % 4 * 64 + t == z;
    SymbolRead(v);
    SymbolRead(w);
    SymbolRead(s);
    SymbolRead(t);
  }

  lemma TailRead(x: byte, y: byte)
    ensures DecodeGroup(Symbol(x / 4), Symbol(x % 4 * 16), PAD, PAD, true) == Some([x])
    ensures DecodeGroup(Symbol(x / 4), Symbol(x % 4 * 16 + y / 16), Symbol(y % 16 * 4), PAD, true) == Some([x, y])
  {
    SymbolRead(x / 4);
    SymbolRead(x % 4 * 16);
    SymbolRead(x % 4 * 16 + y / 16);
    SymbolRead(y % 16 * 4);
  }

  lemma OneByteRoundTrip(x: byte)
    ensures Decode(Encode([x])) == Some([x])
  {
    var s := Encode([x]);
    assert s == [Symbol(x / 4), Symbol(x % 4 * 16), PAD, PAD];
    TailRead(x, 0);
    assert s[4..] == [] && Decode([]) == Some([]);
    assert [x] + [] == [x];
  }

  lemma TwoByteRoundTrip(x: byte, y: byte)
    ensures Decode(Encode([x, y])) == Some([x, y])
  {
    var s := Encode([x, y]);
    assert s == [Symbol(x / 4), Symbol(x % 4 * 16 + y / 16), Symbol(y % 16 * 4), PAD];
    TailRead(x, y);
    assert s[4..] == [] && Decode([]) == Some([]);
    assert [x, y] + [] == [x, y];
  }

  /** Decoding undoes encoding. */
  lemma {:induction false} RoundTrip(b: seq<byte>)
    ensures Decode(Encode(b)) == Some(b)
  {
    if b == [] {
    } else if |b| == 1 {
      OneByteRoundTrip(b[0]);
      assert b == [b[0]];
    } else if |b| == 2 {
      TwoByteRoundTrip(b[0], b[1]);
      assert b == [b[0], b[1]];
    } else {
      var s := Encode(b);
      GroupRead(b[0], b[1], b[2], |s| == 4);
      RoundTrip(b[3..]);
      assert s[4..] == Encode(b[3..]);
      assert b == [b[0], b[1], b[2]] + b[3..];
    }
  }

  lemma ValueSymbol(c: byte)
    requires Value(c).Some?
    ensures 0 <= Value(c).value < 64 && Symbol(Value(c).value) == c
  {
  }

  lemma OneByteBack(v: int, w: int)
    requires 0 <= v < 64 && 0 <= w < 64 && w % 16 == 0
    ensures Encode([v * 4 + w / 16]) == [Symbol(v), Symbol(w), PAD, PAD]
  {
    Regroup(v, w / 16, 4);
  }

  lemma TwoBytesBack(v: int, w: int, x: int)
    requires 0 <= v < 64 && 0 <= w < 64 && 0 <= x < 64 && x % 4 == 0
    ensures Encode([v * 4 + w / 16, w % 16 * 16 + x / 4]) == [Symbol(v), Symbol(w), Symbol(x), PAD]
  {
    Regroup(v, w / 16, 4);
    Regroup(w % 16, x / 4, 16);
  }

  lemma ThreeBytesBack(v: int, w: int, x: int, y: int)
    requires 0 <= v < 64 && 0 <= w < 64 && 0 <= x < 64 && 0 <= y < 64
    ensures Encode([v * 4 + w / 16, w % 16 * 16 + x / 4, x % 4 * 64 + y])
            == [Symbol(v), Symbol(w), Symbol(x), Symbol(y)]
  {
    var a, b, c: byte := v * 4 + w / 16, w % 16 * 16 + x / 4, x % 4 * 64 + y;
    Regroup(v, w / 16, 4);
    Regroup(w % 16, x / 4, 16);
    Regroup(x % 4, y, 64);
    assert a / 4 == v && a % 4 * 16 + b / 16 == w;
    assert b % 16 * 4 + c / 64 == x && c % 64 == y;
    assert [a, b, c][3..] == [] && Encode([]) == [];
  }

  /** A group that decodes is the encoding of its bytes; fewer than three only at the end. */
  lemma GroupEncodes(a: byte, b: byte, c: byte, d: byte, last: bool)
    requires DecodeGroup(a, b, c, d, last).Some?
    ensures var group := DecodeGroup(a, b, c, d, last).value;
            1 <= |group| <= 3 && Encode(group) == [a, b, c, d] && (|group| < 3 ==> last)
  {
    ValueSymbol(a);
    ValueSymbol(b);
    var v, w := Value(a).value, Value(b).value;
    if last && c == PAD && d == PAD {
      OneByteBack(v, w);
    } else {
      ValueSymbol(c);
      if Value(d).Some? {
        ValueSymbol(d);
        ThreeBytesBack(v, w, Value(c).value, Value(d).value);
      } else {
        TwoBytesBack(v, w, Value(c).value);
      }
    }
  }

  lemma EncodeAppend(group: seq<byte>, rest: seq<byte>)
    requires |group| == 3
    ensures Encode(group + rest) == Encode(group) + Encode(rest)
  {
    assert (group + rest)[3..] == rest && group[3..] == [];
  }

  lemma {:induction false} DecodedIsEncoded(s: Str)
    requires Decode(s).Some?
    ensures Encode(Decode(s).value) == s
  {
    if s == [] {
    } else {
      var group, rest := DecodeGroup(s[0], s[1], s[2], s[3], |s| == 4).value, Decode(s[4..]).value;
      GroupEncodes(s[0], s[1], s[2], s[3], |s| == 4);
      DecodedIsEncoded(s[4..]);
      if |group| == 3 {
        EncodeAppend(group, rest);
      } else {
        assert s[4..] == [] && rest == [] && group + rest == group;
      }
      assert s == s[..4] + s[4..] && s[..4] == [s[0], s[1], s[2], s[3]];
    }
  }

  /** Text decodes exactly when it is the encoding: no other padding, no spare bits set. */
  lemma DecodeExact(s: Str, b: seq<byte>)
    ensures Decode(s) == Some(b) <==> s == Encode(b)
  {
    RoundTrip(b);
    if Decode(s) == Some(b) { DecodedIsEncoded(s); }
  }
}
