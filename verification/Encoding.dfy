/**
 * Length-prefixed canonical encodings. Every hashed or signed structure is a list of
 * tokens; what makes the encodings unambiguous is proved once, for token lists.
 */
module Encoding {
  import opened Bytes

  // Every preimage begins with the tag of its purpose.
  const GATE_CONTEXT_TAG: Str := Ascii("LEZ-TokenStudio/GateContext/v2")
  const JOURNAL_TAG: Str := Ascii("LEZ-TokenStudio/AttestationJournal/v2")
  const CHALLENGE_TAG: Str := Ascii("LEZ-TokenStudio/VerificationChallenge/v2")
  const PRESENTATION_TAG: Str := Ascii("LEZ-TokenStudio/PresentationBinding/v1")
  const ON_CHAIN_CHALLENGE_TAG: Str := Ascii("LEZ-TokenStudio/OnChainChallenge/v1")
  const ON_CHAIN_PRESENTATION_TAG: Str := Ascii("LEZ-TokenStudio/OnChainPresentation/v1")
  const ON_CHAIN_NONCE_TAG: Str := Ascii("LEZ-TokenStudio/OnChainNonce/v1")
  const ADMISSION_TAG: Str := Ascii("LEZ-TokenStudio/LogosChatAdmission/v1")

  datatype Token =
    | Fixed(bytes: seq<byte>)
    | Prefixed(text: Text)
    | Moment(time: Option<u64>)

  /** What a reader knows before it sees the bytes. */
  datatype Shape = FixedShape(length: nat) | PrefixedShape | MomentShape

  function ShapeOf(t: Token): Shape {
    match t
    case Fixed(bytes) => FixedShape(|bytes|)
    case Prefixed(_) => PrefixedShape
    case Moment(_) => MomentShape
  }

  function Shapes(ts: seq<Token>): seq<Shape> {
    seq(|ts|, i requires 0 <= i < |ts| => ShapeOf(ts[i]))
  }

  function EmitToken(t: Token): seq<byte> {
    match t
    case Fixed(bytes) => bytes
    case Prefixed(text) => LittleEndian(|text|, 4) + text
    case Moment(None) => [0]
    case Moment(Some(at)) => [1] + LittleEndian(at, 8)
  }

  function Emit(ts: seq<Token>): seq<byte> {
    if ts == [] then [] else EmitToken(ts[0]) + Emit(ts[1..])
  }

  function ParseToken(shape: Shape, s: seq<byte>): Option<(Token, seq<byte>)> {
    match shape
    case FixedShape(n) =>
      if |s| < n then None else Some((Fixed(s[..n]), s[n..]))
    case PrefixedShape =>
      if |s| < 4 then None
      else
        var n := FromLittleEndian(s[..4]);
        if |s| - 4 < n || n >= 0x1_0000_0000 then None else Some((Prefixed(s[4..][..n]), s[4..][n..]))
    case MomentShape =>
      if |s| >= 1 && s[0] == 0 then Some((Moment(None), s[1..]))
      else if |s| >= 9 && s[0] == 1 then
        assert FromLittleEndian(s[1..9]) <= U64_MAX by {
          FromLittleEndianRoundTrip(s[1..9]);
          Widths();
        }
        Some((Moment(Some(FromLittleEndian(s[1..9]))), s[9..]))
      else None
  }

  /** Reads a token list back; what is left over is returned. */
  function Parse(shapes: seq<Shape>, s: seq<byte>): Option<(seq<Token>, seq<byte>)> {
    if shapes == [] then Some(([], s))
    else
      match ParseToken(shapes[0], s)
      case None => None
      case Some((t, rest)) =>
        match Parse(shapes[1..], rest)
        case None => None
        case Some((ts, end)) => Some(([t] + ts, end))
  }

  lemma ParsePrefixedRoundTrip(text: Text, rest: seq<byte>)
    ensures ParseToken(PrefixedShape, EmitToken(Prefixed(text)) + rest) == Some((Prefixed(text), rest))
  {
    var s := EmitToken(Prefixed(text)) + rest;
    Widths();
    LittleEndianRoundTrip(|text|, 4);
    assert s[..4] == LittleEndian(|text|, 4);
    assert s[4..] == text + rest;
    assert s[4..][..|text|] == text && s[4..][|text|..] == rest;
  }

  lemma ParseMomentRoundTrip(at: u64, rest: seq<byte>)
    ensures ParseToken(MomentShape, EmitToken(Moment(Some(at))) + rest) == Some((Moment(Some(at)), rest))
  {
    var s := EmitToken(Moment(Some(at))) + rest;
    Widths();
    LittleEndianRoundTrip(at, 8);
    assert s[1..9] == LittleEndian(at, 8) && s[9..] == rest;
  }

  lemma ParseTokenRoundTrip(t: Token, rest: seq<byte>)
    ensures ParseToken(ShapeOf(t), EmitToken(t) + rest) == Some((t, rest))
  {
    var s := EmitToken(t) + rest;
    match t
    case Fixed(bytes) =>
      assert s[..|bytes|] == bytes && s[|bytes|..] == rest;
    case Prefixed(text) =>
      ParsePrefixedRoundTrip(text, rest);
    case Moment(None) =>
      assert s[1..] == rest;
    case Moment(Some(at)) =>
      ParseMomentRoundTrip(at, rest);
  }

  /** The parser undoes the encoder and stops exactly where the encoding ends. */
  lemma {:induction false} ParseRoundTrip(ts: seq<Token>, rest: seq<byte>)
    ensures Parse(Shapes(ts), Emit(ts) + rest) == Some((ts, rest))
  {
    if ts == [] {
      assert Emit(ts) + rest == rest;
    } else {
      ParseTokenRoundTrip(ts[0], Emit(ts[1..]) + rest);
      Associative(EmitToken(ts[0]), Emit(ts[1..]), rest);
      ParseRoundTrip(ts[1..], rest);
      assert Shapes(ts)[1..] == Shapes(ts[1..]);
      ParseStep(Shapes(ts), Emit(ts) + rest, ts[0], Emit(ts[1..]) + rest, ts[1..], rest);
      assert ts == [ts[0]] + ts[1..];
    }
  }

  lemma ParseStep(shapes: seq<Shape>, s: seq<byte>, t: Token, middle: seq<byte>, ts: seq<Token>, rest: seq<byte>)
    requires shapes != [] && ParseToken(shapes[0], s) == Some((t, middle))
    requires Parse(shapes[1..], middle) == Some((ts, rest))
    ensures Parse(shapes, s) == Some(([t] + ts, rest))
  {
  }

  /** Encodings of one shape are injective and none is a proper prefix of another. */
  lemma PrefixFree(a: seq<Token>, b: seq<Token>, x: seq<byte>, y: seq<byte>)
    requires Shapes(a) == Shapes(b)
    requires Emit(a) + x == Emit(b) + y
    ensures a == b && x == y
  {
    ParseRoundTrip(a, x);
    ParseRoundTrip(b, y);
  }

  lemma ParseTokenExact(shape: Shape, s: seq<byte>)
    requires ParseToken(shape, s).Some?
    ensures var (t, rest) := ParseToken(shape, s).value;
            ShapeOf(t) == shape && s == EmitToken(t) + rest
  {
    match shape
    case FixedShape(n) =>
    case PrefixedShape =>
      FromLittleEndianRoundTrip(s[..4]);
      assert s == s[..4] + s[4..];
    case MomentShape =>
      if s[0] == 1 {
        FromLittleEndianRoundTrip(s[1..9]);
        assert s == [1] + s[1..9] + s[9..];
      }
  }

  /** What the parser reads is what the encoder would have written. */
  lemma {:induction false} ParseExact(shapes: seq<Shape>, s: seq<byte>)
    requires Parse(shapes, s).Some?
    ensures var (ts, rest) := Parse(shapes, s).value;
            Shapes(ts) == shapes && s == Emit(ts) + rest
  {
    if shapes == [] {
    } else {
      var (t, middle) := ParseToken(shapes[0], s).value;
      var (ts, rest) := Parse(shapes[1..], middle).value;
      ParseTokenExact(shapes[0], s);
      ParseExact(shapes[1..], middle);
      assert ([t] + ts)[1..] == ts;
      Associative(EmitToken(t), Emit(ts), rest);
      assert Shapes([t] + ts) == [shapes[0]] + Shapes(ts);
    }
  }

  lemma Associative<T>(a: seq<T>, b: seq<T>, c: seq<T>)
    ensures (a + b) + c == a + (b + c)
  {
  }

  lemma {:induction false} EmitAppend(a: seq<Token>, b: seq<Token>)
    ensures Emit(a + b) == Emit(a) + Emit(b)
  {
    if a == [] {
      assert a + b == b;
    } else {
      var head, tail := EmitToken(a[0]), Emit(a[1..]);
      calc {
        Emit(a + b);
        { assert (a + b)[1..] == a[1..] + b && (a + b)[0] == a[0]; }
        head + Emit(a[1..] + b);
        { EmitAppend(a[1..], b); }
        head + (tail + Emit(b));
        { Associative(head, tail, Emit(b)); }
        (head + tail) + Emit(b);
      }
    }
  }

  lemma EmitOne(ts: seq<Token>, t: Token)
    ensures Emit(ts + [t]) == Emit(ts) + EmitToken(t)
  {
    EmitAppend(ts, [t]);
    assert Emit([t]) == EmitToken(t) + Emit([t][1..]);
  }

  /** The purposes a preimage can serve; each has its own leading tag. */
  datatype Domain =
    | GateContextTag | JournalTag | ChallengeTag | PresentationTag
    | OnChainChallengeTag | OnChainPresentationTag | OnChainNonceTag | AdmissionTag

  function Tag(d: Domain): Str {
    match d
    case GateContextTag => GATE_CONTEXT_TAG
    case JournalTag => JOURNAL_TAG
    case ChallengeTag => CHALLENGE_TAG
    case PresentationTag => PRESENTATION_TAG
    case OnChainChallengeTag => ON_CHAIN_CHALLENGE_TAG
    case OnChainPresentationTag => ON_CHAIN_PRESENTATION_TAG
    case OnChainNonceTag => ON_CHAIN_NONCE_TAG
    case AdmissionTag => ADMISSION_TAG
  }

  function Letter(d: Domain): (int, int) {
    match d
    case GateContextTag => (71, 116)
    case JournalTag => (65, 97)
    case ChallengeTag => (86, 97)
    case PresentationTag => (80, 97)
    case OnChainChallengeTag => (79, 67)
    case OnChainPresentationTag => (79, 80)
    case OnChainNonceTag => (79, 78)
    case AdmissionTag => (76, 97)
  }

  lemma TagLetters(d: Domain)
    ensures |Tag(d)| >= 24
    ensures Tag(d)[16] == Letter(d).0
    ensures Letter(d).0 == 79 ==> Tag(d)[23] == Letter(d).1
  {
  }

  lemma DifferentAt(p: seq<byte>, q: seq<byte>, x: seq<byte>, y: seq<byte>, i: nat)
    requires i < |p| && i < |q| && p[i] != q[i]
    ensures p + x != q + y
  {
    assert (p + x)[i] == p[i] && (q + y)[i] == q[i];
  }

  /** Preimages built for different purposes differ, whatever follows the tags. */
  lemma DomainSeparation(d: Domain, e: Domain, x: seq<byte>, y: seq<byte>)
    requires d != e
    ensures Tag(d) + x != Tag(e) + y
  {
    TagLetters(d);
    TagLetters(e);
    DifferentAt(Tag(d), Tag(e), x, y, if Letter(d).0 != Letter(e).0 then 16 else 23);
  }

  method AppendWords(start: seq<byte>, owner: seq<u32>) returns (bytes: seq<byte>)
    ensures bytes == start + Words(owner)
  {
    bytes := start;
    for i := 0 to |owner|
      invariant bytes == start + Words(owner[..i])
    {
      assert owner[..i + 1] == owner[..i] + [owner[i]];
      WordsOne(owner[..i], owner[i]);
      Associative(start, Words(owner[..i]), LittleEndian(owner[i], 4));
      bytes := bytes + LittleEndian(owner[i], 4);
    }
    assert owner[..|owner|] == owner;
  }

  /** The byte vector an encoder appends to. The tokens record what has been written. */
  class Buffer {
    var bytes: seq<byte>
    ghost var tokens: seq<Token>

    ghost predicate Valid()
      reads this
    {
      bytes == Emit(tokens)
    }

    constructor ()
      ensures Valid() && tokens == []
    {
      bytes, tokens := [], [];
    }

    method Extend(slice: seq<byte>)
      requires Valid()
      modifies this
      ensures Valid() && tokens == old(tokens) + [Fixed(slice)]
    {
      EmitOne(tokens, Fixed(slice));
      bytes := bytes + slice;
      tokens := tokens + [Fixed(slice)];
    }

    method WriteString(text: Text)
      requires Valid()
      modifies this
      ensures Valid() && tokens == old(tokens) + [Prefixed(text)]
    {
      EmitOne(tokens, Prefixed(text));
      bytes := bytes + LittleEndian(|text|, 4);
      bytes := bytes + text;
      tokens := tokens + [Prefixed(text)];
    }

    method WriteMoment(time: Option<u64>)
      requires Valid()
      modifies this
      ensures Valid() && tokens == old(tokens) + [Moment(time)]
    {
      EmitOne(tokens, Moment(time));
      match time {
        case Some(at) =>
          bytes := bytes + [1];
          bytes := bytes + LittleEndian(at, 8);
        case None =>
          bytes := bytes + [0];
      }
      tokens := tokens + [Moment(time)];
    }

    method WriteWords(owner: Owner)
      requires Valid()
      modifies this
      ensures Valid() && tokens == old(tokens) + [Fixed(Words(owner))]
    {
      EmitOne(tokens, Fixed(Words(owner)));
      bytes := AppendWords(bytes, owner);
      tokens := tokens + [Fixed(Words(owner))];
    }
  }

  lemma {:induction false} WordsOne(o: seq<u32>, w: u32)
    ensures Words(o + [w]) == Words(o) + LittleEndian(w, 4)
  {
    if o == [] {
      assert o + [w] == [w];
      assert Words([w]) == LittleEndian(w, 4) + Words([w][1..]);
    } else {
      WordsOne(o[1..], w);
      assert (o + [w])[1..] == o[1..] + [w];
      Associative(LittleEndian(o[0], 4), Words(o[1..]), LittleEndian(w, 4));
    }
  }
}
