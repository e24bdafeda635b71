/**
  UTF-16 names in guest structures, their UTF-8 form, and the UTF-8 validator.

  Bytes, UTF-16 units and code points are bit-vectors, and the encoders use the source's
  own shifts and masks.
*/
module Unicode {

  type Byte = bv8
  type Unit = bv16
  type Code = bv32

  // -------------------------------------------------------------- code points

  /** A Unicode scalar value. */
  predicate IsScalar(c: Code) {
    c < 0x11_0000 && !(0xD800 <= c <= 0xDFFF)
  }

  /** Any code point, surrogates included. */
  predicate IsCode(c: Code) {
    c < 0x11_0000
  }

  predicate IsHigh(u: Unit) {
    0xD800 <= u < 0xDC00
  }

  predicate IsLow(u: Unit) {
    0xDC00 <= u < 0xE000
  }

  function Pair(high: Unit, low: Unit): Code {
    Supplementary(FromHigh(high), FromLow(low))
  }

  function Supplementary(high: Code, low: Code): Code {
    0x1_0000 + (high << 10) + low
  }

  function Low8(c: Code): Byte {
    (c & 0xFF) as Byte
  }

  function Low16(c: Code): Unit {
    (c & 0xFFFF) as Unit
  }

  function Wide(b: Byte): Code {
    b as Code
  }

  /** A continuation byte carries six bits. */
  function Trail(c: Code): Byte {
    Low8(0x80 | (c & 0x3F))
  }

  predicate IsTrail(b: Byte) {
    b & 0xC0 == 0x80
  }

  function Six(b: Byte): Code {
    Wide(b) & 0x3F
  }

  function Append(code: Code, b: Byte): Code {
    (code << 6) | Six(b)
  }

  /** The UTF-8 form of a code point (section 3 of RFC 3629), surrogates encoded as any
      other three-byte code. */
  function Utf8(c: Code): (t: seq<Byte>)
    ensures 1 <= |t| <= 4
  {
    if c < 0x80 then [Low8(c)]
    else if c < 0x800 then [LeadTwo(c), Trail(c)]
    else if c < 0x1_0000 then [LeadThree(c), Trail(c >> 6), Trail(c)]
    else [LeadFour(c), Trail(c >> 12), Trail(c >> 6), Trail(c)]
  }

  function LeadTwo(c: Code): Byte {
    Low8(0xC0 | (c >> 6))
  }

  function LeadThree(c: Code): Byte {
    Low8(0xE0 | (c >> 12))
  }

  function LeadFour(c: Code): Byte {
    Low8(0xF0 | (c >> 18))
  }

  // ------------------------------------------------------------ bits of a code

  lemma OneByte(c: Code)
    requires c < 0x80
    ensures Low8(c) < 0x80 && Wide(Low8(c)) == c
  {
  }

  lemma TwoBytes(c: Code)
    requires 0x80 <= c < 0x800
    ensures 0xC0 <= LeadTwo(c) < 0xE0 && LeadTwo(c) & 0xE0 == 0xC0 && IsTrail(Trail(c))
    ensures Append(Wide(LeadTwo(c)) & 0x1F, Trail(c)) == c
  {
  }

  lemma ThreeBytes(c: Code)
    requires 0x800 <= c < 0x1_0000
    ensures 0xE0 <= LeadThree(c) < 0xF0 && LeadThree(c) & 0xF0 == 0xE0 && IsTrail(Trail(c >> 6)) && IsTrail(Trail(c))
    ensures Append(Append(Wide(LeadThree(c)) & 0x0F, Trail(c >> 6)), Trail(c)) == c
  {
  }

  lemma FourBytes(c: Code)
    requires 0x1_0000 <= c < 0x11_0000
    ensures 0xF0 <= LeadFour(c) && LeadFour(c) & 0xF8 == 0xF0
    ensures IsTrail(Trail(c >> 12)) && IsTrail(Trail(c >> 6)) && IsTrail(Trail(c))
    ensures Append(Append(Append(Wide(LeadFour(c)) & 0x07, Trail(c >> 12)), Trail(c >> 6)), Trail(c)) == c
  {
  }

  lemma FromTwo(a: Byte, b: Byte)
    requires a & 0xE0 == 0xC0 && IsTrail(b) && Append(Wide(a) & 0x1F, b) >= 0x80
    ensures var c := Append(Wide(a) & 0x1F, b); c < 0x800 && LeadTwo(c) == a && Trail(c) == b
  {
  }

  lemma FromThree(a: Byte, b1: Byte, b2: Byte)
    requires a & 0xF0 == 0xE0 && IsTrail(b1) && IsTrail(b2)
    ensures var c := Append(Append(Wide(a) & 0x0F, b1), b2);
      c < 0x1_0000 && LeadThree(c) == a && Trail(c >> 6) == b1 && Trail(c) == b2
  {
  }

  lemma FromFour(a: Byte, b1: Byte, b2: Byte, b3: Byte)
    requires a & 0xF8 == 0xF0 && IsTrail(b1) && IsTrail(b2) && IsTrail(b3)
    ensures var c := Append(Append(Append(Wide(a) & 0x07, b1), b2), b3);
      LeadFour(c) == a && Trail(c >> 12) == b1 && Trail(c >> 6) == b2 && Trail(c) == b3
  {
  }

  lemma PairPieces(high: Unit, low: Unit)
    requires IsHigh(high) && IsLow(low)
    ensures 0x1_0000 <= Pair(high, low) < 0x11_0000
    ensures HighOf(Pair(high, low)) == high && LowOf(Pair(high, low)) == low
  {
    hide Upper, Lower, HighUnit, LowUnit, FromHigh, FromLow, IsHigh, IsLow, Supplementary;
    HighBack(high);
    LowBack(low);
    JoinTen(FromHigh(high), FromLow(low));
  }

  lemma JoinTen(x: Code, y: Code)
    requires x < 0x400 && y < 0x400
    ensures var c := Supplementary(x, y);
      0x1_0000 <= c < 0x11_0000 && Upper(c - 0x1_0000) == x && Lower(c - 0x1_0000) == y
  {
  }

  lemma HighBack(u: Unit)
    requires IsHigh(u)
    ensures FromHigh(u) < 0x400 && HighUnit(FromHigh(u)) == u
  {
  }

  lemma LowBack(u: Unit)
    requires IsLow(u)
    ensures FromLow(u) < 0x400 && LowUnit(FromLow(u)) == u
  {
  }

  function HighOf(c: Code): Unit {
    HighUnit(Upper(c - 0x1_0000))
  }

  function LowOf(c: Code): Unit {
    LowUnit(Lower(c - 0x1_0000))
  }

  function Upper(d: Code): Code {
    d >> 10
  }

  function Lower(d: Code): Code {
    d & 0x3FF
  }

  function HighUnit(x: Code): Unit {
    Low16(0xD800 + x)
  }

  function LowUnit(x: Code): Unit {
    Low16(0xDC00 + x)
  }

  function FromHigh(u: Unit): Code {
    (u as Code) - 0xD800
  }

  function FromLow(u: Unit): Code {
    (u as Code) - 0xDC00
  }

  lemma PiecesPair(c: Code)
    requires 0x1_0000 <= c < 0x11_0000
    ensures IsHigh(HighOf(c)) && IsLow(LowOf(c)) && Pair(HighOf(c), LowOf(c)) == c
  {
    hide Upper, Lower, HighUnit, LowUnit, FromHigh, FromLow, IsHigh, IsLow, Supplementary;
    SplitTen(c);
    HighUnitHolds(Upper(c - 0x1_0000));
    LowUnitHolds(Lower(c - 0x1_0000));
  }

  lemma SplitTen(c: Code)
    requires 0x1_0000 <= c < 0x11_0000
    ensures var d := c - 0x1_0000; Upper(d) < 0x400 && Lower(d) < 0x400 && Supplementary(Upper(d), Lower(d)) == c
  {
  }

  lemma HighUnitHolds(x: Code)
    requires x < 0x400
    ensures IsHigh(HighUnit(x)) && FromHigh(HighUnit(x)) == x
  {
  }

  lemma LowUnitHolds(x: Code)
    requires x < 0x400
    ensures IsLow(LowUnit(x)) && FromLow(LowUnit(x)) == x
  {
  }

  lemma UnitCode(u: Unit)
    ensures (u as Code) < 0x1_0000 && Low16(u as Code) == u
    ensures IsScalar(u as Code) <==> !IsHigh(u) && !IsLow(u)
  {
  }

  // ---------------------------------------------------------- encode and decode

  /** The code points of a name: adjacent surrogate pairs joined, the rest as they are. */
  function Codes(units: seq<Unit>): (r: seq<Code>)
    ensures forall i :: 0 <= i < |r| ==> IsCode(r[i])
    decreases |units|
  {
    if units == [] then []
    else if IsHigh(units[0]) && |units| > 1 && IsLow(units[1]) then
      PairPieces(units[0], units[1]);
      [Pair(units[0], units[1])] + Codes(units[2..])
    else
      UnitCode(units[0]);
      [units[0] as Code] + Codes(units[1..])
  }

  function Encode(codes: seq<Code>): seq<Byte> {
    if codes == [] then [] else Utf8(codes[0]) + Encode(codes[1..])
  }

  lemma {:induction false} EncodeAppend(codes: seq<Code>, c: Code)
    ensures Encode(codes + [c]) == Encode(codes) + Utf8(c)
  {
    hide Utf8;
    if codes == [] {
      assert codes + [c] == [c] && [c][1..] == [];
      assert Encode([c]) == Utf8(c) + Encode([]);
    } else {
      EncodeAppend(codes[1..], c);
      assert (codes + [c])[1..] == codes[1..] + [c];
    }
  }

  /** What the lenient decoder takes a first byte for: its own bits and how many more
      bytes belong to it. */
  function Start(b: Byte): (Code, nat) {
    if b >= 0xF0 then (Wide(b) & 0x07, 3)
    else if b >= 0xE0 then (Wide(b) & 0x0F, 2)
    else if b >= 0xC0 then (Wide(b) & 0x1F, 1)
    else (Wide(b), 0)
  }

  function Gather(code: Code, trail: seq<Byte>): Code
    decreases |trail|
  {
    if trail == [] then code else Gather(Append(code, trail[0]), trail[1..])
  }

  function Pieces(c: Code): (r: seq<Unit>)
    ensures 1 <= |r| <= 2
  {
    if c >= 0x1_0000 then [HighOf(c), LowOf(c)] else [Low16(c)]
  }

  function Min(a: nat, b: nat): nat {
    if a < b then a else b
  }

  /** The decoder: any bytes at all, a last character cut short included. */
  function Decode(text: seq<Byte>): seq<Unit>
    decreases |text|
  {
    if text == [] then []
    else
      var n := 1 + Min(Start(text[0]).1, |text| - 1);
      Pieces(Gather(Start(text[0]).0, text[1..n])) + Decode(text[n..])
  }

  lemma GatherOne(code: Code, a: Byte)
    ensures Gather(code, [a]) == Append(code, a)
  {
  }

  lemma GatherTwo(code: Code, a: Byte, b: Byte)
    ensures Gather(code, [a, b]) == Append(Append(code, a), b)
  {
    assert [a, b][1..] == [b];
    GatherOne(Append(code, a), b);
  }

  lemma GatherThree(code: Code, a: Byte, b: Byte, c: Byte)
    ensures Gather(code, [a, b, c]) == Append(Append(Append(code, a), b), c)
  {
    assert [a, b, c][1..] == [b, c];
    GatherTwo(Append(code, a), b, c);
  }

  /** The decoder undoes the encoding of one code point. */
  lemma StartOf(c: Code)
    requires IsCode(c)
    ensures var t := Utf8(c); Start(t[0]).1 == |t| - 1 && Gather(Start(t[0]).0, t[1..]) == c
  {
    hide Append, Trail, Wide, LeadTwo, LeadThree, LeadFour, Low8, IsTrail;
    var t := Utf8(c);
    if c < 0x80 {
      OneByte(c);
      assert t[1..] == [];
    } else if c < 0x800 {
      TwoBytes(c);
      assert t[1..] == [t[1]];
      GatherOne(Wide(t[0]) & 0x1F, t[1]);
    } else if c < 0x1_0000 {
      ThreeBytes(c);
      assert t[1..] == [t[1], t[2]];
      GatherTwo(Wide(t[0]) & 0x0F, t[1], t[2]);
    } else {
      FourBytes(c);
      assert t[1..] == [t[1], t[2], t[3]];
      GatherThree(Wide(t[0]) & 0x07, t[1], t[2], t[3]);
    }
  }

  lemma DecodeOne(c: Code, rest: seq<Byte>)
    requires IsCode(c)
    ensures Decode(Utf8(c) + rest) == Pieces(c) + Decode(rest)
  {
    hide Utf8, Start, Gather, Pieces;
    var t := Utf8(c);
    var text := t + rest;
    StartOf(c);
    assert text[1..|t|] == t[1..] && text[|t|..] == rest;
  }

  /** Any units at all, unpaired surrogates included, survive the way into UTF-8 and back. */
  lemma {:induction false} UnitsSurvive(units: seq<Unit>)
    ensures Decode(Encode(Codes(units))) == units
    decreases |units|
  {
    hide Utf8, Decode, Pair, HighOf, LowOf, Low16, IsHigh, IsLow;
    if units == [] {
      DecodeNothing();
    } else {
      var codes := Codes(units);
      if IsHigh(units[0]) && |units| > 1 && IsLow(units[1]) {
        UnitsSurvive(units[2..]);
        PairPieces(units[0], units[1]);
        assert codes[1..] == Codes(units[2..]);
        assert units == [units[0], units[1]] + units[2..];
      } else {
        UnitsSurvive(units[1..]);
        UnitCode(units[0]);
        assert codes[1..] == Codes(units[1..]);
        assert units == [units[0]] + units[1..];
      }
      DecodeOne(codes[0], Encode(codes[1..]));
    }
  }

  lemma DecodeNothing()
    ensures Decode([]) == []
  {
  }

  // ----------------------------------------------------------------- validation

  /** Continuation bytes a first byte announces; negative for a byte that cannot be first. */
  function Class(b: Byte): int {
    if b < 0x80 then 0
    else if b & 0xE0 == 0xC0 then 1
    else if b & 0xF0 == 0xE0 then 2
    else if b & 0xF8 == 0xF0 then 3
    else -1
  }

  function Payload(b: Byte): Code {
    if b < 0x80 then Wide(b)
    else if b & 0xE0 == 0xC0 then Wide(b) & 0x1F
    else if b & 0xF0 == 0xE0 then Wide(b) & 0x0F
    else Wide(b) & 0x07
  }

  /** No longer than needed, and a scalar value. */
  predicate Fits(n: int, c: Code) {
    !((n == 1 && c < 0x80) || (n == 2 && c < 0x800) || (n == 3 && c < 0x1_0000)
      || c > 0x10_FFFF || 0xD800 <= c <= 0xDFFF)
  }

  predicate AllTrail(t: seq<Byte>) {
    forall i :: 0 <= i < |t| ==> IsTrail(t[i])
  }

  /** The first character of a text is well formed. */
  predicate HeadValid(text: seq<Byte>)
    requires text != []
  {
    var n := Class(text[0]);
    0 <= n < |text| && AllTrail(text[1..n + 1]) && Fits(n, Gather(Payload(text[0]), text[1..n + 1]))
  }

  predicate Valid(text: seq<Byte>)
    decreases |text|
  {
    text == [] || (HeadValid(text) && Valid(text[Class(text[0]) + 1..]))
  }

  predicate AllScalar(codes: seq<Code>) {
    forall i :: 0 <= i < |codes| ==> IsScalar(codes[i])
  }

  /** The text is the UTF-8 form of some scalar values. */
  ghost predicate IsUtf8(text: seq<Byte>) {
    exists scalars :: AllScalar(scalars) && Encode(scalars) == text
  }

  /** What the first bytes of a well-formed character tell. */
  predicate ClassIs(t: seq<Byte>, c: Code)
    requires t != []
  {
    Class(t[0]) == |t| - 1 && AllTrail(t[1..]) && Gather(Payload(t[0]), t[1..]) == c
    && (Fits(|t| - 1, c) <==> IsScalar(c))
  }

  lemma ClassOf(c: Code)
    requires IsCode(c)
    ensures ClassIs(Utf8(c), c)
  {
    hide Append, Trail, Wide, LeadTwo, LeadThree, LeadFour, Low8, IsTrail, Class, Payload, Gather, ClassIs;
    if c < 0x80 {
      OneByte(c);
      ClassOne(c);
    } else if c < 0x800 {
      TwoBytes(c);
      ClassTwo(c, LeadTwo(c), Trail(c));
    } else if c < 0x1_0000 {
      ThreeBytes(c);
      ClassThree(c, LeadThree(c), Trail(c >> 6), Trail(c));
    } else {
      FourBytes(c);
      ClassFour(c, LeadFour(c), Trail(c >> 12), Trail(c >> 6), Trail(c));
    }
  }

  lemma ClassOne(c: Code)
    requires c < 0x80 && Low8(c) < 0x80 && Wide(Low8(c)) == c
    ensures ClassIs([Low8(c)], c)
  {
    hide Low8, Wide, IsTrail;
    assert [Low8(c)][1..] == [];
  }

  lemma ClassTwo(c: Code, a: Byte, b: Byte)
    requires 0x80 <= c < 0x800 && a & 0xE0 == 0xC0 && IsTrail(b) && Append(Wide(a) & 0x1F, b) == c
    ensures ClassIs([a, b], c)
  {
    hide Append, Wide, IsTrail, Class, Payload, Gather;
    LeadClass(a);
    assert [a, b][1..] == [b];
    GatherOne(Payload(a), b);
  }

  lemma ClassThree(c: Code, a: Byte, b1: Byte, b2: Byte)
    requires 0x800 <= c < 0x1_0000 && a & 0xF0 == 0xE0 && IsTrail(b1) && IsTrail(b2)
    requires Append(Append(Wide(a) & 0x0F, b1), b2) == c
    ensures ClassIs([a, b1, b2], c)
  {
    hide Append, Wide, IsTrail, Class, Payload, Gather;
    LeadClass(a);
    assert [a, b1, b2][1..] == [b1, b2];
    GatherTwo(Payload(a), b1, b2);
  }

  lemma ClassFour(c: Code, a: Byte, b1: Byte, b2: Byte, b3: Byte)
    requires 0x1_0000 <= c < 0x11_0000 && a & 0xF8 == 0xF0 && IsTrail(b1) && IsTrail(b2) && IsTrail(b3)
    requires Append(Append(Append(Wide(a) & 0x07, b1), b2), b3) == c
    ensures ClassIs([a, b1, b2, b3], c)
  {
    hide Append, Wide, IsTrail, Class, Payload, Gather;
    LeadClass(a);
    assert [a, b1, b2, b3][1..] == [b1, b2, b3];
    GatherThree(Payload(a), b1, b2, b3);
  }

  lemma LeadClass(b: Byte)
    ensures b & 0xE0 == 0xC0 ==> Class(b) == 1 && Payload(b) == Wide(b) & 0x1F
    ensures b & 0xF0 == 0xE0 ==> Class(b) == 2 && Payload(b) == Wide(b) & 0x0F
    ensures b & 0xF8 == 0xF0 ==> Class(b) == 3 && Payload(b) == Wide(b) & 0x07
  {
  }

  /** Behind the form of one code point, a text is valid exactly when that code point is a
      scalar value and the rest is valid. */
  lemma ValidOne(c: Code, rest: seq<Byte>)
    requires IsCode(c)
    ensures Valid(Utf8(c) + rest) <==> IsScalar(c) && Valid(rest)
  {
    hide Utf8, Class, Payload, Gather, Fits, IsScalar, AllTrail;
    var t := Utf8(c);
    var text := t + rest;
    ClassOf(c);
    assert text[1..|t|] == t[1..] && text[|t|..] == rest;
  }

  lemma {:induction false} ValidEncode(codes: seq<Code>)
    requires forall i :: 0 <= i < |codes| ==> IsCode(codes[i])
    ensures Valid(Encode(codes)) <==> AllScalar(codes)
  {
    hide Utf8, IsScalar, HeadValid;
    if codes != [] {
      ValidEncode(codes[1..]);
      ValidOne(codes[0], Encode(codes[1..]));
      assert AllScalar(codes) <==> IsScalar(codes[0]) && AllScalar(codes[1..]) by { ScalarsSplit(codes); }
    }
  }

  lemma ScalarsSplit(codes: seq<Code>)
    requires codes != []
    ensures AllScalar(codes) <==> IsScalar(codes[0]) && AllScalar(codes[1..])
  {
    hide IsScalar;
    if IsScalar(codes[0]) && AllScalar(codes[1..]) {
      forall i | 0 <= i < |codes| ensures IsScalar(codes[i]) {
        if i > 0 { assert codes[1..][i - 1] == codes[i]; }
      }
    }
  }

  /** A well-formed first character is the form of the scalar value it spells. */
  lemma HeadIsScalar(text: seq<Byte>)
    requires text != [] && HeadValid(text)
    ensures var n := Class(text[0]); var c := Gather(Payload(text[0]), text[1..n + 1]);
      IsScalar(c) && Utf8(c) == text[..n + 1]
  {
    hide Append, Wide, IsTrail, Fits, IsScalar, Utf8, Class, Payload;
    var n, p := Class(text[0]), Payload(text[0]);
    ClassMeans(text[0]);
    var trail := text[1..n + 1];
    if n == 0 {
      assert trail == [] && text[..1] == [text[0]];
      OneFrom(text[0]);
    } else if n == 1 {
      assert trail == [text[1]] && text[..2] == [text[0], text[1]];
      GatherOne(p, text[1]);
      HeadTwo(text[0], text[1]);
    } else if n == 2 {
      assert trail == [text[1], text[2]] && text[..3] == [text[0], text[1], text[2]];
      assert IsTrail(trail[0]) && IsTrail(trail[1]);
      GatherTwo(p, text[1], text[2]);
      HeadThree(text[0], text[1], text[2]);
    } else {
      assert trail == [text[1], text[2], text[3]] && text[..4] == [text[0], text[1], text[2], text[3]];
      assert IsTrail(trail[0]) && IsTrail(trail[1]) && IsTrail(trail[2]);
      GatherThree(p, text[1], text[2], text[3]);
      HeadFour(text[0], text[1], text[2], text[3]);
    }
  }

  lemma ClassMeans(b: Byte)
    ensures Class(b) <= 3
    ensures Class(b) == 0 ==> b < 0x80 && Payload(b) == Wide(b)
    ensures Class(b) == 1 ==> b & 0xE0 == 0xC0 && Payload(b) == Wide(b) & 0x1F
    ensures Class(b) == 2 ==> b & 0xF0 == 0xE0 && Payload(b) == Wide(b) & 0x0F
    ensures Class(b) == 3 ==> b & 0xF8 == 0xF0 && Payload(b) == Wide(b) & 0x07
  {
  }

  lemma HeadTwo(a: Byte, b: Byte)
    requires a & 0xE0 == 0xC0 && IsTrail(b) && Fits(1, Append(Wide(a) & 0x1F, b))
    ensures var c := Append(Wide(a) & 0x1F, b); IsScalar(c) && Utf8(c) == [a, b]
  {
    hide Append, Trail, Wide, LeadTwo, LeadThree, LeadFour, Low8, IsTrail;
    FromTwo(a, b);
  }

  lemma HeadThree(a: Byte, b1: Byte, b2: Byte)
    requires a & 0xF0 == 0xE0 && IsTrail(b1) && IsTrail(b2) && Fits(2, Append(Append(Wide(a) & 0x0F, b1), b2))
    ensures var c := Append(Append(Wide(a) & 0x0F, b1), b2); IsScalar(c) && Utf8(c) == [a, b1, b2]
  {
    hide Append, Trail, Wide, LeadTwo, LeadThree, LeadFour, Low8, IsTrail;
    FromThree(a, b1, b2);
  }

  lemma HeadFour(a: Byte, b1: Byte, b2: Byte, b3: Byte)
    requires a & 0xF8 == 0xF0 && IsTrail(b1) && IsTrail(b2) && IsTrail(b3)
    requires Fits(3, Append(Append(Append(Wide(a) & 0x07, b1), b2), b3))
    ensures var c := Append(Append(Append(Wide(a) & 0x07, b1), b2), b3); IsScalar(c) && Utf8(c) == [a, b1, b2, b3]
  {
    hide Append, Trail, Wide, LeadTwo, LeadThree, LeadFour, Low8, IsTrail;
    FromFour(a, b1, b2, b3);
  }

  lemma OneFrom(b: Byte)
    requires b < 0x80
    ensures IsScalar(Wide(b)) && Utf8(Wide(b)) == [b]
  {
  }

  /** The scalar values a valid text spells. */
  function Scalars(text: seq<Byte>): seq<Code>
    requires Valid(text)
    decreases |text|
  {
    if text == [] then []
    else
      var n := Class(text[0]) + 1;
      [Gather(Payload(text[0]), text[1..n])] + Scalars(text[n..])
  }

  lemma {:induction false} ScalarsEncode(text: seq<Byte>)
    requires Valid(text)
    ensures AllScalar(Scalars(text)) && Encode(Scalars(text)) == text
    decreases |text|
  {
    hide Utf8, Class, Payload, Gather, IsScalar, HeadValid;
    if text != [] {
      var n := Class(text[0]) + 1;
      ClassBounds(text);
      HeadIsScalar(text);
      ScalarsEncode(text[n..]);
      var all := Scalars(text);
      assert all[1..] == Scalars(text[n..]);
      ScalarsSplit(all);
      assert text == text[..n] + text[n..];
    }
  }

  lemma ClassBounds(text: seq<Byte>)
    requires text != [] && HeadValid(text)
    ensures 0 <= Class(text[0]) < |text|
  {
  }

  /** The validator accepts exactly the UTF-8 forms of scalar values (section 4 of
      RFC 3629). */
  lemma ValidIsUtf8(text: seq<Byte>)
    ensures Valid(text) <==> IsUtf8(text)
  {
    hide Valid, Encode, AllScalar;
    if Valid(text) {
      ScalarsEncode(text);
    }
    if IsUtf8(text) {
      var scalars :| AllScalar(scalars) && Encode(scalars) == text;
      ScalarsAreCodes(scalars);
      ValidEncode(scalars);
    }
  }

  lemma ScalarsAreCodes(codes: seq<Code>)
    requires AllScalar(codes)
    ensures forall i :: 0 <= i < |codes| ==> IsCode(codes[i])
  {
  }

  // -------------------------------------------------------- unpaired surrogates

  /** Every high surrogate is followed by a low one, and every low one follows a high one. */
  predicate WellPaired(units: seq<Unit>) {
    && (forall i :: 0 <= i < |units| && IsHigh(units[i]) ==> i + 1 < |units| && IsLow(units[i + 1]))
    && (forall i :: 0 <= i < |units| && IsLow(units[i]) ==> i > 0 && IsHigh(units[i - 1]))
  }

  lemma {:induction false} PairedIsScalar(units: seq<Unit>)
    ensures WellPaired(units) <==> AllScalar(Codes(units))
    decreases |units|
  {
    hide Pair, IsHigh, IsLow, IsScalar;
    if units != [] {
      var codes := Codes(units);
      ScalarsSplit(codes);
      if IsHigh(units[0]) && |units| > 1 && IsLow(units[1]) {
        PairedIsScalar(units[2..]);
        PairPieces(units[0], units[1]);
        PairIsScalar(units[0], units[1]);
        HighNotLow(units[0]);
        HighNotLow(units[1]);
        assert codes[1..] == Codes(units[2..]);
        PairedTail(units, 2);
      } else {
        PairedIsScalar(units[1..]);
        UnitCode(units[0]);
        assert codes[1..] == Codes(units[1..]);
        PairedTail(units, 1);
      }
    }
  }

  lemma HighNotLow(u: Unit)
    ensures !(IsHigh(u) && IsLow(u))
  {
  }

  lemma PairIsScalar(high: Unit, low: Unit)
    requires IsHigh(high) && IsLow(low)
    ensures IsScalar(Pair(high, low))
  {
    hide Pair;
    PairPieces(high, low);
  }

  /** Dropping units from the front keeps pairing as long as no pair is split. */
  lemma PairedTail(units: seq<Unit>, n: nat)
    requires 1 <= n <= 2 && n <= |units|
    requires n == 2 ==> IsHigh(units[0]) && IsLow(units[1]) && !IsLow(units[0]) && !IsHigh(units[1])
    requires n == 1 ==> !(IsHigh(units[0]) && |units| > 1 && IsLow(units[1]))
    ensures WellPaired(units) <==> (n == 2 || (!IsHigh(units[0]) && !IsLow(units[0]))) && WellPaired(units[n..])
  {
    hide IsHigh, IsLow;
    var rest := units[n..];
    if WellPaired(units) {
      forall i | 0 <= i < |rest| && IsLow(rest[i]) ensures i > 0 && IsHigh(rest[i - 1]) {
        assert IsLow(units[i + n]);
      }
      forall i | 0 <= i < |rest| && IsHigh(rest[i]) ensures i + 1 < |rest| && IsLow(rest[i + 1]) {
        assert IsHigh(units[i + n]);
      }
    }
    if (n == 2 || (!IsHigh(units[0]) && !IsLow(units[0]))) && WellPaired(rest) {
      forall i | 0 <= i < |units| && IsLow(units[i]) ensures i > 0 && IsHigh(units[i - 1]) {
        if i >= n { assert IsLow(rest[i - n]); }
      }
      forall i | 0 <= i < |units| && IsHigh(units[i]) ensures i + 1 < |units| && IsLow(units[i + 1]) {
        if i >= n { assert IsHigh(rest[i - n]); }
      }
    }
  }

  /** So the text made of a name is accepted by the validator exactly when the name has no
      unpaired surrogate. */
  lemma NameIsValid(units: seq<Unit>)
    ensures Valid(Encode(Codes(units))) <==> WellPaired(units)
  {
    hide Valid, Encode, Codes, WellPaired, AllScalar;
    ValidEncode(Codes(units));
    PairedIsScalar(units);
  }
}
