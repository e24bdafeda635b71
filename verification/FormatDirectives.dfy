/** What the formatter appends for one directive, said in terms of how the directive is
    written and of the argument it takes. */
module FormatDirectives {
  import opened Wrappers
  import opened Digits
  import opened Formatting
  import opened FormatProperties
  import opened GuestMemory
  import HexFloat
  import HexText

  // ------------------------------------------------------- what is asked for

  /** Arguments a directive takes for its width and precision, before its own. */
  function Stars(d: Directive): nat {
    (if d.width.Star? then 1 else 0) + (if d.precision.Some? && d.precision.value.Star? then 1 else 0)
  }

  /** The argument a directive converts. */
  function ArgumentOf(d: Directive, source: Source, memory: Memory): nat
    requires SourceOk(source)
  {
    Slot(Ahead(source, Stars(d)), memory)
  }

  /** The registers from the fourth on hold the first eight arguments, stack slots behind
      the caller's frame the others, and an array all of them; each is taken once. */
  lemma ArgumentIs(source: Source, n: nat, memory: Memory)
    requires SourceOk(source)
    ensures match source
      case Registers(gpr, index) =>
        && Next(Ahead(source, n)) == Registers(gpr, index + n + 1)
        && Slot(Ahead(source, n), memory)
           == (if index + n < 8 then gpr[3 + index + n] else BigEndian(memory, gpr[1] + 0x54 + 8 * (index + n - 8), 8))
      case Array(base, index) =>
        && Next(Ahead(source, n)) == Array(base, index + n + 1)
        && Slot(Ahead(source, n), memory) == BigEndian(memory, base + 8 * (index + n), 8)
  {
    hide Read64, BigEndian;
    match source
    case Registers(gpr, index) =>
      if index + n >= 8 { ReadsBigEndian(memory, gpr[1] + 0x54 + 8 * (index + n - 8)); }
    case Array(base, index) => ReadsBigEndian(memory, base + 8 * (index + n));
  }

  function WidthAsked(d: Directive, source: Source, memory: Memory): int
    requires SourceOk(source)
  {
    match d.width
    case Absent => 0
    case Count(digits) => Number(digits, 10)
    case Star => ToInt32(Slot(source, memory))
  }

  /** A negative width is one for a left-aligned field. */
  function WidthOf(d: Directive, source: Source, memory: Memory): nat
    requires SourceOk(source)
  {
    var w := WidthAsked(d, source, memory);
    if w < 0 then -w else w
  }

  predicate LeftAligned(d: Directive, source: Source, memory: Memory)
    requires SourceOk(source)
  {
    '-' as nat in d.flags || WidthAsked(d, source, memory) < 0
  }

  /** Where the arguments behind the width's begin. */
  function BehindWidth(d: Directive, source: Source): Source {
    if d.width.Star? then Next(source) else source
  }

  /** A precision, or -1 when there is none. */
  function PrecisionFrom(p: Option<Quantity>, source: Source, memory: Memory): int
    requires SourceOk(source)
  {
    if p.None? then -1
    else
      match p.value
      case Absent => 0
      case Count(digits) => Number(digits, 10)
      case Star => if ToInt32(Slot(source, memory)) < 0 then -1 else ToInt32(Slot(source, memory))
  }

  function PrecisionOf(d: Directive, source: Source, memory: Memory): int
    requires SourceOk(source)
  {
    PrecisionFrom(d.precision, BehindWidth(d, source), memory)
  }

  /** How many values the bits have that the size prefixes select. */
  function Range(d: Directive): (m: nat)
    ensures m > 0
  {
    if L2 in d.sizes || I64 in d.sizes then 0x1_0000_0000_0000_0000
    else if H in d.sizes then 0x1_0000
    else 0x1_0000_0000
  }

  /** The sign of a 32-bit argument. */
  lemma ToInt32Is(v: nat)
    ensures var w := ToInt32(v);
      && -0x8000_0000 <= w < 0x8000_0000
      && (w >= 0 ==> w == v % 0x1_0000_0000) && (w < 0 ==> w == v % 0x1_0000_0000 - 0x1_0000_0000)
  {
  }

  lemma InRest(sizes: seq<Size>, x: Size)
    requires sizes != []
    ensures x in sizes <==> x == sizes[0] || x in sizes[1..]
  {
  }

  predicate SameButSizes(r: Spec, s: Spec) {
    r.left == s.left && r.plus == s.plus && r.zero == s.zero && r.space == s.space && r.alt == s.alt
    && r.width == s.width && r.precision == s.precision
  }

  lemma {:induction false} SizesMean(spec: Spec, sizes: seq<Size>)
    ensures var r := SizesMeaning(spec, sizes);
      && (r.isLongLong <==> spec.isLongLong || L2 in sizes || I64 in sizes)
      && (r.isShort <==> spec.isShort || H in sizes)
      && (r.isLong <==> spec.isLong || L1 in sizes)
      && (r.isWide <==> spec.isWide || W in sizes)
      && SameButSizes(r, spec)
    decreases |sizes|
  {
    hide SizeMeaning;
    if sizes != [] {
      OneSizeMeans(spec, sizes[0]);
      SizesMean(SizeMeaning(spec, sizes[0]), sizes[1..]);
      InRest(sizes, L2);
      InRest(sizes, I64);
      InRest(sizes, H);
      InRest(sizes, L1);
      InRest(sizes, W);
    }
  }

  lemma OneSizeMeans(spec: Spec, s: Size)
    ensures var r := SizeMeaning(spec, s);
      && (r.isLongLong <==> spec.isLongLong || s.L2? || s.I64?)
      && (r.isShort <==> spec.isShort || s.H?)
      && (r.isLong <==> spec.isLong || s.L1?)
      && (r.isWide <==> spec.isWide || s.W?)
      && SameButSizes(r, spec)
  {
  }

  lemma FlagsMean(flags: Text)
    ensures var s := WithFlags(PLAIN, flags);
      && (s.left <==> '-' as nat in flags) && (s.plus <==> '+' as nat in flags) && (s.space <==> ' ' as nat in flags)
      && (s.zero <==> '0' as nat in flags) && (s.alt <==> '#' as nat in flags)
      && s.width == 0 && s.precision == -1 && !s.isShort && !s.isLong && !s.isLongLong && !s.isWide
  {
  }

  lemma WidthMeans(d: Directive, s: Spec, source: Source, memory: Memory)
    requires SourceOk(source)
    ensures var c := WidthMeaning(Cursor(s, 0, source), d.width, memory);
      && c.source == BehindWidth(d, source)
      && c.spec == (if WidthAsked(d, source, memory) < 0 then s.(left := true, width := WidthOf(d, source, memory))
                    else s.(width := WidthOf(d, source, memory)))
  {
    hide Slot, ToInt32, Number;
    match d.width
    case Absent =>
    case Star =>
    case Count(digits) =>
  }

  lemma PrecisionMeans(p: Option<Quantity>, s: Spec, source: Source, memory: Memory)
    requires SourceOk(source)
    ensures PrecisionMeaning(Cursor(s, 0, source), p, memory)
         == if p.None? then Cursor(s, 0, source)
            else Cursor(s.(precision := PrecisionFrom(p, source, memory)), 0,
                        if p.value.Star? then Next(source) else source)
  {
    hide Slot, ToInt32, Number, SourceOk;
  }

  lemma PrecisionNone(d: Directive, source: Source, memory: Memory)
    requires SourceOk(source)
    ensures d.precision.None? ==> PrecisionOf(d, source, memory) == -1
  {
  }

  lemma BehindOk(d: Directive, source: Source)
    requires SourceOk(source)
    ensures SourceOk(BehindWidth(d, source))
    ensures Ahead(source, Stars(d))
         == if d.precision.Some? && d.precision.value.Star? then Next(BehindWidth(d, source))
            else BehindWidth(d, source)
  {
    StarsTaken(source);
  }

  lemma StarsTaken(source: Source)
    ensures Ahead(source, 0) == source && Ahead(source, 1) == Next(source) && Ahead(source, 2) == Next(Next(source))
  {
  }

  /** The specification and the arguments of a directive, by its parts. */
  predicate Says(s: Spec, d: Directive, source: Source, memory: Memory)
    requires SourceOk(source)
  {
    && s.width == WidthOf(d, source, memory) && s.precision == PrecisionOf(d, source, memory)
    && (s.left <==> LeftAligned(d, source, memory))
    && (s.plus <==> '+' as nat in d.flags) && (s.space <==> ' ' as nat in d.flags)
    && (s.zero <==> '0' as nat in d.flags) && (s.alt <==> '#' as nat in d.flags)
    && Modulus(s) == Range(d)
    && (s.isShort <==> H in d.sizes) && (s.isLong <==> L1 in d.sizes) && (s.isWide <==> W in d.sizes)
  }

  lemma MeaningIs(d: Directive, source: Source, memory: Memory)
    requires SourceOk(source)
    ensures var c := Meaning(d, source, memory);
      c.source == Ahead(source, Stars(d)) && Says(c.spec, d, source, memory)
  {
    hide Slot, ToInt32, Number, SizesMeaning, WithFlags, WidthMeaning, PrecisionMeaning, WidthOf, PrecisionFrom,
      WidthAsked, Stars, Ahead, BehindWidth;
    BehindOk(d, source);
    FlagsMean(d.flags);
    var s1 := WithFlags(PLAIN, d.flags);
    WidthMeans(d, s1, source, memory);
    var s2 := WidthMeaning(Cursor(s1, 0, source), d.width, memory).spec;
    PrecisionMeans(d.precision, s2, BehindWidth(d, source), memory);
    MeaningMoves(Cursor(s1, 0, source), d.width, d.precision, memory, 0, 0);
    SizesMean(PrecisionMeaning(Cursor(s2, 0, BehindWidth(d, source)), d.precision, memory).spec, d.sizes);
    PrecisionNone(d, source, memory);
  }

  // -------------------------------------------------------------- any field

  /** Spaces in front, zeros between prefix and body, spaces behind: never two of them. */
  datatype Layout = Layout(lead: nat, zeros: nat, trail: nat)

  /** The padding of a field whose own text has `own` units: as much as the width asks for,
      behind it when left-aligned, as zeros when they are asked for and allowed, and as
      spaces in front otherwise. */
  predicate LayoutOk(l: Layout, own: nat, d: Directive, source: Source, memory: Memory, zerosAllowed: bool)
    requires SourceOk(source)
  {
    var w := WidthOf(d, source, memory);
    var n := if w > own then w - own else 0;
    l == (if LeftAligned(d, source, memory) then Layout(0, 0, n)
          else if '0' as nat in d.flags && zerosAllowed then Layout(0, n, 0)
          else Layout(n, 0, 0))
  }

  function Laid(l: Layout, prefix: Text, body: Text): Text {
    Ascii(Fill(l.lead, ' ')) + prefix + Ascii(Fill(l.zeros, '0')) + body + Ascii(Fill(l.trail, ' '))
  }

  lemma NothingFilled(t: Text)
    ensures Ascii(Fill(0, ' ')) == [] && Ascii(Fill(0, '0')) == []
    ensures [] + t == t && t + [] == t
  {
  }

  lemma PaddedIsLaid(d: Directive, source: Source, memory: Memory, f: Field, pointer: bool)
    returns (l: Layout)
    requires SourceOk(source)
    ensures var s := Meaning(d, source, memory).spec;
      var zerosAllowed := !(f.integer && (s.precision >= 0 || pointer)) && !(f.numeric && !f.integer && !f.finite);
      && LayoutOk(l, |f.prefix| + |f.body|, d, source, memory, zerosAllowed)
      && Padded(s, f, pointer) == Laid(l, Ascii(f.prefix), f.body)
  {
    hide Meaning, WidthOf, LeftAligned, Ascii, Fill;
    MeaningIs(d, source, memory);
    var s := Meaning(d, source, memory).spec;
    var own := |f.body| + |f.prefix|;
    var n := if s.width > own then s.width - own else 0;
    var prefix := Ascii(f.prefix);
    NothingFilled(prefix);
    NothingFilled(prefix + f.body);
    if s.left {
      l := Layout(0, 0, n);
      assert [] + prefix + [] + f.body == prefix + f.body;
    } else if ZeroPads(s, f, pointer) {
      l := Layout(0, n, 0);
      assert [] + prefix + Ascii(Fill(n, '0')) + f.body + [] == prefix + Ascii(Fill(n, '0')) + f.body;
    } else {
      l := Layout(n, 0, 0);
      assert Ascii(Fill(n, ' ')) + prefix + [] + f.body + [] == Ascii(Fill(n, ' ')) + prefix + f.body;
    }
  }

  /** One directive behind a format that succeeded: what it appends once its field is known. */
  lemma Appends(a: Text, d: Directive, out: Text, source: Source, memory: Memory, wide: bool, host: Host, f: Field)
    requires SourceOk(source) && Formatted(a, 0, out, source, memory, wide, host).Done?
    requires DirectiveOk(d) && d.conversion != PERCENT && d.conversion != 'n' as nat
    requires var first := Formatted(a, 0, out, source, memory, wide, host);
      && SourceOk(first.source)
      && var s := Meaning(d, first.source, first.memory).spec;
         Convert(s, d.conversion, ArgumentOf(d, first.source, first.memory), first.memory, wide, host) == Some(f)
    ensures var first := Formatted(a, 0, out, source, memory, wide, host);
      var text := Padded(Meaning(d, first.source, first.memory).spec, f, d.conversion == 'p' as nat);
      Formatted(a + ([PERCENT] + DirectiveText(d)), 0, out, source, memory, wide, host)
      == if WidthOf(d, first.source, first.memory) > MAX_WIDTH || !Representable(text, wide) then Failed(first.memory)
         else Done(first.text + text, first.memory, Next(Ahead(first.source, Stars(d))))
  {
    hide Formatted, Meaning, DirectiveText, DirectiveOk, Convert, Padded, Slot, Representable, WidthOf, Stars;
    DirectiveField(a, d, out, source, memory, wide, host);
    var first := Formatted(a, 0, out, source, memory, wide, host);
    MeaningIs(d, first.source, first.memory);
  }

  lemma AsciiRepresentable(t: string, wide: bool)
    requires IsAscii(t)
    ensures Representable(Ascii(t), wide)
  {
  }

  // ------------------------------------------------------------------ integers

  predicate IsInteger(conversion: nat) {
    IsSigned(conversion) || conversion == 'u' as nat || conversion == 'o' as nat
    || conversion == 'x' as nat || conversion == 'X' as nat || conversion == 'p' as nat
  }

  predicate IsSigned(conversion: nat) {
    conversion == 'd' as nat || conversion == 'i' as nat
  }

  function RadixOf(conversion: nat): (r: nat)
    ensures Radix(r)
  {
    if conversion == 'o' as nat then 8
    else if conversion == 'x' as nat || conversion == 'X' as nat || conversion == 'p' as nat then 16
    else 10
  }

  /** The value printed: the argument in two's complement, or as it is, within the bits the
      size selects; a pointer has 32. */
  predicate ValueOk(v: int, raw: nat, d: Directive) {
    if d.conversion == 'p' as nat then v == raw % 0x1_0000_0000
    else if IsSigned(d.conversion) then
      0 <= 2 * v + Range(d) && 2 * v < Range(d) && (v == raw % Range(d) || v == raw % Range(d) - Range(d))
    else v == raw % Range(d)
  }

  predicate PrefixOk(prefix: string, v: int, d: Directive) {
    if IsSigned(d.conversion) then
      prefix == (if v < 0 then "-" else if '+' as nat in d.flags then "+"
                 else if ' ' as nat in d.flags then " " else "")
    else
      prefix == (if '#' as nat in d.flags && v != 0 && d.conversion == 'x' as nat then "0x"
                 else if '#' as nat in d.flags && v != 0 && d.conversion == 'X' as nat then "0X" else "")
  }

  /** Upper case for `X` and `p`, lower case otherwise. */
  predicate CaseOk(digits: string, conversion: nat) {
    forall i :: 0 <= i < |digits| ==>
      && (conversion == 'X' as nat || conversion == 'p' as nat ==> !('a' <= digits[i] <= 'z'))
      && (conversion == 'x' as nat ==> !('A' <= digits[i] <= 'Z'))
  }

  /** At least as many digits as the precision asks for, or one, and no leading zero beyond
      them, but for the one that `#` asks of an octal number; a pointer has eight. */
  predicate DigitsOk(digits: string, v: int, d: Directive, precision: int) {
    var radix := RadixOf(d.conversion);
    var least := if d.conversion == 'p' as nat then 8 else if precision < 0 then 1
                 else if precision < 512 then precision else 512;
    && AllDigits(digits, radix) && Number(digits, radix) == (if v < 0 then -v else v)
    && CaseOk(digits, d.conversion)
    && |digits| >= least
    && (d.conversion == 'p' as nat ==> |digits| == 8)
    && (if d.conversion == 'o' as nat && '#' as nat in d.flags then
          digits != [] && digits[0] == '0' && (|digits| > least && |digits| > 1 ==> digits[1] != '0')
        else |digits| > least ==> digits[0] != '0')
  }

  function UpperOf(conversion: nat): bool {
    conversion == 'X' as nat || conversion == 'p' as nat
  }

  function IntegerField(s: Spec, conversion: nat, raw: nat): Field {
    if IsSigned(conversion) then SignedField(s, raw)
    else if conversion == 'p' as nat then PointerField(raw)
    else UnsignedField(s, raw, RadixOf(conversion), UpperOf(conversion))
  }

  lemma ConvertsInteger(s: Spec, conversion: nat, raw: nat, memory: Memory, wide: bool, host: Host)
    requires IsInteger(conversion)
    ensures Convert(s, conversion, raw, memory, wide, host) == Some(IntegerField(s, conversion, raw))
  {
    hide SignedField, UnsignedField, PointerField;
  }

  function IntegerDigits(s: Spec, conversion: nat, raw: nat): string {
    if conversion == 'p' as nat then DigitsOf(raw % TWO_32, 16, true, 8)
    else IntegerBody(s, if IsSigned(conversion) then Magnitude(Signed(s, raw)) else Unsigned(s, raw),
                     RadixOf(conversion), UpperOf(conversion))
  }

  function IntegerValue(s: Spec, conversion: nat, raw: nat): int {
    if conversion == 'p' as nat then raw % TWO_32
    else if IsSigned(conversion) then Signed(s, raw) else Unsigned(s, raw)
  }

  lemma IntegerReads(s: Spec, conversion: nat, raw: nat)
    requires IsInteger(conversion)
    ensures var text := Plain(Padded(s, IntegerField(s, conversion, raw), conversion == 'p' as nat));
      ReadInteger(text, RadixOf(conversion)) == Some(IntegerValue(s, conversion, raw))
  {
    hide Padded, ReadInteger, SignedField, UnsignedField, PointerField, Signed, Modulus;
    if IsSigned(conversion) { SignedReadsBack(s, raw); }
    else if conversion == 'p' as nat { PointerReadsBack(s, raw); }
    else { UnsignedReadsBack(s, raw, RadixOf(conversion), UpperOf(conversion)); }
  }

  lemma IntegerShape(s: Spec, conversion: nat, raw: nat)
    requires IsInteger(conversion)
    ensures var f := IntegerField(s, conversion, raw);
      && f.body == Ascii(IntegerDigits(s, conversion, raw)) && f.numeric && f.integer && f.finite
      && f.prefix == (if IsSigned(conversion) then SignPrefix(s, Signed(s, raw) < 0)
                      else if s.alt && Unsigned(s, raw) != 0 && conversion == 'x' as nat then "0x"
                      else if s.alt && Unsigned(s, raw) != 0 && conversion == 'X' as nat then "0X" else "")
  {
    hide Signed, Modulus, DigitsOf;
  }

  lemma IntegerValueOk(s: Spec, d: Directive, source: Source, memory: Memory, raw: nat)
    requires IsInteger(d.conversion) && SourceOk(source) && Says(s, d, source, memory)
    ensures ValueOk(IntegerValue(s, d.conversion, raw), raw, d)
  {
    hide WidthOf, PrecisionOf, LeftAligned, Range;
  }

  lemma IntegerPrefixOk(s: Spec, d: Directive, source: Source, memory: Memory, raw: nat)
    requires IsInteger(d.conversion) && SourceOk(source) && Says(s, d, source, memory)
    ensures PrefixOk(IntegerField(s, d.conversion, raw).prefix, IntegerValue(s, d.conversion, raw), d)
  {
    hide WidthOf, PrecisionOf, LeftAligned, Range, Signed, Modulus, IntegerBody, DigitsOf;
    IntegerShape(s, d.conversion, raw);
  }

  /** The digits of a number: of the right case, as many as asked, no leading zero beyond. */
  lemma DigitsAre(value: nat, radix: nat, conversion: nat, least: int)
    requires Radix(radix)
    ensures var t := DigitsOf(value, radix, UpperOf(conversion), least);
      && AllDigits(t, radix) && Number(t, radix) == value && CaseOk(t, conversion)
      && |t| >= least && (|t| > least && |t| > 0 ==> t[0] != '0')
  {
    hide DigitsOf;
    DigitsReadBack(value, radix, UpperOf(conversion), least);
    DigitsCanonical(value, radix, UpperOf(conversion), least);
  }

  lemma MagnitudeOf(s: Spec, conversion: nat, raw: nat)
    requires IsInteger(conversion)
    ensures var v := IntegerValue(s, conversion, raw);
      IntegerDigits(s, conversion, raw)
      == if conversion == 'p' as nat then DigitsOf(v, 16, true, 8)
         else IntegerBody(s, if v < 0 then -v else v, RadixOf(conversion), UpperOf(conversion))
  {
    hide Signed, Modulus, IntegerBody, DigitsOf;
  }

  lemma IntegerDigitsOk(s: Spec, d: Directive, source: Source, memory: Memory, raw: nat)
    requires IsInteger(d.conversion) && SourceOk(source) && Says(s, d, source, memory)
    ensures DigitsOk(IntegerDigits(s, d.conversion, raw), IntegerValue(s, d.conversion, raw), d,
                     PrecisionOf(d, source, memory))
  {
    hide WidthOf, PrecisionOf, LeftAligned, Range, IntegerValue, IntegerDigits, DigitsOf, AllDigits, CaseOk, Number;
    var v := IntegerValue(s, d.conversion, raw);
    MagnitudeOf(s, d.conversion, raw);
    if d.conversion == 'p' as nat {
      PointerValue(s, raw);
      DigitsAre(v, 16, d.conversion, 8);
      EightDigits();
      DigitsFixed(v, 16, true, 8);
    } else {
      var m := if v < 0 then -v else v;
      var radix := RadixOf(d.conversion);
      DigitsAre(m, radix, d.conversion, MinDigits(s));
      var t := DigitsOf(m, radix, UpperOf(d.conversion), MinDigits(s));
      if radix == 8 && s.alt { OctalAlt(t, d.conversion); }
    }
  }

  lemma PointerValue(s: Spec, raw: nat)
    ensures 0 <= IntegerValue(s, 'p' as nat, raw) < TWO_32
  {
  }

  lemma OctalAlt(t: string, conversion: nat)
    requires AllDigits(t, 8) && CaseOk(t, conversion)
    ensures AllDigits("0" + t, 8) && CaseOk("0" + t, conversion) && Number("0" + t, 8) == Number(t, 8)
  {
    hide Number;
    ZerosAhead(1, t, 8);
    assert Fill(1, '0') == "0";
  }

  lemma IntegerText(s: Spec, conversion: nat, raw: nat) returns (text: string)
    requires IsInteger(conversion)
    ensures IsAscii(text) && Padded(s, IntegerField(s, conversion, raw), conversion == 'p' as nat) == Ascii(text)
    ensures ReadInteger(text, RadixOf(conversion)) == Some(IntegerValue(s, conversion, raw))
  {
    hide Padded, ReadInteger, IntegerDigits, IntegerValue, PaddedText, SignPrefix;
    var f, body := IntegerField(s, conversion, raw), IntegerDigits(s, conversion, raw);
    IntegerShape(s, conversion, raw);
    PlainDigits(s, conversion, raw);
    PlainPrefix(s, conversion, raw);
    text := PaddedText(s, f, conversion == 'p' as nat, body);
    PaddedAscii(s, f, conversion == 'p' as nat, body);
    PaddedPlain(s, f, conversion == 'p' as nat, body);
    IntegerReads(s, conversion, raw);
  }

  lemma PlainDigits(s: Spec, conversion: nat, raw: nat)
    requires IsInteger(conversion)
    ensures IsAscii(IntegerDigits(s, conversion, raw))
  {
    hide DigitsOf, IntegerBody, AllDigits, IsAscii, Signed, Modulus;
    if conversion == 'p' as nat {
      DigitsReadBack(raw % TWO_32, 16, true, 8);
    } else {
      IntegerBodyReads(s, if IsSigned(conversion) then Magnitude(Signed(s, raw)) else Unsigned(s, raw),
                       RadixOf(conversion), UpperOf(conversion));
    }
    DigitsAscii(IntegerDigits(s, conversion, raw), RadixOf(conversion));
  }

  lemma PlainPrefix(s: Spec, conversion: nat, raw: nat)
    requires IsInteger(conversion)
    ensures IsAscii(IntegerField(s, conversion, raw).prefix)
  {
    hide Signed, Modulus, IntegerBody, DigitsOf;
    IntegerShape(s, conversion, raw);
  }

  lemma PaddedAscii(s: Spec, f: Field, pointer: bool, body: string)
    requires f.body == Ascii(body) && IsAscii(body) && IsAscii(f.prefix)
    ensures IsAscii(PaddedText(s, f, pointer, body)) && Padded(s, f, pointer) == Ascii(PaddedText(s, f, pointer, body))
  {
    hide ZeroPads;
    var text := PaddedText(s, f, pointer, body);
    var used := |body| + |f.prefix|;
    var n: nat := if s.width > used then s.width - used else 0;
    if s.left {
      AsciiJoin(f.prefix + body, Fill(n, ' '));
      AsciiJoin(f.prefix, body);
    } else if ZeroPads(s, f, pointer) {
      AsciiJoin(f.prefix + Fill(n, '0'), body);
      AsciiJoin(f.prefix, Fill(n, '0'));
    } else {
      AsciiJoin(Fill(n, ' ') + f.prefix, body);
      AsciiJoin(Fill(n, ' '), f.prefix);
    }
  }

  lemma AsciiJoin(a: string, b: string)
    ensures Ascii(a + b) == Ascii(a) + Ascii(b)
    ensures IsAscii(a) && IsAscii(b) ==> IsAscii(a + b)
  {
  }

  /** Any integer directive, behind any format that succeeded.  It takes the arguments it
      names, fails only on too great a width, and appends a text that reads back, in the
      radix its conversion fixes, as the value its size selects: a sign or marker, the
      shortest digits its precision allows, in its case, padded as its flags say. */
  lemma IntegerDirective(a: Text, d: Directive, out: Text, source: Source, memory: Memory, wide: bool, host: Host)
    returns (text: string, v: int, prefix: string, digits: string, l: Layout)
    requires SourceOk(source) && Formatted(a, 0, out, source, memory, wide, host).Done?
    requires DirectiveOk(d) && IsInteger(d.conversion)
    ensures var first := Formatted(a, 0, out, source, memory, wide, host);
      && SourceOk(first.source)
      && Formatted(a + ([PERCENT] + DirectiveText(d)), 0, out, source, memory, wide, host)
         == (if WidthOf(d, first.source, first.memory) > 0x10_0000 then Failed(first.memory)
             else Done(first.text + Ascii(text), first.memory, Next(Ahead(first.source, Stars(d)))))
      && IsAscii(text) && ReadInteger(text, RadixOf(d.conversion)) == Some(v)
      && ValueOk(v, ArgumentOf(d, first.source, first.memory), d)
      && Ascii(text) == Laid(l, Ascii(prefix), Ascii(digits))
      && LayoutOk(l, |prefix| + |digits|, d, first.source, first.memory,
                  PrecisionOf(d, first.source, first.memory) < 0 && d.conversion != 'p' as nat)
      && PrefixOk(prefix, v, d)
      && DigitsOk(digits, v, d, PrecisionOf(d, first.source, first.memory))
  {
    hide Formatted, Meaning, DirectiveText, DirectiveOk, Convert, Padded, Slot, Representable, WidthOf, Stars, Laid,
      ReadInteger, ValueOk, PrefixOk, DigitsOk, LayoutOk, IsAscii, Ascii, IntegerField, IntegerDigits, IntegerValue,
      PrecisionOf, IsInteger, RadixOf, LeftAligned, ArgumentOf;
    NotPercent(d.conversion);
    DirectiveField(a, d, out, source, memory, wide, host);
    var first := Formatted(a, 0, out, source, memory, wide, host);
    var s := Meaning(d, first.source, first.memory).spec;
    var raw := ArgumentOf(d, first.source, first.memory);
    MeaningIs(d, first.source, first.memory);
    ConvertsInteger(s, d.conversion, raw, first.memory, wide, host);
    var f := IntegerField(s, d.conversion, raw);
    Appends(a, d, out, source, memory, wide, host, f);
    text := IntegerText(s, d.conversion, raw);
    AsciiRepresentable(text, wide);
    v, prefix, digits := IntegerValue(s, d.conversion, raw), f.prefix, IntegerDigits(s, d.conversion, raw);
    IntegerShape(s, d.conversion, raw);
    IntegerValueOk(s, d, first.source, first.memory, raw);
    IntegerPrefixOk(s, d, first.source, first.memory, raw);
    IntegerDigitsOk(s, d, first.source, first.memory, raw);
    l := PaddedIsLaid(d, first.source, first.memory, f, d.conversion == 'p' as nat);
    SameLength(digits);
  }

  lemma NotPercent(conversion: nat)
    requires IsInteger(conversion)
    ensures conversion != PERCENT && conversion != 'n' as nat
  {
  }

  lemma SameLength(t: string)
    ensures |Ascii(t)| == |t|
  {
  }

  // ------------------------------------------------------- strings and characters

  predicate IsString(conversion: nat) {
    conversion == 's' as nat || conversion == 'S' as nat
  }

  predicate IsCharacter(conversion: nat) {
    conversion == 'c' as nat || conversion == 'C' as nat
  }

  /** Whether a string or character has 16-bit units: as a size prefix says, or else as the
      formatter's own units, the other way round for an upper-case conversion. */
  predicate HasWideUnits(d: Directive, wide: bool) {
    if L1 in d.sizes || W in d.sizes then true
    else if H in d.sizes then false
    else (d.conversion == 'S' as nat || d.conversion == 'C' as nat) != wide
  }

  /** The units at a pointer up to a zero or the precision, whichever comes first. */
  predicate StringOk(body: Text, pointer: nat, precision: int, units: bool, memory: Memory) {
    var limit := if precision < 0 then 0x7FFF_FFFF else precision;
    && |body| <= limit
    && if pointer == 0 then
         body == Ascii("(null)")[..(if limit < 6 then limit else 6)]
       else
         && (forall k :: 0 <= k < |body| ==> body[k] == UnitOf(memory, pointer, units, k) && body[k] != 0)
         && (|body| < limit ==> UnitOf(memory, pointer, units, |body|) == 0)
  }

  lemma ConvertsString(s: Spec, conversion: nat, raw: nat, memory: Memory, wide: bool, host: Host)
    requires IsString(conversion)
    ensures Convert(s, conversion, raw, memory, wide, host)
         == Some(StringField(s, raw, conversion == 'S' as nat, wide, memory))
  {
    hide StringField;
  }

  lemma UnitsMean(s: Spec, d: Directive, source: Source, memory: Memory, wide: bool)
    requires SourceOk(source) && Says(s, d, source, memory) && (IsString(d.conversion) || IsCharacter(d.conversion))
    ensures StringIsWide(s, d.conversion == 'S' as nat || d.conversion == 'C' as nat, wide) == HasWideUnits(d, wide)
  {
    hide WidthOf, PrecisionOf, LeftAligned, Range, Modulus;
  }

  lemma StringFieldOk(s: Spec, d: Directive, source: Source, memory: Memory, wide: bool, raw: nat)
    requires SourceOk(source) && Says(s, d, source, memory) && IsString(d.conversion)
    ensures var f := StringField(s, raw, d.conversion == 'S' as nat, wide, memory);
      && f == Field("", f.body, false, false, true)
      && StringOk(f.body, raw % 0x1_0000_0000, PrecisionOf(d, source, memory), HasWideUnits(d, wide), memory)
  {
    hide WidthOf, PrecisionOf, LeftAligned, Range, Modulus, StringIsWide, HasWideUnits, GuestString, UnitOf;
    UnitsMean(s, d, source, memory, wide);
    var limit := if s.precision < 0 then INT_MAX else s.precision;
    GuestStringIs(memory, raw % TWO_32, HasWideUnits(d, wide), 0, limit);
    var body := GuestString(memory, raw % TWO_32, HasWideUnits(d, wide), 0, limit);
    forall k | 0 <= k < |body|
      ensures body[k] == UnitOf(memory, raw % TWO_32, HasWideUnits(d, wide), k) && body[k] != 0
    {
      assert body[k] == UnitOf(memory, raw % TWO_32, HasWideUnits(d, wide), 0 + k);
    }
    assert Ascii("(null)")[..6] == Ascii("(null)");
  }

  lemma PrefixesRepresentable(l: Layout, prefix: string, body: Text, wide: bool)
    requires IsAscii(prefix)
    ensures Representable(Laid(l, Ascii(prefix), body), wide) <==> Representable(body, wide)
  {
    hide Representable, Ascii, Fill;
    var a, p, z, b := Ascii(Fill(l.lead, ' ')), Ascii(prefix), Ascii(Fill(l.zeros, '0')), Ascii(Fill(l.trail, ' '));
    PaddingRepresentable(l.lead, l.zeros, l.trail, wide);
    AsciiRepresentable(prefix, wide);
    RepresentableJoin(a + p + z + body, b, wide);
    RepresentableJoin(a + p + z, body, wide);
    RepresentableJoin(a + p, z, wide);
    RepresentableJoin(a, p, wide);
  }

  lemma PaddingRepresentable(lead: nat, zeros: nat, trail: nat, wide: bool)
    ensures Representable(Ascii(Fill(lead, ' ')), wide) && Representable(Ascii(Fill(zeros, '0')), wide)
    ensures Representable(Ascii(Fill(trail, ' ')), wide)
  {
  }

  /** Whether the formatter's units can hold the text. */
  predicate Fits(text: Text, wide: bool) {
    wide || forall k :: 0 <= k < |text| ==> text[k] < 0x100
  }

  lemma FitsIs(text: Text, wide: bool)
    ensures Fits(text, wide) == Representable(text, wide)
  {
  }

  /** What any directive but a count does behind a format that succeeded: the padded body,
      unless the width is too great or a unit does not fit the formatter's own. */
  predicate AppendsField(r: Outcome, first: Outcome, d: Directive, l: Layout, prefix: string, body: Text, wide: bool)
    requires first.Done? && SourceOk(first.source)
  {
    r == if WidthOf(d, first.source, first.memory) > 0x10_0000 || !Fits(body, wide) then Failed(first.memory)
         else Done(first.text + Laid(l, Ascii(prefix), body), first.memory, Next(Ahead(first.source, Stars(d))))
  }

  lemma FieldAppended(a: Text, d: Directive, out: Text, source: Source, memory: Memory, wide: bool, host: Host,
                      f: Field)
    returns (l: Layout)
    requires SourceOk(source) && Formatted(a, 0, out, source, memory, wide, host).Done?
    requires DirectiveOk(d) && d.conversion != PERCENT && d.conversion != 'n' as nat && d.conversion != 'p' as nat
    requires !f.integer && IsAscii(f.prefix)
    requires var first := Formatted(a, 0, out, source, memory, wide, host);
      && SourceOk(first.source)
      && var s := Meaning(d, first.source, first.memory).spec;
         Convert(s, d.conversion, ArgumentOf(d, first.source, first.memory), first.memory, wide, host) == Some(f)
    ensures var first := Formatted(a, 0, out, source, memory, wide, host);
      && AppendsField(Formatted(a + ([PERCENT] + DirectiveText(d)), 0, out, source, memory, wide, host), first, d, l,
                      f.prefix, f.body, wide)
      && LayoutOk(l, |f.prefix| + |f.body|, d, first.source, first.memory, !f.numeric || f.finite)
  {
    hide Formatted, Meaning, DirectiveText, DirectiveOk, Convert, Padded, Slot, Representable, WidthOf, Stars, Laid,
      LayoutOk, IsAscii, Ascii, PrecisionOf, LeftAligned, ArgumentOf, Fits;
    var first := Formatted(a, 0, out, source, memory, wide, host);
    Appends(a, d, out, source, memory, wide, host, f);
    l := PaddedIsLaid(d, first.source, first.memory, f, false);
    PrefixesRepresentable(l, f.prefix, f.body, wide);
    FitsIs(f.body, wide);
  }

  /** Any string directive: it appends the guest string its argument points to. */
  lemma StringDirective(a: Text, d: Directive, out: Text, source: Source, memory: Memory, wide: bool, host: Host)
    returns (body: Text, l: Layout)
    requires SourceOk(source) && Formatted(a, 0, out, source, memory, wide, host).Done?
    requires DirectiveOk(d) && IsString(d.conversion)
    ensures var first := Formatted(a, 0, out, source, memory, wide, host);
      && SourceOk(first.source)
      && AppendsField(Formatted(a + ([PERCENT] + DirectiveText(d)), 0, out, source, memory, wide, host), first, d, l,
                      "", body, wide)
      && LayoutOk(l, |body|, d, first.source, first.memory, true)
      && StringOk(body, ArgumentOf(d, first.source, first.memory) % 0x1_0000_0000,
                  PrecisionOf(d, first.source, first.memory), HasWideUnits(d, wide), first.memory)
  {
    hide Formatted, Meaning, DirectiveText, DirectiveOk, Convert, Slot, Representable, WidthOf, Stars,
      LayoutOk, StringOk, StringField, PrecisionOf, LeftAligned, ArgumentOf, AppendsField, HasWideUnits;
    DirectiveField(a, d, out, source, memory, wide, host);
    var first := Formatted(a, 0, out, source, memory, wide, host);
    var s := Meaning(d, first.source, first.memory).spec;
    var raw := ArgumentOf(d, first.source, first.memory);
    MeaningIs(d, first.source, first.memory);
    ConvertsString(s, d.conversion, raw, first.memory, wide, host);
    var f := StringField(s, raw, d.conversion == 'S' as nat, wide, first.memory);
    StringFieldOk(s, d, first.source, first.memory, wide, raw);
    l := FieldAppended(a, d, out, source, memory, wide, host, f);
    body := f.body;
  }

  lemma ConvertsCharacter(s: Spec, conversion: nat, raw: nat, memory: Memory, wide: bool, host: Host)
    requires IsCharacter(conversion)
    ensures Convert(s, conversion, raw, memory, wide, host) == Some(CharField(s, raw, conversion == 'C' as nat, wide))
  {
    hide CharField;
  }

  /** Any character directive: it appends the low 8 or 16 bits of its argument. */
  lemma CharacterDirective(a: Text, d: Directive, out: Text, source: Source, memory: Memory, wide: bool, host: Host)
    returns (body: Text, l: Layout)
    requires SourceOk(source) && Formatted(a, 0, out, source, memory, wide, host).Done?
    requires DirectiveOk(d) && IsCharacter(d.conversion)
    ensures var first := Formatted(a, 0, out, source, memory, wide, host);
      && SourceOk(first.source)
      && body == [ArgumentOf(d, first.source, first.memory) % (if HasWideUnits(d, wide) then 0x1_0000 else 0x100)]
      && AppendsField(Formatted(a + ([PERCENT] + DirectiveText(d)), 0, out, source, memory, wide, host), first, d, l,
                      "", body, wide)
      && LayoutOk(l, 1, d, first.source, first.memory, true)
  {
    hide Formatted, Meaning, DirectiveText, DirectiveOk, Convert, Slot, Representable, WidthOf, Stars,
      LayoutOk, PrecisionOf, LeftAligned, ArgumentOf, AppendsField, HasWideUnits, StringIsWide;
    DirectiveField(a, d, out, source, memory, wide, host);
    var first := Formatted(a, 0, out, source, memory, wide, host);
    var s := Meaning(d, first.source, first.memory).spec;
    var raw := ArgumentOf(d, first.source, first.memory);
    MeaningIs(d, first.source, first.memory);
    ConvertsCharacter(s, d.conversion, raw, first.memory, wide, host);
    UnitsMean(s, d, first.source, first.memory, wide);
    var f := CharField(s, raw, d.conversion == 'C' as nat, wide);
    l := FieldAppended(a, d, out, source, memory, wide, host, f);
    body := f.body;
  }

  // --------------------------------------------------------------------- floats

  predicate IsUpper(conversion: nat) {
    conversion == 'A' as nat || conversion == 'E' as nat || conversion == 'F' as nat || conversion == 'G' as nat
  }

  predicate IsHexFloat(conversion: nat) {
    conversion == 'a' as nat || conversion == 'A' as nat
  }

  /** The text of a magnitude, given as its bit pattern: a name when it is no number, a
      hexadecimal constant that reads back as the number to print, or what the host prints. */
  predicate MagnitudeOk(body: string, bits: nat, d: Directive, precision: int, host: Host) {
    if bits > 0x7FF0_0000_0000_0000 then body == (if IsUpper(d.conversion) then "NAN" else "nan")
    else if bits == 0x7FF0_0000_0000_0000 then body == (if IsUpper(d.conversion) then "INF" else "inf")
    else if IsHexFloat(d.conversion) then
      var p := if precision < 0 then -1 else if precision < 512 then precision else 512;
      && HexText.ParseHex(body) == Some(HexFloat.HexOf(bits, p))
      && |body| > 2 && body[0] == '0' && body[1] == (if d.conversion == 'A' as nat then 'X' else 'x')
    else
      body == host(d.conversion, '#' as nat in d.flags,
                   if precision < 0 then 6 else if precision < 512 then precision else 512, bits)
  }

  predicate IsReal(conversion: nat) {
    IsHexFloat(conversion) || conversion == 'e' as nat || conversion == 'E' as nat || conversion == 'f' as nat
    || conversion == 'F' as nat || conversion == 'g' as nat || conversion == 'G' as nat
  }

  lemma ConvertsFloats(s: Spec, conversion: nat, raw: nat, memory: Memory, wide: bool, host: Host)
    requires IsReal(conversion)
    ensures Convert(s, conversion, raw, memory, wide, host) == Some(FloatField(s, raw, conversion, host))
  {
    hide FloatField;
  }

  lemma FloatFieldOk(s: Spec, d: Directive, source: Source, memory: Memory, raw: nat, host: Host)
    returns (body: string)
    requires SourceOk(source) && Says(s, d, source, memory) && IsReal(d.conversion) && raw < TWO_64
    ensures var f := FloatField(s, raw, d.conversion, host);
      && f.body == Ascii(body) && f.numeric && !f.integer
      && (f.finite <==> raw % TWO_63 < 0x7FF0_0000_0000_0000)
      && f.prefix == (if raw >= TWO_63 then "-" else if '+' as nat in d.flags then "+"
                      else if ' ' as nat in d.flags then " " else "")
      && MagnitudeOk(body, raw % TWO_63, d, PrecisionOf(d, source, memory), host)
  {
    hide WidthOf, PrecisionOf, LeftAligned, Range, Modulus, FloatText, HexFloat.HexOf, HexText.ParseHex;
    var bits := raw % TWO_63;
    var upper := 'A' as nat <= d.conversion <= 'G' as nat;
    if bits < HexFloat.INFINITY && IsHexFloat(d.conversion) {
      var p := if s.precision < 0 then -1 else Min(s.precision, MAX_PRECISION);
      HexShape(bits, p, upper, s.alt);
      body := FloatText(bits, p, upper, s.alt);
    } else {
      body := if bits > HexFloat.INFINITY then (if upper then "NAN" else "nan")
              else if bits == HexFloat.INFINITY then (if upper then "INF" else "inf")
              else host(d.conversion, s.alt, if s.precision < 0 then 6 else Min(s.precision, MAX_PRECISION), bits);
    }
  }

  /** Any float directive: a sign, and a text of the magnitude that is padded with zeros only
      when it is a number. */
  lemma FloatDirective(a: Text, d: Directive, out: Text, source: Source, memory: Memory, wide: bool, host: Host)
    returns (prefix: string, body: string, l: Layout)
    requires SourceOk(source) && Formatted(a, 0, out, source, memory, wide, host).Done?
    requires DirectiveOk(d) && IsReal(d.conversion)
    ensures var first := Formatted(a, 0, out, source, memory, wide, host);
      && SourceOk(first.source)
      && var raw := ArgumentOf(d, first.source, first.memory);
      && AppendsField(Formatted(a + ([PERCENT] + DirectiveText(d)), 0, out, source, memory, wide, host), first, d, l,
                      prefix, Ascii(body), wide)
      && LayoutOk(l, |prefix| + |body|, d, first.source, first.memory, raw % TWO_63 < 0x7FF0_0000_0000_0000)
      && prefix == (if raw >= TWO_63 then "-" else if '+' as nat in d.flags then "+"
                    else if ' ' as nat in d.flags then " " else "")
      && MagnitudeOk(body, raw % TWO_63, d, PrecisionOf(d, first.source, first.memory), host)
  {
    hide Formatted, Meaning, DirectiveText, DirectiveOk, Convert, Slot, Representable, WidthOf, Stars, FloatField,
      LayoutOk, PrecisionOf, LeftAligned, AppendsField, MagnitudeOk;
    DirectiveField(a, d, out, source, memory, wide, host);
    var first := Formatted(a, 0, out, source, memory, wide, host);
    var s := Meaning(d, first.source, first.memory).spec;
    var raw := ArgumentOf(d, first.source, first.memory);
    MeaningIs(d, first.source, first.memory);
    ConvertsFloats(s, d.conversion, raw, first.memory, wide, host);
    var f := FloatField(s, raw, d.conversion, host);
    body := FloatFieldOk(s, d, first.source, first.memory, raw, host);
    prefix := f.prefix;
    l := FieldAppended(a, d, out, source, memory, wide, host, f);
  }

  // ------------------------------------------------------------ counted strings

  /** The string a descriptor names: as many bytes as its length says, as 16-bit units for a
      `w` prefix, at its buffer; cut to a precision. */
  predicate CountedOk(body: Text, descriptor: nat, units: bool, precision: int, memory: Memory) {
    var length, buffer := BigEndian(memory, descriptor, 2), BigEndian(memory, descriptor + 4, 4);
    var n := if descriptor == 0 then 6 else if buffer == 0 then 0 else if units then length / 2 else length;
    && |body| == (if 0 <= precision < n then precision else n)
    && forall k :: 0 <= k < |body| ==>
         body[k] == (if descriptor == 0 then "(null)"[k] as nat
                     else if units then BigEndian(memory, buffer + 2 * k, 2) else Read8(memory, buffer + k))
  }

  lemma CountedFieldOk(s: Spec, d: Directive, source: Source, memory: Memory, raw: nat)
    requires SourceOk(source) && Says(s, d, source, memory)
    ensures var f := CountedField(s, raw, memory);
      && f == Field("", f.body, false, false, true)
      && CountedOk(f.body, raw % 0x1_0000_0000, W in d.sizes, PrecisionOf(d, source, memory), memory)
  {
    hide WidthOf, PrecisionOf, LeftAligned, Range, Modulus, Read8, Read16, Read32, BigEndian;
    var descriptor := raw % TWO_32;
    ReadsBigEndian(memory, descriptor);
    ReadsBigEndian(memory, descriptor + 4);
    var buffer := Read32(memory, descriptor + 4);
    var body := CountedField(s, raw, memory).body;
    forall k | 0 <= k < |body| && descriptor != 0 && s.isWide
      ensures body[k] == BigEndian(memory, buffer + 2 * k, 2)
    {
      ReadsBigEndian(memory, buffer + 2 * k);
    }
  }

  /** A counted-string directive: it appends the string its descriptor names. */
  lemma CountedDirective(a: Text, d: Directive, out: Text, source: Source, memory: Memory, wide: bool, host: Host)
    returns (body: Text, l: Layout)
    requires SourceOk(source) && Formatted(a, 0, out, source, memory, wide, host).Done?
    requires DirectiveOk(d) && d.conversion == 'Z' as nat
    ensures var first := Formatted(a, 0, out, source, memory, wide, host);
      && SourceOk(first.source)
      && AppendsField(Formatted(a + ([PERCENT] + DirectiveText(d)), 0, out, source, memory, wide, host), first, d, l,
                      "", body, wide)
      && LayoutOk(l, |body|, d, first.source, first.memory, true)
      && CountedOk(body, ArgumentOf(d, first.source, first.memory) % 0x1_0000_0000, W in d.sizes,
                   PrecisionOf(d, first.source, first.memory), first.memory)
  {
    hide Formatted, Meaning, DirectiveText, DirectiveOk, Convert, Slot, Representable, WidthOf, Stars,
      LayoutOk, PrecisionOf, LeftAligned, ArgumentOf, AppendsField, CountedField, CountedOk;
    DirectiveField(a, d, out, source, memory, wide, host);
    var first := Formatted(a, 0, out, source, memory, wide, host);
    var s := Meaning(d, first.source, first.memory).spec;
    var raw := ArgumentOf(d, first.source, first.memory);
    MeaningIs(d, first.source, first.memory);
    ConvertsCounted(s, raw, first.memory, wide, host);
    CountedFieldOk(s, d, first.source, first.memory, raw);
    var f := CountedField(s, raw, first.memory);
    l := FieldAppended(a, d, out, source, memory, wide, host, f);
    body := f.body;
  }

  lemma ConvertsCounted(s: Spec, raw: nat, memory: Memory, wide: bool, host: Host)
    ensures Convert(s, 'Z' as nat, raw, memory, wide, host) == Some(CountedField(s, raw, memory))
  {
    hide CountedField;
  }

  // --------------------------------------------------------------------- counts

  /** Any count directive: it appends nothing and stores, in 16 or 32 bits at its argument,
      how many units the format has produced before it. */
  lemma CountDirective(a: Text, d: Directive, out: Text, source: Source, memory: Memory, wide: bool, host: Host)
    returns (stored: Memory)
    requires SourceOk(source) && Formatted(a, 0, out, source, memory, wide, host).Done?
    requires DirectiveOk(d) && d.conversion == 'n' as nat
    ensures var first := Formatted(a, 0, out, source, memory, wide, host);
      && SourceOk(first.source)
      && Formatted(a + ([PERCENT] + DirectiveText(d)), 0, out, source, memory, wide, host)
         == (if WidthOf(d, first.source, first.memory) > 0x10_0000 then Failed(first.memory)
             else Done(first.text, stored, Next(Ahead(first.source, Stars(d)))))
      && var pointer := ArgumentOf(d, first.source, first.memory) % TWO_32;
      && (if H in d.sizes then Read16(stored, pointer) == |first.text| % 0x1_0000
          else Read32(stored, pointer) == |first.text| % 0x1_0000_0000)
      && forall b: nat :: b < TWO_32 && Past(b, pointer) >= (if H in d.sizes then 2 else 4)
           ==> Read8(stored, b) == Read8(first.memory, b)
  {
    hide Formatted, Meaning, DirectiveText, DirectiveOk, AfterDirective, Slot, WidthOf, Stars, PrecisionOf, LeftAligned,
      Range, Modulus, Past, Read8, Read16, Read32;
    DirectiveField(a, d, out, source, memory, wide, host);
    var first := Formatted(a, 0, out, source, memory, wide, host);
    MeaningIs(d, first.source, first.memory);
    var c := Meaning(d, first.source, first.memory);
    StoredCount(c, first.text, first.memory, wide, host);
    stored := AfterDirective(c, 'n' as nat, first.text, first.memory, wide, host).value.1;
  }

  // ------------------------------------------------- what is no directive, and failures

  /** Text without a percent sign is appended as it stands, if its units fit; a doubled
      percent sign is one. */
  lemma {:induction false} CopiesText(t: Text, i: nat, out: Text, source: Source, memory: Memory, wide: bool,
                                      host: Host)
    requires SourceOk(source) && i <= |t| && PERCENT !in t
    ensures Formatted(t, i, out, source, memory, wide, host)
         == if Fits(t[i..], wide) then Done(out + t[i..], memory, source) else Failed(memory)
    decreases |t| - i
  {
    if i == |t| {
      assert out + t[i..] == out;
    } else {
      CopiesText(t, i + 1, out + [t[i]], source, memory, wide, host);
      assert t[i..] == [t[i]] + t[i + 1..];
      FirstFits(t[i], t[i + 1..], wide);
      assert out + t[i..] == out + [t[i]] + t[i + 1..];
    }
  }

  lemma FirstFits(u: nat, t: Text, wide: bool)
    ensures Fits([u] + t, wide) <==> Representable([u], wide) && Fits(t, wide)
  {
    var all := [u] + t;
    assert all[0] == u;
    forall k | 0 <= k < |t| ensures all[k + 1] == t[k] {}
  }

  lemma LiteralText(a: Text, t: Text, out: Text, source: Source, memory: Memory, wide: bool, host: Host)
    requires SourceOk(source) && Formatted(a, 0, out, source, memory, wide, host).Done? && PERCENT !in t
    ensures var first := Formatted(a, 0, out, source, memory, wide, host);
      && Formatted(a + t, 0, out, source, memory, wide, host)
         == (if Fits(t, wide) then Done(first.text + t, first.memory, first.source) else Failed(first.memory))
      && Formatted(a + [PERCENT, PERCENT], 0, out, source, memory, wide, host)
         == Done(first.text + [PERCENT], first.memory, first.source)
  {
    hide Fits;
    FormatsCompose(a, t, 0, out, source, memory, wide, host);
    FormatsCompose(a, [PERCENT, PERCENT], 0, out, source, memory, wide, host);
    var first := Formatted(a, 0, out, source, memory, wide, host);
    CopiesText(t, 0, first.text, first.source, first.memory, wide, host);
    assert t[0..] == t;
    DoublePercent(first.text, first.source, first.memory, wide, host);
  }

  lemma DoublePercent(out: Text, source: Source, memory: Memory, wide: bool, host: Host)
    requires SourceOk(source)
    ensures Formatted([PERCENT, PERCENT], 0, out, source, memory, wide, host) == Done(out + [PERCENT], memory, source)
  {
    hide ReadDirective, AfterDirective;
  }

  predicate IsKnown(conversion: nat) {
    IsInteger(conversion) || IsString(conversion) || IsCharacter(conversion) || IsReal(conversion)
    || conversion == 'Z' as nat || conversion == 'n' as nat
  }

  /** A format fails at the first thing behind a percent sign that is neither a second one
      nor a directive with a known conversion. */
  lemma FailsOtherwise(a: Text, rest: Text, out: Text, source: Source, memory: Memory, wide: bool, host: Host)
    requires SourceOk(source) && Formatted(a, 0, out, source, memory, wide, host).Done?
    requires !([PERCENT] <= rest)
    requires forall d: Directive :: DirectiveOk(d) && IsKnown(d.conversion) ==> !(DirectiveText(d) <= rest)
    ensures Formatted(a + ([PERCENT] + rest), 0, out, source, memory, wide, host)
         == Failed(Formatted(a, 0, out, source, memory, wide, host).memory)
  {
    hide DirectiveText, DirectiveOk, ReadDirective, AfterDirective;
    FormatsCompose(a, [PERCENT] + rest, 0, out, source, memory, wide, host);
    var first := Formatted(a, 0, out, source, memory, wide, host);
    NothingRead(rest, first.text, first.source, first.memory, wide, host);
  }

  lemma NothingRead(rest: Text, out: Text, source: Source, memory: Memory, wide: bool, host: Host)
    requires SourceOk(source) && !([PERCENT] <= rest)
    requires forall d: Directive :: DirectiveOk(d) && IsKnown(d.conversion) ==> !(DirectiveText(d) <= rest)
    ensures Formatted([PERCENT] + rest, 0, out, source, memory, wide, host) == Failed(memory)
  {
    hide DirectiveText, DirectiveOk, ReadDirective, AfterDirective, IsKnown;
    var fmt := [PERCENT] + rest;
    if rest != [] {
      var c := ReadDirective(fmt, 1, source, memory);
      if c.Some? {
        var u := fmt[c.value.at];
        if IsKnown(u) {
          var d := DirectiveRead(rest, source, memory);
          assert false;
        } else {
          UnknownFails(c.value, u, out, memory, wide, host);
        }
      }
    }
  }

  /** Whatever is read in front of a known conversion is a directive, as it is written. */
  lemma DirectiveRead(rest: Text, source: Source, memory: Memory) returns (d: Directive)
    requires SourceOk(source) && rest != []
    requires var fmt := [PERCENT] + rest;
      var c := ReadDirective(fmt, 1, source, memory);
      c.Some? && IsKnown(fmt[c.value.at])
    ensures DirectiveOk(d) && IsKnown(d.conversion) && DirectiveText(d) <= rest
  {
    hide DirectiveText, DirectiveOk, ReadDirective, Meaning, IsKnown, IsConversion;
    var fmt := [PERCENT] + rest;
    var at := ReadDirective(fmt, 1, source, memory).value.at;
    KnownConversion(fmt[at]);
    d := ReadDirectiveBack(fmt, 1, source, memory);
    LastIsConversion(d);
    assert fmt[1..at + 1] == rest[..at];
  }

  lemma LastIsConversion(d: Directive)
    ensures var t := DirectiveText(d);
      t != [] && t[|t| - 1] == d.conversion
  {
  }

  lemma KnownConversion(u: nat)
    requires IsKnown(u)
    ensures IsConversion(u) && u != PERCENT
  {
  }

  lemma UnknownFails(c: Cursor, u: nat, out: Text, memory: Memory, wide: bool, host: Host)
    requires SourceOk(c.source) && !IsKnown(u)
    ensures AfterDirective(c, u, out, memory, wide, host).None?
  {
    hide Slot;
  }
}
