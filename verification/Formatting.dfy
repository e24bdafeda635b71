/**
  The formatter's directives and fields, over 16-bit units: what a directive in a format
  string means, where its arguments come from, and the field it produces.
*/
module Formatting {
  import opened Wrappers
  import opened Digits
  import opened GuestMemory
  import HexFloat
  import HexText

  const MAX_WIDTH: nat := 0x10_0000
  const MAX_PRECISION: nat := 512
  const INT_MAX: nat := 0x7FFF_FFFF

  /** A text of 16-bit units. */
  type Text = seq<nat>

  function Ascii(s: string): (t: Text)
    ensures |t| == |s|
  {
    seq(|s|, i requires 0 <= i < |s| => s[i] as nat)
  }

  /** A unit as a character; units outside ASCII read as a question mark. */
  function Plain(t: Text): (s: string)
    ensures |s| == |t|
  {
    seq(|t|, i requires 0 <= i < |t| => if t[i] < 128 then t[i] as char else '?')
  }

  predicate IsAscii(s: string) {
    forall i :: 0 <= i < |s| ==> s[i] as nat < 128
  }

  // ----------------------------------------------------------------- arguments

  const STACK_SLOT_BASE: nat := 0x54
  const FIRST_STACK_INDEX: nat := 8

  /** Where the variadic arguments come from: eight registers and then stack slots, or an
      array of slots. */
  datatype Source =
    | Registers(gpr: seq<nat>, index: nat)
    | Array(base: nat, index: nat)

  predicate SourceOk(s: Source) {
    s.Registers? ==> |s.gpr| == 32 && forall i :: 0 <= i < 32 ==> s.gpr[i] < TWO_64
  }

  function Slot(s: Source, memory: Memory): (v: nat)
    requires SourceOk(s)
    ensures v < TWO_64
  {
    match s
    case Registers(gpr, index) =>
      if index < FIRST_STACK_INDEX then gpr[3 + index]
      else Read64(memory, gpr[1] + STACK_SLOT_BASE + 8 * (index - FIRST_STACK_INDEX))
    case Array(base, index) => Read64(memory, base + 8 * index)
  }

  function Next(s: Source): Source {
    s.(index := s.index + 1)
  }

  function Ahead(s: Source, n: nat): Source {
    s.(index := s.index + n)
  }

  /** Past the registers, a variadic call and an argument list at the same stack address
      give the same arguments. */
  lemma StackIsArray(gpr: seq<nat>, index: nat, n: nat, memory: Memory)
    requires SourceOk(Registers(gpr, index)) && index >= FIRST_STACK_INDEX
    ensures Slot(Ahead(Registers(gpr, index), n), memory)
         == Slot(Ahead(Array(gpr[1] + STACK_SLOT_BASE + 8 * (index - FIRST_STACK_INDEX), 0), n), memory)
  {
  }

  // -------------------------------------------------------------- the directive

  datatype Spec = Spec(
    left: bool, plus: bool, zero: bool, space: bool, alt: bool, width: nat, precision: int,
    isShort: bool, isLong: bool, isLongLong: bool, isWide: bool)

  const PLAIN: Spec := Spec(false, false, false, false, false, 0, -1, false, false, false, false)

  predicate IsFlag(u: nat) {
    u == '-' as nat || u == '+' as nat || u == '0' as nat || u == ' ' as nat || u == '#' as nat
  }

  predicate IsDecimal(u: nat) {
    '0' as nat <= u <= '9' as nat
  }

  /** The first position from `i` on that holds no flag. */
  function FlagEnd(fmt: Text, i: nat): (j: nat)
    requires i <= |fmt|
    ensures i <= j <= |fmt|
    decreases |fmt| - i
  {
    if i < |fmt| && IsFlag(fmt[i]) then FlagEnd(fmt, i + 1) else i
  }

  function DecimalEnd(fmt: Text, i: nat): (j: nat)
    requires i <= |fmt|
    ensures i <= j <= |fmt|
    decreases |fmt| - i
  {
    if i < |fmt| && IsDecimal(fmt[i]) then DecimalEnd(fmt, i + 1) else i
  }

  function WithFlags(spec: Spec, flags: Text): Spec {
    spec.(left := spec.left || '-' as nat in flags, plus := spec.plus || '+' as nat in flags,
          zero := spec.zero || '0' as nat in flags, space := spec.space || ' ' as nat in flags,
          alt := spec.alt || '#' as nat in flags)
  }

  function ToInt32(v: nat): int {
    var low := v % TWO_32;
    if low >= TWO_31 then low - TWO_32 else low
  }

  function WithWidth(spec: Spec, w: int): Spec {
    if w < 0 then spec.(left := true, width := -w) else spec.(width := w)
  }

  /** A directive under way: its specification so far, the position reached and the
      arguments left. */
  datatype Cursor = Cursor(spec: Spec, at: nat, source: Source)

  function ReadFlags(fmt: Text, c: Cursor): Option<Cursor>
    requires c.at < |fmt|
  {
    var j := FlagEnd(fmt, c.at);
    if j == |fmt| then None else Some(c.(spec := WithFlags(c.spec, fmt[c.at..j]), at := j))
  }

  /** The number a run of digits spells and where it ends; none past the limit or at the
      end of the format. */
  function ReadDecimals(fmt: Text, from: nat): (r: Option<(nat, nat)>)
    requires from <= |fmt|
    ensures r.Some? ==> from <= r.value.1 < |fmt|
  {
    var j := DecimalEnd(fmt, from);
    var n := Number(Plain(fmt[from..j]), 10);
    if j == |fmt| || n > MAX_WIDTH then None else Some((n, j))
  }

  function ReadWidth(fmt: Text, c: Cursor, memory: Memory): Option<Cursor>
    requires c.at < |fmt| && SourceOk(c.source)
  {
    if fmt[c.at] == '*' as nat then
      if c.at + 1 == |fmt| then None
      else Some(Cursor(WithWidth(c.spec, ToInt32(Slot(c.source, memory))), c.at + 1, Next(c.source)))
    else
      var w := ReadDecimals(fmt, c.at);
      if w.None? then None else Some(c.(spec := c.spec.(width := w.value.0), at := w.value.1))
  }

  function ReadPrecision(fmt: Text, c: Cursor, memory: Memory): Option<Cursor>
    requires c.at < |fmt| && SourceOk(c.source)
  {
    if fmt[c.at] != '.' as nat then Some(c)
    else if c.at + 1 == |fmt| then None
    else if fmt[c.at + 1] == '*' as nat then
      var p := ToInt32(Slot(c.source, memory));
      if c.at + 2 == |fmt| then None
      else Some(Cursor(c.spec.(precision := if p < 0 then -1 else p), c.at + 2, Next(c.source)))
    else
      var p := ReadDecimals(fmt, c.at + 1);
      if p.None? then None else Some(c.(spec := c.spec.(precision := p.value.0), at := p.value.1))
  }

  function At(fmt: Text, i: nat): nat {
    if i < |fmt| then fmt[i] else 0
  }

  /** Units taken by the size prefix at `i`; none when there is no prefix. */
  function SizeLength(fmt: Text, i: nat): nat
    requires i < |fmt|
  {
    if fmt[i] == 'l' as nat then (if At(fmt, i + 1) == 'l' as nat then 2 else 1)
    else if fmt[i] == 'h' as nat || fmt[i] == 'w' as nat || fmt[i] == 'L' as nat then 1
    else if fmt[i] == 'I' as nat then
      if At(fmt, i + 1) == '6' as nat && At(fmt, i + 2) == '4' as nat then 3
      else if At(fmt, i + 1) == '3' as nat && At(fmt, i + 2) == '2' as nat then 3
      else 1
    else 0
  }

  function WithSize(spec: Spec, fmt: Text, i: nat): Spec
    requires i < |fmt|
  {
    if fmt[i] == 'l' as nat then
      (if At(fmt, i + 1) == 'l' as nat then spec.(isLongLong := true) else spec.(isLong := true))
    else if fmt[i] == 'h' as nat then spec.(isShort := true)
    else if fmt[i] == 'w' as nat then spec.(isWide := true)
    else if fmt[i] == 'I' as nat && At(fmt, i + 1) == '6' as nat && At(fmt, i + 2) == '4' as nat then
      spec.(isLongLong := true)
    else spec
  }

  function ReadSizes(fmt: Text, c: Cursor): (r: Option<Cursor>)
    requires c.at < |fmt|
    ensures r.Some? ==> c.at <= r.value.at < |fmt| && r.value.source == c.source
    decreases |fmt| - c.at
  {
    var n := SizeLength(fmt, c.at);
    if n == 0 then Some(c)
    else if c.at + n >= |fmt| then None
    else ReadSizes(fmt, c.(spec := WithSize(c.spec, fmt, c.at), at := c.at + n))
  }

  function ReadAfterWidth(fmt: Text, c: Cursor, memory: Memory): (r: Option<Cursor>)
    requires c.at < |fmt| && SourceOk(c.source)
    ensures r.Some? ==> c.at <= r.value.at < |fmt| && SourceOk(r.value.source)
  {
    var c3 := ReadPrecision(fmt, c, memory);
    if c3.None? then None else ReadSizes(fmt, c3.value)
  }

  function ReadAfterFlags(fmt: Text, c: Cursor, memory: Memory): (r: Option<Cursor>)
    requires c.at < |fmt| && SourceOk(c.source)
    ensures r.Some? ==> c.at <= r.value.at < |fmt| && SourceOk(r.value.source)
  {
    var c2 := ReadWidth(fmt, c, memory);
    if c2.None? then None else ReadAfterWidth(fmt, c2.value, memory)
  }

  /** Flags, width, precision and size prefixes, up to the conversion character. */
  function ReadDirective(fmt: Text, i: nat, source: Source, memory: Memory): (r: Option<Cursor>)
    requires i < |fmt| && SourceOk(source)
    ensures r.Some? ==> i <= r.value.at < |fmt| && SourceOk(r.value.source)
  {
    var c1 := ReadFlags(fmt, Cursor(PLAIN, i, source));
    if c1.None? then None else ReadAfterFlags(fmt, c1.value, memory)
  }

  // ------------------------------------------------------------------- integers

  /** The size prefix selects how many low bits of the argument count. */
  function Modulus(spec: Spec): (m: nat)
    ensures m > 0
  {
    if spec.isLongLong then TWO_64 else if spec.isShort then TWO_16 else TWO_32
  }

  function Unsigned(spec: Spec, raw: nat): nat {
    raw % Modulus(spec)
  }

  /** The two's-complement reading of those bits. */
  function Signed(spec: Spec, raw: nat): int {
    var low := Unsigned(spec, raw);
    if 2 * low >= Modulus(spec) then low - Modulus(spec) else low
  }

  function Magnitude(v: int): nat {
    if v < 0 then -v else v
  }

  function Min(a: int, b: int): int {
    if a < b then a else b
  }

  function MinDigits(spec: Spec): int {
    if spec.precision >= 0 then Min(spec.precision, MAX_PRECISION) else 1
  }

  function SignPrefix(spec: Spec, negative: bool): string {
    if negative then "-" else if spec.plus then "+" else if spec.space then " " else ""
  }

  // --------------------------------------------------------------------- fields

  datatype Field = Field(prefix: string, body: Text, numeric: bool, integer: bool, finite: bool)

  function IntegerBody(spec: Spec, magnitude: nat, radix: nat, upper: bool): string
    requires Radix(radix)
  {
    var digits := DigitsOf(magnitude, radix, upper, MinDigits(spec));
    if radix == 8 && spec.alt && (digits == [] || digits[0] != '0') then "0" + digits else digits
  }

  function SignedField(spec: Spec, raw: nat): Field {
    var v := Signed(spec, raw);
    Field(SignPrefix(spec, v < 0), Ascii(IntegerBody(spec, Magnitude(v), 10, false)), true, true, true)
  }

  function UnsignedField(spec: Spec, raw: nat, radix: nat, upper: bool): Field
    requires Radix(radix)
  {
    var v := Unsigned(spec, raw);
    Field(if radix == 16 && spec.alt && v != 0 then (if upper then "0X" else "0x") else "",
          Ascii(IntegerBody(spec, v, radix, upper)), true, true, true)
  }

  /** A pointer: eight hex digits whatever the precision. */
  function PointerField(raw: nat): Field {
    Field("", Ascii(DigitsOf(raw % TWO_32, 16, true, 8)), true, true, true)
  }

  /** The host's text for the conversions the program leaves to it: conversion, alternate
      form, precision and magnitude. */
  type Host = (nat, bool, nat, nat) -> string

  function FloatField(spec: Spec, raw: nat, conversion: nat, host: Host): Field {
    var bits := raw % TWO_63;
    var upper := 'A' as nat <= conversion <= 'G' as nat;
    var body :=
      if bits > HexFloat.INFINITY then (if upper then "NAN" else "nan")
      else if bits == HexFloat.INFINITY then (if upper then "INF" else "inf")
      else if conversion == 'a' as nat || conversion == 'A' as nat then
        FloatText(bits, if spec.precision < 0 then -1 else Min(spec.precision, MAX_PRECISION), upper, spec.alt)
      else host(conversion, spec.alt, if spec.precision < 0 then 6 else Min(spec.precision, MAX_PRECISION), bits);
    Field(SignPrefix(spec, raw % TWO_64 >= TWO_63), Ascii(body), true, false, bits < HexFloat.INFINITY)
  }

  function FloatText(bits: nat, precision: int, upper: bool, alt: bool): string
    requires HexFloat.Finite(bits)
  {
    HexText.HexOfOneLead(bits, precision);
    HexText.Render(HexFloat.HexOf(bits, precision), upper, alt)
  }

  function StringIsWide(spec: Spec, inverted: bool, wide: bool): bool {
    if spec.isLong || spec.isWide then true else if spec.isShort then false else inverted != wide
  }

  /** Units of a guest string up to a terminator, at most `limit`. */
  function GuestString(memory: Memory, address: nat, wide: bool, i: nat, limit: nat): Text
    decreases limit - i
  {
    if i >= limit then []
    else
      var c := if wide then Read16(memory, address + 2 * i) else Read8(memory, address + i);
      if c == 0 then [] else [c] + GuestString(memory, address, wide, i + 1, limit)
  }

  function Truncated(t: Text, limit: nat): (r: Text)
    ensures |r| <= limit
  {
    if |t| > limit then t[..limit] else t
  }

  function StringField(spec: Spec, raw: nat, inverted: bool, wide: bool, memory: Memory): Field {
    var pointer, cap := raw % TWO_32, if spec.precision < 0 then INT_MAX else spec.precision;
    Field("", if pointer == 0 then Truncated(Ascii("(null)"), cap)
              else GuestString(memory, pointer, StringIsWide(spec, inverted, wide), 0, cap), false, false, true)
  }

  function CharField(spec: Spec, raw: nat, inverted: bool, wide: bool): Field {
    Field("", [if StringIsWide(spec, inverted, wide) then raw % TWO_16 else raw % 256], false, false, true)
  }

  /** A counted string: its length in bytes and its buffer come from the descriptor. */
  function CountedString(memory: Memory, address: nat, unicode: bool): Text {
    if address == 0 then Ascii("(null)")
    else
      var length, buffer := Read16(memory, address), Read32(memory, address + 4);
      if buffer == 0 then []
      else if unicode then seq<nat>(length / 2, i requires 0 <= i < length / 2 => Read16(memory, buffer + 2 * i))
      else seq<nat>(length, i requires 0 <= i < length => Read8(memory, buffer + i))
  }

  function CountedField(spec: Spec, raw: nat, memory: Memory): Field {
    var body := CountedString(memory, raw % TWO_32, spec.isWide);
    Field("", if spec.precision >= 0 then Truncated(body, spec.precision) else body, false, false, true)
  }

  predicate IsFloat(conversion: nat) {
    'a' as nat == conversion || 'A' as nat == conversion
    || 'e' as nat <= conversion <= 'g' as nat || 'E' as nat <= conversion <= 'G' as nat
  }

  /** The field of one conversion of the argument `raw`; none for an unknown one. */
  function Convert(spec: Spec, conversion: nat, raw: nat, memory: Memory, wide: bool, host: Host): Option<Field> {
    if conversion == 'd' as nat || conversion == 'i' as nat then Some(SignedField(spec, raw))
    else if conversion == 'u' as nat then Some(UnsignedField(spec, raw, 10, false))
    else if conversion == 'o' as nat then Some(UnsignedField(spec, raw, 8, false))
    else if conversion == 'x' as nat then Some(UnsignedField(spec, raw, 16, false))
    else if conversion == 'X' as nat then Some(UnsignedField(spec, raw, 16, true))
    else if conversion == 'p' as nat then Some(PointerField(raw))
    else if conversion == 'c' as nat || conversion == 'C' as nat then
      Some(CharField(spec, raw, conversion == 'C' as nat, wide))
    else if conversion == 's' as nat || conversion == 'S' as nat then
      Some(StringField(spec, raw, conversion == 'S' as nat, wide, memory))
    else if conversion == 'Z' as nat then Some(CountedField(spec, raw, memory))
    else if IsFloat(conversion) then Some(FloatField(spec, raw, conversion, host))
    else None
  }

  // -------------------------------------------------------------------- padding

  function Fill(n: nat, c: char): (t: string)
    ensures |t| == n
  {
    seq(n, _ => c)
  }

  /** Zeros are used only for numbers that are right-aligned, finite, and, if integers,
      given no precision; a pointer counts as having one. */
  predicate ZeroPads(spec: Spec, f: Field, pointer: bool) {
    spec.zero && !spec.left && !(f.integer && (spec.precision >= 0 || pointer))
    && !(f.numeric && !f.integer && !f.finite)
  }

  function Padded(spec: Spec, f: Field, pointer: bool): Text {
    var used := |f.body| + |f.prefix|;
    var padding := if spec.width > used then spec.width - used else 0;
    var prefix := Ascii(f.prefix);
    if spec.left then prefix + f.body + Ascii(Fill(padding, ' '))
    else if ZeroPads(spec, f, pointer) then prefix + Ascii(Fill(padding, '0')) + f.body
    else Ascii(Fill(padding, ' ')) + prefix + f.body
  }

  /** A field is exactly as wide as asked, or as its own text when that is wider. */
  lemma PaddedWidth(spec: Spec, f: Field, pointer: bool)
    ensures var own := |f.prefix| + |f.body|;
      |Padded(spec, f, pointer)| == if spec.width > own then spec.width else own
  {
  }

  predicate Representable(t: Text, wide: bool) {
    wide || forall i :: 0 <= i < |t| ==> t[i] <= 0xFF
  }

  lemma RepresentableJoin(a: Text, b: Text, wide: bool)
    ensures Representable(a + b, wide) <==> Representable(a, wide) && Representable(b, wide)
  {
    var ab := a + b;
    if Representable(ab, wide) && !wide {
      forall i | 0 <= i < |a| ensures a[i] <= 0xFF { assert ab[i] == a[i]; }
      forall i | 0 <= i < |b| ensures b[i] <= 0xFF { assert ab[|a| + i] == b[i]; }
    }
  }

  // ---------------------------------------------------------------- the formatter

  datatype Outcome = Failed(memory: Memory) | Done(text: Text, memory: Memory, source: Source)

  /** Output and memory after one complete directive; none when it fails the format. */
  function AfterDirective(c: Cursor, conversion: nat, out: Text, memory: Memory,
                          wide: bool, host: Host): Option<(Text, Memory)>
    requires SourceOk(c.source)
  {
    var raw := Slot(c.source, memory);
    if conversion == 'n' as nat then
      Some((out, if c.spec.isShort then Write16(memory, raw % TWO_32, |out|) else Write32(memory, raw % TWO_32, |out|)))
    else
      var field := Convert(c.spec, conversion, raw, memory, wide, host);
      if field.None? then None
      else
        var text := Padded(c.spec, field.value, conversion == 'p' as nat);
        if Representable(text, wide) then Some((out + text, memory)) else None
  }

  /** The whole format from position `i` on, behind the output so far. */
  function Formatted(fmt: Text, i: nat, out: Text, source: Source, memory: Memory, wide: bool, host: Host): Outcome
    requires i <= |fmt| && SourceOk(source)
    decreases |fmt| - i
  {
    if i == |fmt| then Done(out, memory, source)
    else if fmt[i] != '%' as nat then
      if Representable([fmt[i]], wide) then Formatted(fmt, i + 1, out + [fmt[i]], source, memory, wide, host)
      else Failed(memory)
    else if i + 1 == |fmt| then Failed(memory)
    else if fmt[i + 1] == '%' as nat then Formatted(fmt, i + 2, out + ['%' as nat], source, memory, wide, host)
    else
      var c := ReadDirective(fmt, i + 1, source, memory);
      if c.None? || c.value.spec.width > MAX_WIDTH then Failed(memory)
      else
        var r := AfterDirective(c.value, fmt[c.value.at], out, memory, wide, host);
        if r.None? then Failed(memory)
        else Formatted(fmt, c.value.at + 1, r.value.0, Next(c.value.source), r.value.1, wide, host)
  }
}
