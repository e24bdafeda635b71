/** What the formatter's fields and directives say when they are read back. */
module FormatProperties {
  import opened Wrappers
  import opened Arithmetic
  import opened Digits
  import opened Formatting
  import opened GuestMemory
  import HexFloat
  import HexText

  // ---------------------------------------------------------- reading an integer

  function SkipSpaces(t: string): string {
    if t != [] && t[0] == ' ' then SkipSpaces(t[1..]) else t
  }

  function DigitRun(t: string, radix: nat): (n: nat)
    ensures n <= |t|
  {
    if t == [] || !IsDigit(t[0], radix) then 0 else 1 + DigitRun(t[1..], radix)
  }

  /** Reads an integer the way the C library does: spaces, a sign, a hex marker in radix
      sixteen, digits; only spaces may follow. */
  function ReadInteger(t: string, radix: nat): Option<int> {
    ReadTrimmed(SkipSpaces(t), radix)
  }

  predicate StartsSigned(t: string) {
    t != [] && (t[0] == '-' || t[0] == '+')
  }

  function ReadTrimmed(t: string, radix: nat): Option<int> {
    if StartsSigned(t) then ReadUnsigned(Unmarked(t[1..], radix), radix, t[0] == '-')
    else ReadUnsigned(Unmarked(t, radix), radix, false)
  }

  function Unmarked(t: string, radix: nat): string {
    if radix == 16 && |t| >= 2 && t[0] == '0' && (t[1] == 'x' || t[1] == 'X') then t[2..] else t
  }

  function ReadUnsigned(t: string, radix: nat, negative: bool): Option<int> {
    var n := DigitRun(t, radix);
    if SkipSpaces(t[n..]) != [] then None
    else
      var v: int := Number(t[..n], radix);
      Some(if negative then -v else v)
  }

  lemma {:induction false} SkipFill(n: nat, rest: string)
    ensures SkipSpaces(Fill(n, ' ') + rest) == SkipSpaces(rest)
  {
    var t := Fill(n, ' ') + rest;
    if n == 0 {
      assert t == rest;
    } else {
      assert t[1..] == Fill(n - 1, ' ') + rest;
      SkipFill(n - 1, rest);
    }
  }

  lemma SkipAll(n: nat)
    ensures SkipSpaces(Fill(n, ' ')) == []
  {
    SkipFill(n, []);
    assert Fill(n, ' ') + [] == Fill(n, ' ');
  }

  lemma {:induction false} DigitRunOf(digits: string, rest: string, radix: nat)
    requires AllDigits(digits, radix) && (rest == [] || !IsDigit(rest[0], radix))
    ensures DigitRun(digits + rest, radix) == |digits|
  {
    if digits == [] {
      assert digits + rest == rest;
    } else {
      assert (digits + rest)[1..] == digits[1..] + rest;
      DigitRunOf(digits[1..], rest, radix);
    }
  }

  /** The reader on each of the shapes a field can take. */
  lemma ReadsParts(before: nat, sign: string, marker: string, digits: string, after: nat, radix: nat)
    requires Radix(radix) && AllDigits(digits, radix)
    requires sign == "" || sign == "-" || sign == "+"
    requires marker == "" || (radix == 16 && (marker == "0x" || marker == "0X"))
    ensures ReadInteger(Fill(before, ' ') + (sign + (marker + (digits + Fill(after, ' ')))), radix)
         == Some(if sign == "-" then -(Number(digits, radix) as int) else Number(digits, radix))
  {
    hide Number, DigitValue, ReadTrimmed;
    var t1 := sign + (marker + (digits + Fill(after, ' ')));
    SkipFill(before, t1);
    if digits != [] { DigitIsPlain(digits[0], radix); }
    TrimmedParts(sign, marker, digits, after, radix);
    if t1 != [] && t1[0] == ' ' {
      assert sign == "" && marker == "" && digits == [];
      assert t1 == Fill(after, ' ');
      SkipAll(after);
      assert "" + ("" + ("" + Fill(0, ' '))) == "";
      TrimmedParts("", "", "", 0, radix);
    }
  }

  lemma AfterDigits(digits: string, after: nat, radix: nat)
    requires Radix(radix) && AllDigits(digits, radix)
    ensures DigitRun(digits + Fill(after, ' '), radix) == |digits|
  {
    SpaceIsNoDigit(radix);
    DigitRunOf(digits, Fill(after, ' '), radix);
  }

  lemma TrimmedParts(sign: string, marker: string, digits: string, after: nat, radix: nat)
    requires Radix(radix) && AllDigits(digits, radix)
    requires sign == "" || sign == "-" || sign == "+"
    requires marker == "" || (radix == 16 && (marker == "0x" || marker == "0X"))
    ensures ReadTrimmed(sign + (marker + (digits + Fill(after, ' '))), radix)
         == Some(if sign == "-" then -(Number(digits, radix) as int) else Number(digits, radix))
  {
    hide Number, DigitValue, ReadUnsigned, Unmarked;
    var t2 := marker + (digits + Fill(after, ' '));
    var t1 := sign + t2;
    if digits != [] { DigitIsPlain(digits[0], radix); }
    AfterMarker(marker, digits, after, radix);
    UnsignedParts(digits, after, radix, sign == "-");
    if sign != "" { assert t1[1..] == t2; } else { assert t1 == t2; }
  }

  lemma UnsignedParts(digits: string, after: nat, radix: nat, negative: bool)
    requires Radix(radix) && AllDigits(digits, radix)
    ensures ReadUnsigned(digits + Fill(after, ' '), radix, negative)
         == Some(if negative then -(Number(digits, radix) as int) else Number(digits, radix))
  {
    hide Number, DigitValue;
    var t := digits + Fill(after, ' ');
    AfterDigits(digits, after, radix);
    SkipAll(after);
    assert t[|digits|..] == Fill(after, ' ') && t[..|digits|] == digits;
  }

  lemma SpaceIsNoDigit(radix: nat)
    requires Radix(radix)
    ensures !IsDigit(' ', radix) && !IsDigit('x', radix) && !IsDigit('X', radix)
  {
  }

  lemma DigitIsPlain(c: char, radix: nat)
    requires Radix(radix) && IsDigit(c, radix)
    ensures c != ' ' && c != '-' && c != '+' && c != 'x' && c != 'X' && c as nat < 128
  {
  }

  lemma AfterMarker(marker: string, digits: string, after: nat, radix: nat)
    requires Radix(radix) && AllDigits(digits, radix)
    requires marker == "" || (radix == 16 && (marker == "0x" || marker == "0X"))
    ensures Unmarked(marker + (digits + Fill(after, ' ')), radix) == digits + Fill(after, ' ')
  {
  }

  // ------------------------------------------------------------ integer fields

  lemma {:induction false} ZerosAhead(n: nat, body: string, radix: nat)
    requires Radix(radix) && AllDigits(body, radix)
    ensures AllDigits(Fill(n, '0') + body, radix) && Number(Fill(n, '0') + body, radix) == Number(body, radix)
  {
    NumberJoin(Fill(n, '0'), body, radix);
    NumberOfZeros(n, radix);
    assert IsDigit('0', radix);
  }

  lemma {:induction false} NumberOfZeros(n: nat, radix: nat)
    ensures Number(Fill(n, '0'), radix) == 0
  {
    if n > 0 {
      NumberOfZeros(n - 1, radix);
      assert Fill(n, '0')[..n - 1] == Fill(n - 1, '0');
    }
  }

  lemma DigitsAscii(body: string, radix: nat)
    requires Radix(radix) && AllDigits(body, radix)
    ensures IsAscii(body)
  {
  }

  /** The padded text of an integer field, as characters. */
  function PaddedText(spec: Spec, f: Field, pointer: bool, body: string): string {
    var used := |body| + |f.prefix|;
    var n := if spec.width > used then spec.width - used else 0;
    if spec.left then f.prefix + body + Fill(n, ' ')
    else if ZeroPads(spec, f, pointer) then f.prefix + Fill(n, '0') + body
    else Fill(n, ' ') + f.prefix + body
  }

  lemma PaddedPlain(spec: Spec, f: Field, pointer: bool, body: string)
    requires f.body == Ascii(body) && IsAscii(body) && IsAscii(f.prefix)
    ensures Plain(Padded(spec, f, pointer)) == PaddedText(spec, f, pointer, body)
  {
    hide Ascii, Plain, Fill, IsAscii, ZeroPads;
    var used := |f.body| + |f.prefix|;
    var n: nat := if spec.width > used then spec.width - used else 0;
    FillAscii(n);
    PlainAscii(f.prefix);
    PlainAscii(body);
    var prefix, spaces, zeros := Ascii(f.prefix), Ascii(Fill(n, ' ')), Ascii(Fill(n, '0'));
    PlainJoin(prefix + f.body, spaces);
    PlainJoin(prefix, f.body);
    PlainJoin(prefix + zeros, f.body);
    PlainJoin(prefix, zeros);
    PlainJoin(spaces + prefix, f.body);
    PlainJoin(spaces, prefix);
  }

  lemma PlainJoin(a: Text, b: Text)
    ensures Plain(a + b) == Plain(a) + Plain(b)
  {
  }

  lemma PlainAscii(t: string)
    requires IsAscii(t)
    ensures Plain(Ascii(t)) == t && |Ascii(t)| == |t|
  {
  }

  lemma FillAscii(n: nat)
    ensures Plain(Ascii(Fill(n, ' '))) == Fill(n, ' ') && Plain(Ascii(Fill(n, '0'))) == Fill(n, '0')
  {
  }

  /** An integer field reads as its value when its body's digits have its magnitude. */
  lemma PaddedReads(spec: Spec, f: Field, pointer: bool, body: string, radix: nat, v: int)
    requires Radix(radix) && AllDigits(body, radix) && Number(body, radix) == Magnitude(v)
    requires f.body == Ascii(body) && IntegerPrefix(f.prefix, radix, v)
    ensures ReadInteger(Plain(Padded(spec, f, pointer)), radix) == Some(v)
  {
    hide Number, DigitValue, ReadInteger, Padded, ZeroPads;
    DigitsAscii(body, radix);
    PaddedPlain(spec, f, pointer, body);
    var used := |body| + |f.prefix|;
    var n: nat := if spec.width > used then spec.width - used else 0;
    var text := PaddedText(spec, f, pointer, body);
    var (lead, sign, marker) := PrefixParts(f.prefix);
    if spec.left {
      ReadsParts(|lead|, sign, marker, body, n, radix);
      LeftParts(f.prefix, body, n);
    } else if ZeroPads(spec, f, pointer) {
      ZerosAhead(n, body, radix);
      ReadsParts(|lead|, sign, marker, Fill(n, '0') + body, 0, radix);
      ZeroParts(f.prefix, body, n);
    } else {
      ReadsParts(n + |lead|, sign, marker, body, 0, radix);
      RightParts(f.prefix, body, n);
    }
  }

  lemma LeftParts(prefix: string, body: string, n: nat)
    ensures var (lead, sign, marker) := PrefixParts(prefix);
      prefix + body + Fill(n, ' ') == Fill(|lead|, ' ') + (sign + (marker + (body + Fill(n, ' '))))
  {
  }

  lemma ZeroParts(prefix: string, body: string, n: nat)
    ensures var (lead, sign, marker) := PrefixParts(prefix);
      prefix + Fill(n, '0') + body == Fill(|lead|, ' ') + (sign + (marker + ((Fill(n, '0') + body) + Fill(0, ' '))))
  {
  }

  lemma RightParts(prefix: string, body: string, n: nat)
    ensures var (lead, sign, marker) := PrefixParts(prefix);
      Fill(n, ' ') + prefix + body == Fill(n + |lead|, ' ') + (sign + (marker + (body + Fill(0, ' '))))
  {
  }

  predicate IntegerPrefix(prefix: string, radix: nat, v: int) {
    if v < 0 then prefix == "-"
    else prefix == "" || prefix == "+" || prefix == " " || (radix == 16 && (prefix == "0x" || prefix == "0X"))
  }

  /** A prefix as spaces, a sign and a marker. */
  function PrefixParts(prefix: string): (string, string, string) {
    if prefix == " " then (" ", "", "")
    else if prefix == "-" || prefix == "+" then ("", prefix, "")
    else ("", "", prefix)
  }

  lemma IntegerBodyReads(spec: Spec, magnitude: nat, radix: nat, upper: bool)
    requires Radix(radix)
    ensures AllDigits(IntegerBody(spec, magnitude, radix, upper), radix)
    ensures Number(IntegerBody(spec, magnitude, radix, upper), radix) == magnitude
  {
    hide Number, DigitValue, DigitsOf;
    var digits := DigitsOf(magnitude, radix, upper, MinDigits(spec));
    DigitsReadBack(magnitude, radix, upper, MinDigits(spec));
    if digits != IntegerBody(spec, magnitude, radix, upper) {
      ZerosAhead(1, digits, radix);
      assert Fill(1, '0') == "0";
    }
  }

  /** Every `%d` and `%i` field, whatever its flags, width and precision, reads back as the
      two's-complement value of the bits its size prefix selects. */
  lemma SignedReadsBack(spec: Spec, raw: nat)
    ensures ReadInteger(Plain(Padded(spec, SignedField(spec, raw), false)), 10) == Some(Signed(spec, raw))
  {
    hide Number, AllDigits, ReadInteger, Padded, IntegerBody, Signed;
    var v := Signed(spec, raw);
    IntegerBodyReads(spec, Magnitude(v), 10, false);
    PaddedReads(spec, SignedField(spec, raw), false, IntegerBody(spec, Magnitude(v), 10, false), 10, v);
  }

  /** That value is the one in the selected width's range that differs from the argument
      by a multiple of the width's modulus. */
  lemma SignedIsTwosComplement(spec: Spec, raw: nat)
    ensures var m, v := Modulus(spec), Signed(spec, raw);
      && 0 <= 2 * v + m && 2 * v < m
      && (raw == (raw / m) * m + v || raw == (raw / m + 1) * m + v)
  {
  }

  /** Every `%u`, `%o`, `%x` and `%X` field reads back in its radix as the selected bits. */
  lemma UnsignedReadsBack(spec: Spec, raw: nat, radix: nat, upper: bool)
    requires Radix(radix)
    ensures ReadInteger(Plain(Padded(spec, UnsignedField(spec, raw, radix, upper), false)), radix)
         == Some(raw % Modulus(spec))
  {
    hide Number, AllDigits, ReadInteger, Padded, IntegerBody, Modulus;
    var v := Unsigned(spec, raw);
    IntegerBodyReads(spec, v, radix, upper);
    PaddedReads(spec, UnsignedField(spec, raw, radix, upper), false, IntegerBody(spec, v, radix, upper), radix, v);
  }

  /** A pointer is always eight digits and reads back as the low 32 bits. */
  lemma PointerReadsBack(spec: Spec, raw: nat)
    ensures |PointerField(raw).body| == 8
    ensures ReadInteger(Plain(Padded(spec, PointerField(raw), true)), 16) == Some(raw % TWO_32)
  {
    hide Number, DigitValue, ReadInteger, Padded, DigitsOf;
    var v := raw % TWO_32;
    DigitsReadBack(v, 16, true, 8);
    EightDigits();
    DigitsFixed(v, 16, true, 8);
    PaddedReads(spec, PointerField(raw), true, DigitsOf(v, 16, true, 8), 16, v);
  }

  lemma EightDigits()
    ensures Pow(16, 8) == TWO_32
  {
  }

  // -------------------------------------------------- formats put one after another

  lemma {:induction false} FlagEndLocal(a: Text, b: Text, i: nat)
    requires i <= |a| && FlagEnd(a, i) < |a|
    ensures FlagEnd(a + b, i) == FlagEnd(a, i)
    decreases |a| - i
  {
    if IsFlag(a[i]) { FlagEndLocal(a, b, i + 1); }
  }

  lemma {:induction false} DecimalEndLocal(a: Text, b: Text, i: nat)
    requires i <= |a| && DecimalEnd(a, i) < |a|
    ensures DecimalEnd(a + b, i) == DecimalEnd(a, i)
    decreases |a| - i
  {
    if IsDecimal(a[i]) { DecimalEndLocal(a, b, i + 1); }
  }

  lemma SizeLocal(a: Text, b: Text, i: nat)
    requires i < |a| && i + SizeLength(a, i) < |a|
    requires !(a[i] == 'I' as nat && i + 2 == |a| && !Settled(a[i + 1]))
    ensures SizeLength(a + b, i) == SizeLength(a, i)
    ensures forall spec :: WithSize(spec, a + b, i) == WithSize(spec, a, i)
  {
  }

  /** A conversion that is not the start of `64` or `32`. */
  predicate Settled(conversion: nat) {
    conversion != '6' as nat && conversion != '3' as nat
  }

  lemma LastIsUnsettled(a: Text, c: Cursor)
    requires c.at + 2 == |a| && a[c.at] == 'I' as nat && !Settled(a[c.at + 1])
    ensures ReadSizes(a, c).Some? && !Settled(a[ReadSizes(a, c).value.at])
  {
  }

  /** A size letter at the very end asks for more text, so what follows cannot matter to a
      directive that was complete, unless its conversion is the start of `64` or `32`. */
  lemma {:induction false} ReadSizesLocal(a: Text, b: Text, c: Cursor)
    requires c.at < |a| && ReadSizes(a, c).Some? && Settled(a[ReadSizes(a, c).value.at])
    ensures ReadSizes(a + b, c) == ReadSizes(a, c)
    decreases |a| - c.at
  {
    hide WithSize, SizeLength;
    var n := SizeLength(a, c.at);
    if c.at + 2 == |a| && a[c.at] == 'I' as nat && !Settled(a[c.at + 1]) { LastIsUnsettled(a, c); }
    SizeLocal(a, b, c.at);
    if n != 0 {
      ReadSizesLocal(a, b, c.(spec := WithSize(c.spec, a, c.at), at := c.at + n));
    }
  }

  lemma ReadDecimalsLocal(a: Text, b: Text, i: nat)
    requires i <= |a| && ReadDecimals(a, i).Some?
    ensures ReadDecimals(a + b, i) == ReadDecimals(a, i)
  {
    hide Number;
    DecimalEndLocal(a, b, i);
    var j := DecimalEnd(a, i);
    assert (a + b)[i..j] == a[i..j];
  }

  lemma ReadWidthLocal(a: Text, b: Text, c: Cursor, memory: Memory)
    requires c.at < |a| && SourceOk(c.source) && ReadWidth(a, c, memory).Some?
    ensures ReadWidth(a + b, c, memory) == ReadWidth(a, c, memory)
  {
    hide ReadDecimals;
    if a[c.at] != '*' as nat { ReadDecimalsLocal(a, b, c.at); }
  }

  lemma ReadPrecisionLocal(a: Text, b: Text, c: Cursor, memory: Memory)
    requires c.at < |a| && SourceOk(c.source) && ReadPrecision(a, c, memory).Some?
    ensures ReadPrecision(a + b, c, memory) == ReadPrecision(a, c, memory)
  {
    hide ReadDecimals;
    if a[c.at] == '.' as nat && a[c.at + 1] != '*' as nat { ReadDecimalsLocal(a, b, c.at + 1); }
  }

  lemma ReadFlagsLocal(a: Text, b: Text, c: Cursor)
    requires c.at < |a| && ReadFlags(a, c).Some?
    ensures ReadFlags(a + b, c) == ReadFlags(a, c)
  {
    FlagEndLocal(a, b, c.at);
    var j := FlagEnd(a, c.at);
    assert (a + b)[c.at..j] == a[c.at..j];
  }

  lemma ReadDirectiveLocal(a: Text, b: Text, i: nat, source: Source, memory: Memory)
    requires i < |a| && SourceOk(source) && ReadDirective(a, i, source, memory).Some?
    requires Settled(a[ReadDirective(a, i, source, memory).value.at])
    ensures ReadDirective(a + b, i, source, memory) == ReadDirective(a, i, source, memory)
  {
    hide ReadAfterFlags, FlagEnd;
    var c0 := Cursor(PLAIN, i, source);
    ReadFlagsLocal(a, b, c0);
    ReadAfterFlagsLocal(a, b, ReadFlags(a, c0).value, memory);
  }

  lemma ReadAfterFlagsLocal(a: Text, b: Text, c: Cursor, memory: Memory)
    requires c.at < |a| && SourceOk(c.source) && ReadAfterFlags(a, c, memory).Some?
    requires Settled(a[ReadAfterFlags(a, c, memory).value.at])
    ensures ReadAfterFlags(a + b, c, memory) == ReadAfterFlags(a, c, memory)
  {
    hide ReadAfterWidth, Number;
    ReadWidthLocal(a, b, c, memory);
    ReadAfterWidthLocal(a, b, ReadWidth(a, c, memory).value, memory);
  }

  lemma ReadAfterWidthLocal(a: Text, b: Text, c: Cursor, memory: Memory)
    requires c.at < |a| && SourceOk(c.source) && ReadAfterWidth(a, c, memory).Some?
    requires Settled(a[ReadAfterWidth(a, c, memory).value.at])
    ensures ReadAfterWidth(a + b, c, memory) == ReadAfterWidth(a, c, memory)
  {
    hide ReadSizes, Number;
    ReadPrecisionLocal(a, b, c, memory);
    ReadSizesLocal(a, b, ReadPrecision(a, c, memory).value);
  }

  lemma {:induction false} FlagEndShift(p: Text, b: Text, i: nat)
    requires i <= |b|
    ensures FlagEnd(p + b, |p| + i) == |p| + FlagEnd(b, i)
    decreases |b| - i
  {
    if i < |b| && IsFlag(b[i]) { FlagEndShift(p, b, i + 1); }
  }

  lemma {:induction false} DecimalEndShift(p: Text, b: Text, i: nat)
    requires i <= |b|
    ensures DecimalEnd(p + b, |p| + i) == |p| + DecimalEnd(b, i)
    decreases |b| - i
  {
    if i < |b| && IsDecimal(b[i]) { DecimalEndShift(p, b, i + 1); }
  }

  function Shifted(c: Option<Cursor>, n: nat): Option<Cursor> {
    if c.None? then None else Some(c.value.(at := c.value.at + n))
  }

  lemma {:induction false} ReadSizesShift(p: Text, b: Text, c: Cursor)
    requires c.at < |b|
    ensures ReadSizes(p + b, c.(at := |p| + c.at)) == Shifted(ReadSizes(b, c), |p|)
    decreases |b| - c.at
  {
    hide WithSize, SizeLength;
    SizeShift(p, b, c.at);
    var n := SizeLength(b, c.at);
    if n != 0 && c.at + n < |b| {
      ReadSizesShift(p, b, c.(spec := WithSize(c.spec, b, c.at), at := c.at + n));
    }
  }

  lemma SizeShift(p: Text, b: Text, i: nat)
    requires i < |b|
    ensures SizeLength(p + b, |p| + i) == SizeLength(b, i)
    ensures forall spec :: WithSize(spec, p + b, |p| + i) == WithSize(spec, b, i)
  {
  }

  lemma ReadFlagsShift(p: Text, b: Text, c: Cursor)
    requires c.at < |b|
    ensures ReadFlags(p + b, c.(at := |p| + c.at)) == Shifted(ReadFlags(b, c), |p|)
  {
    FlagEndShift(p, b, c.at);
    var j := FlagEnd(b, c.at);
    assert (p + b)[|p| + c.at..|p| + j] == b[c.at..j];
  }

  lemma ReadDecimalsShift(p: Text, b: Text, i: nat)
    requires i <= |b|
    ensures var r, r' := ReadDecimals(b, i), ReadDecimals(p + b, |p| + i);
      (r.None? <==> r'.None?) && (r.Some? ==> r'.value.0 == r.value.0 && r'.value.1 == |p| + r.value.1)
  {
    hide Number;
    DecimalEndShift(p, b, i);
    var j := DecimalEnd(b, i);
    assert (p + b)[|p| + i..|p| + j] == b[i..j];
  }

  lemma ReadWidthShift(p: Text, b: Text, c: Cursor, memory: Memory)
    requires c.at < |b| && SourceOk(c.source)
    ensures ReadWidth(p + b, c.(at := |p| + c.at), memory) == Shifted(ReadWidth(b, c, memory), |p|)
  {
    hide ReadDecimals, WithWidth, Slot;
    ReadDecimalsShift(p, b, c.at);
  }

  lemma ReadPrecisionShift(p: Text, b: Text, c: Cursor, memory: Memory)
    requires c.at < |b| && SourceOk(c.source)
    ensures ReadPrecision(p + b, c.(at := |p| + c.at), memory) == Shifted(ReadPrecision(b, c, memory), |p|)
  {
    hide ReadDecimals, Slot;
    ReadDecimalsShift(p, b, c.at + 1);
  }

  lemma ReadAfterWidthShift(p: Text, b: Text, c: Cursor, memory: Memory)
    requires c.at < |b| && SourceOk(c.source)
    ensures ReadAfterWidth(p + b, c.(at := |p| + c.at), memory) == Shifted(ReadAfterWidth(b, c, memory), |p|)
  {
    hide ReadSizes, Number, Slot, DecimalEnd;
    ReadPrecisionShift(p, b, c, memory);
    var c3 := ReadPrecision(b, c, memory);
    if c3.Some? { ReadSizesShift(p, b, c3.value); }
  }

  lemma ReadAfterFlagsShift(p: Text, b: Text, c: Cursor, memory: Memory)
    requires c.at < |b| && SourceOk(c.source)
    ensures ReadAfterFlags(p + b, c.(at := |p| + c.at), memory) == Shifted(ReadAfterFlags(b, c, memory), |p|)
  {
    hide ReadAfterWidth, Number, Slot, WithWidth, DecimalEnd;
    ReadWidthShift(p, b, c, memory);
    var c2 := ReadWidth(b, c, memory);
    if c2.Some? { ReadAfterWidthShift(p, b, c2.value, memory); }
  }

  lemma ReadDirectiveShift(p: Text, b: Text, i: nat, source: Source, memory: Memory)
    requires i < |b| && SourceOk(source)
    ensures ReadDirective(p + b, |p| + i, source, memory) == Shifted(ReadDirective(b, i, source, memory), |p|)
  {
    hide ReadAfterFlags, FlagEnd;
    var c0 := Cursor(PLAIN, i, source);
    ReadFlagsShift(p, b, c0);
    var c1 := ReadFlags(b, c0);
    if c1.Some? { ReadAfterFlagsShift(p, b, c1.value, memory); }
  }

  /** A format that starts further on formats the same. */
  lemma {:induction false} FormattedShift(p: Text, b: Text, i: nat, out: Text,
                                        source: Source, memory: Memory, wide: bool, host: Host)
    requires i <= |b| && SourceOk(source)
    ensures Formatted(p + b, |p| + i, out, source, memory, wide, host)
         == Formatted(b, i, out, source, memory, wide, host)
    decreases |b| - i
  {
    hide ReadDirective, AfterDirective, Representable;
    if i == |b| {
    } else if b[i] != '%' as nat {
      FormattedShift(p, b, i + 1, out + [b[i]], source, memory, wide, host);
    } else if i + 1 == |b| {
    } else if b[i + 1] == '%' as nat {
      FormattedShift(p, b, i + 2, out + ['%' as nat], source, memory, wide, host);
    } else {
      ReadDirectiveShift(p, b, i + 1, source, memory);
      var c := ReadDirective(b, i + 1, source, memory);
      if c.Some? && c.value.spec.width <= MAX_WIDTH {
        var r := AfterDirective(c.value, b[c.value.at], out, memory, wide, host);
        SameDirective(c.value, |p| + c.value.at, b[c.value.at], out, memory, wide, host);
        if r.Some? {
          FormattedShift(p, b, c.value.at + 1, r.value.0, Next(c.value.source), r.value.1, wide, host);
        }
      }
    }
  }

  /** Formats compose: when the first succeeds, the two written one after the other do
      what the second does from where the first left off, with the arguments, memory and
      output it left. */
  lemma {:induction false} FormatsCompose(a: Text, b: Text, i: nat, out: Text,
                                        source: Source, memory: Memory, wide: bool, host: Host)
    requires i <= |a| && SourceOk(source) && Formatted(a, i, out, source, memory, wide, host).Done?
    ensures var first := Formatted(a, i, out, source, memory, wide, host);
      SourceOk(first.source) &&
      Formatted(a + b, i, out, source, memory, wide, host)
      == Formatted(b, 0, first.text, first.source, first.memory, wide, host)
    decreases |a| - i
  {
    hide ReadDirective, AfterDirective;
    if i == |a| {
      FormattedShift(a, b, 0, out, source, memory, wide, host);
    } else if a[i] != '%' as nat {
      FormatsCompose(a, b, i + 1, out + [a[i]], source, memory, wide, host);
    } else if a[i + 1] == '%' as nat {
      FormatsCompose(a, b, i + 2, out + ['%' as nat], source, memory, wide, host);
    } else {
      var c := ReadDirective(a, i + 1, source, memory).value;
      var r := AfterDirective(c, a[c.at], out, memory, wide, host).value;
      KnownIsSettled(c, a[c.at], out, memory, wide, host);
      ReadDirectiveLocal(a, b, i + 1, source, memory);
      FormatsCompose(a, b, c.at + 1, r.0, Next(c.source), r.1, wide, host);
    }
  }

  lemma KnownIsSettled(c: Cursor, conversion: nat, out: Text, memory: Memory, wide: bool, host: Host)
    requires SourceOk(c.source) && AfterDirective(c, conversion, out, memory, wide, host).Some?
    ensures Settled(conversion) && IsConversion(conversion)
  {
  }

  // ---------------------------------------------------- directives by their grammar

  datatype Quantity = Absent | Star | Count(digits: string)

  datatype Size = H | L1 | L2 | W | Upper | I1 | I64 | I32

  /** A directive as it is written: its flags in any order and number, width, precision
      (with its point), size prefixes and conversion. */
  datatype Directive = Directive(
    flags: Text, width: Quantity, precision: Option<Quantity>, sizes: seq<Size>, conversion: nat)

  function QuantityText(q: Quantity): Text {
    match q
    case Absent => []
    case Star => ['*' as nat]
    case Count(digits) => Ascii(digits)
  }

  function SizeName(s: Size): (t: Text)
    ensures 1 <= |t| <= 3
  {
    match s
    case H => ['h' as nat]
    case L1 => ['l' as nat]
    case L2 => ['l' as nat, 'l' as nat]
    case W => ['w' as nat]
    case Upper => ['L' as nat]
    case I1 => ['I' as nat]
    case I64 => ['I' as nat, '6' as nat, '4' as nat]
    case I32 => ['I' as nat, '3' as nat, '2' as nat]
  }

  function SizesText(sizes: seq<Size>): Text {
    if sizes == [] then [] else SizeName(sizes[0]) + SizesText(sizes[1..])
  }

  /** What is written after the percent sign. */
  function DirectiveText(d: Directive): Text {
    d.flags + (QuantityText(d.width) + (PrecisionText(d.precision) + (SizesText(d.sizes) + [d.conversion])))
  }

  function PrecisionText(p: Option<Quantity>): Text {
    if p.None? then [] else ['.' as nat] + QuantityText(p.value)
  }

  function SizeMeaning(spec: Spec, s: Size): Spec {
    spec.(isShort := spec.isShort || s.H?, isLong := spec.isLong || s.L1?, isWide := spec.isWide || s.W?,
          isLongLong := spec.isLongLong || s.L2? || s.I64?)
  }

  function SizesMeaning(spec: Spec, sizes: seq<Size>): Spec
    decreases |sizes|
  {
    if sizes == [] then spec else SizesMeaning(SizeMeaning(spec, sizes[0]), sizes[1..])
  }

  /** The specification and arguments a directive stands for. */
  function WidthMeaning(c: Cursor, w: Quantity, memory: Memory): (r: Cursor)
    requires SourceOk(c.source)
    ensures SourceOk(r.source)
  {
    match w
    case Absent => c.(spec := c.spec.(width := 0))
    case Star => c.(spec := WithWidth(c.spec, ToInt32(Slot(c.source, memory))), source := Next(c.source))
    case Count(digits) => c.(spec := c.spec.(width := Number(digits, 10)))
  }

  function PrecisionMeaning(c: Cursor, p: Option<Quantity>, memory: Memory): (r: Cursor)
    requires SourceOk(c.source)
    ensures SourceOk(r.source)
  {
    if p.None? then c
    else
      match p.value
      case Absent => c.(spec := c.spec.(precision := 0))
      case Star =>
        var v := ToInt32(Slot(c.source, memory));
        c.(spec := c.spec.(precision := if v < 0 then -1 else v), source := Next(c.source))
      case Count(digits) => c.(spec := c.spec.(precision := Number(digits, 10)))
  }

  function Meaning(d: Directive, source: Source, memory: Memory): Cursor
    requires SourceOk(source)
  {
    var c1 := Cursor(WithFlags(PLAIN, d.flags), 0, source);
    var c2 := WidthMeaning(c1, d.width, memory);
    var c3 := PrecisionMeaning(c2, d.precision, memory);
    c3.(spec := SizesMeaning(c3.spec, d.sizes), at := |DirectiveText(d)| - 1)
  }

  predicate CountOk(q: Quantity) {
    q.Count? ==> q.digits != [] && AllDigits(q.digits, 10) && Number(q.digits, 10) <= MAX_WIDTH
  }

  /** Anything that is no flag, digit, point, star or size letter can be a conversion. */
  predicate IsConversion(u: nat) {
    !IsFlag(u) && !IsDecimal(u) && u != '.' as nat && u != '*' as nat && !IsSizeLetter(u)
  }

  predicate IsSizeLetter(u: nat) {
    u == 'l' as nat || u == 'h' as nat || u == 'w' as nat || u == 'L' as nat || u == 'I' as nat
  }

  /** A width starts with no zero, which would be a flag, and two single `l` do not meet,
      which would be one `ll`. */
  predicate DirectiveOk(d: Directive) {
    && (forall i :: 0 <= i < |d.flags| ==> IsFlag(d.flags[i]))
    && CountOk(d.width) && (d.width.Count? ==> d.width.digits[0] != '0')
    && (d.precision.Some? ==> CountOk(d.precision.value))
    && SizesOk(d.sizes) && IsConversion(d.conversion)
  }

  predicate SizesOk(sizes: seq<Size>) {
    forall i :: 0 < i < |sizes| && sizes[i - 1].L1? ==> !sizes[i].L1? && !sizes[i].L2?
  }

  lemma {:induction false} FlagEndOf(flags: Text, rest: Text, i: nat)
    requires i <= |flags| && (forall k :: 0 <= k < |flags| ==> IsFlag(flags[k]))
    requires rest != [] && !IsFlag(rest[0])
    ensures FlagEnd(flags + rest, i) == |flags|
    decreases |flags| - i
  {
    if i < |flags| { FlagEndOf(flags, rest, i + 1); }
  }

  lemma {:induction false} DecimalEndOf(before: Text, digits: Text, rest: Text, i: nat)
    requires |before| <= i <= |before| + |digits| && (forall k :: 0 <= k < |digits| ==> IsDecimal(digits[k]))
    requires rest != [] && !IsDecimal(rest[0])
    ensures DecimalEnd(before + digits + rest, i) == |before| + |digits|
    decreases |before| + |digits| - i
  {
    if i < |before| + |digits| { DecimalEndOf(before, digits, rest, i + 1); }
  }

  lemma DecimalsAscii(digits: string)
    requires AllDigits(digits, 10)
    ensures forall k :: 0 <= k < |digits| ==> IsDecimal(Ascii(digits)[k])
    ensures Plain(Ascii(digits)) == digits
  {
  }

  /** Size prefixes are read one by one. */
  lemma {:induction false} ReadSizesOf(before: Text, sizes: seq<Size>, conversion: nat, rest: Text, c: Cursor)
    requires SizesOk(sizes) && IsConversion(conversion) && c.at == |before|
    ensures var end := |before| + |SizesText(sizes)|;
      ReadSizes(before + (SizesText(sizes) + ([conversion] + rest)), c)
      == Some(Cursor(SizesMeaning(c.spec, sizes), end, c.source))
    decreases |sizes|
  {
    hide SizeMeaning, WithSize, SizeName;
    var tail := [conversion] + rest;
    var fmt := before + (SizesText(sizes) + tail);
    if sizes == [] {
      assert SizesText(sizes) + tail == tail;
      assert fmt[c.at] == conversion;
    } else {
      var name, more := SizeName(sizes[0]), SizesText(sizes[1..]);
      var c' := c.(spec := SizeMeaning(c.spec, sizes[0]), at := |before| + |name|);
      assert fmt == (before + name) + (more + tail);
      FirstLetter(sizes[1..], conversion, rest);
      OneSize(before, sizes[0], more + tail, c.spec);
      assert SizesOk(sizes[1..]);
      ReadSizesOf(before + name, sizes[1..], conversion, rest, c');
    }
  }

  /** What can follow a size prefix: another, or the conversion. */
  lemma FirstLetter(sizes: seq<Size>, conversion: nat, rest: Text)
    requires IsConversion(conversion)
    ensures var t := SizesText(sizes) + ([conversion] + rest);
      && t != [] && t[0] != '6' as nat && t[0] != '3' as nat
      && (t[0] == 'l' as nat ==> sizes != [] && (sizes[0].L1? || sizes[0].L2?))
  {
  }

  lemma OneSize(before: Text, s: Size, tail: Text, spec: Spec)
    requires tail != [] && tail[0] != '6' as nat && tail[0] != '3' as nat && (s.L1? ==> tail[0] != 'l' as nat)
    ensures var fmt := (before + SizeName(s)) + tail;
      && fmt[|before|] == SizeName(s)[0]
      && SizeLength(fmt, |before|) == |SizeName(s)| && WithSize(spec, fmt, |before|) == SizeMeaning(spec, s)
  {
  }

  /** A unit that ends flags and digits and starts no point or star. */
  predicate EndsCounts(u: nat) {
    !IsFlag(u) && !IsDecimal(u) && u != '*' as nat
  }

  lemma FirstOfSizes(sizes: seq<Size>, conversion: nat, rest: Text)
    requires IsConversion(conversion)
    ensures var t := SizesText(sizes) + ([conversion] + rest);
      t != [] && EndsCounts(t[0]) && t[0] != '.' as nat
  {
  }

  lemma ReadFlagsOf(flags: Text, tail: Text, source: Source)
    requires forall i :: 0 <= i < |flags| ==> IsFlag(flags[i])
    requires tail != [] && !IsFlag(tail[0])
    ensures ReadFlags(flags + tail, Cursor(PLAIN, 0, source))
         == Some(Cursor(WithFlags(PLAIN, flags), |flags|, source))
  {
    FlagEndOf(flags, tail, 0);
    assert (flags + tail)[0..|flags|] == flags;
  }

  lemma DecimalsAre(fmt: Text, i: nat, j: nat, digits: string)
    requires i <= j < |fmt| && DecimalEnd(fmt, i) == j && fmt[i..j] == Ascii(digits) && Plain(Ascii(digits)) == digits
    requires Number(digits, 10) <= MAX_WIDTH
    ensures ReadDecimals(fmt, i) == Some((Number(digits, 10), j))
  {
    hide Number, DecimalEnd, Ascii, Plain;
  }

  /** A run of digits between other text is read as its number. */
  lemma ReadDecimalsOf(before: Text, digits: string, tail: Text)
    requires AllDigits(digits, 10) && Number(digits, 10) <= MAX_WIDTH && tail != [] && EndsCounts(tail[0])
    ensures ReadDecimals(before + Ascii(digits) + tail, |before|) == Some((Number(digits, 10), |before| + |digits|))
    ensures (before + Ascii(digits) + tail)[|before|] != '*' as nat
  {
    hide Number, AllDigits, DecimalEnd, Ascii, Plain, EndsCounts, IsDecimal, ReadDecimals;
    DecimalsAscii(digits);
    Middle(before, Ascii(digits), tail);
    NotStar(Ascii(digits), tail);
    EndsAreNotDecimal(tail[0]);
    DecimalEndOf(before, Ascii(digits), tail, |before|);
    DecimalsAre(before + Ascii(digits) + tail, |before|, |before| + |digits|, digits);
  }

  lemma ReadWidthOf(before: Text, w: Quantity, tail: Text, c: Cursor, memory: Memory)
    requires CountOk(w) && tail != [] && EndsCounts(tail[0]) && c.at == |before| && SourceOk(c.source)
    ensures ReadWidth(before + (QuantityText(w) + tail), c, memory)
         == Some(WidthMeaning(c, w, memory).(at := |before| + |QuantityText(w)|))
  {
    hide Number, Slot, WithWidth, AllDigits, ToInt32, ReadDecimals, EndsCounts, Ascii;
    var text := QuantityText(w);
    var fmt := before + (text + tail);
    assert fmt == before + text + tail;
    match w
    case Star => assert fmt[c.at] == '*' as nat;
    case Absent =>
      NumberOfNothing();
      ReadDecimalsOf(before, "", tail);
      assert Ascii("") == [];
    case Count(digits) => ReadDecimalsOf(before, digits, tail);
  }

  lemma NumberOfNothing()
    ensures Number([], 10) == 0 && AllDigits([], 10)
  {
  }

  lemma Middle(a: Text, b: Text, c: Text)
    requires c != []
    ensures (a + b + c)[|a|..|a| + |b|] == b && (a + b + c)[|a|] == (if b == [] then c[0] else b[0])
  {
  }

  lemma ReadPrecisionDigits(before: Text, digits: string, tail: Text, c: Cursor, memory: Memory)
    requires AllDigits(digits, 10) && Number(digits, 10) <= MAX_WIDTH
    requires tail != [] && EndsCounts(tail[0]) && c.at == |before| && SourceOk(c.source)
    ensures ReadPrecision(before + ['.' as nat] + Ascii(digits) + tail, c, memory)
         == Some(c.(spec := c.spec.(precision := Number(digits, 10)), at := |before| + 1 + |digits|))
  {
    hide Number, Slot, ToInt32, AllDigits, Ascii, EndsCounts, ReadDecimals;
    var point := before + ['.' as nat];
    ReadDecimalsOf(point, digits, tail);
    assert (point + Ascii(digits) + tail)[c.at] == point[c.at];
  }

  lemma NotStar(text: Text, tail: Text)
    requires tail != [] && EndsCounts(tail[0]) && forall k :: 0 <= k < |text| ==> IsDecimal(text[k])
    ensures (if text == [] then tail[0] else text[0]) != '*' as nat
  {
  }

  lemma EndsAreNotDecimal(u: nat)
    requires EndsCounts(u)
    ensures !IsDecimal(u)
  {
  }

  lemma ReadPrecisionStar(before: Text, tail: Text, c: Cursor, memory: Memory)
    requires tail != [] && c.at == |before| && SourceOk(c.source)
    ensures ReadPrecision(before + ['.' as nat] + ['*' as nat] + tail, c, memory)
         == Some(PrecisionMeaning(c, Some(Star), memory).(at := |before| + 2))
  {
  }

  lemma ReadPrecisionOf(before: Text, p: Option<Quantity>, tail: Text, c: Cursor, memory: Memory)
    requires (p.Some? ==> CountOk(p.value)) && tail != [] && EndsCounts(tail[0]) && tail[0] != '.' as nat
    requires c.at == |before| && SourceOk(c.source)
    ensures ReadPrecision(before + (PrecisionText(p) + tail), c, memory)
         == Some(PrecisionMeaning(c, p, memory).(at := |before| + |PrecisionText(p)|))
  {
    hide Number, Slot, AllDigits, ToInt32, ReadPrecision, EndsCounts, Ascii;
    var fmt := before + (PrecisionText(p) + tail);
    if p.None? {
      assert fmt[c.at] == tail[0];
      NoPrecision(fmt, c, memory);
    } else {
      assert fmt == before + ['.' as nat] + QuantityText(p.value) + tail;
      match p.value
      case Star => ReadPrecisionStar(before, tail, c, memory);
      case Absent =>
        NumberOfNothing();
        ReadPrecisionDigits(before, "", tail, c, memory);
        assert Ascii("") == [];
      case Count(digits) => ReadPrecisionDigits(before, digits, tail, c, memory);
    }
  }

  lemma NoPrecision(fmt: Text, c: Cursor, memory: Memory)
    requires c.at < |fmt| && SourceOk(c.source) && fmt[c.at] != '.' as nat
    ensures ReadPrecision(fmt, c, memory) == Some(c)
  {
  }

  /** Meanings do not depend on where the directive stands. */
  lemma MeaningMoves(c: Cursor, w: Quantity, p: Option<Quantity>, memory: Memory, at: nat, at': nat)
    requires SourceOk(c.source)
    ensures var c2 := WidthMeaning(c, w, memory);
      PrecisionMeaning(WidthMeaning(c.(at := at), w, memory).(at := at'), p, memory)
      == PrecisionMeaning(c2, p, memory).(at := at')
  {
  }

  /** Every directive the grammar allows is read as what it means, up to its conversion,
      whatever follows it. */
  lemma ReadDirectiveOf(d: Directive, rest: Text, source: Source, memory: Memory)
    requires DirectiveOk(d) && SourceOk(source)
    ensures ReadDirective(DirectiveText(d) + rest, 0, source, memory) == Some(Meaning(d, source, memory))
  {
    hide ReadFlags, ReadWidth, ReadPrecision, ReadSizes, WidthMeaning, PrecisionMeaning,
      SizesMeaning, Number, WithFlags, SizesText;
    var w, p := QuantityText(d.width), PrecisionText(d.precision);
    var c1 := Cursor(WithFlags(PLAIN, d.flags), |d.flags|, source);
    var sizes := SizesText(d.sizes) + ([d.conversion] + rest);
    var precision := p + sizes;
    var width := w + precision;
    var fmt := DirectiveText(d) + rest;
    FirstOfSizes(d.sizes, d.conversion, rest);
    assert precision[0] == if p == [] then sizes[0] else '.' as nat;
    if d.width.Count? { DecimalsAscii(d.width.digits); }
    assert !IsFlag(width[0]) by { FirstOfWidth(d.width, precision); }
    assert fmt == d.flags + width;
    ReadFlagsOf(d.flags, width, source);
    ReadWidthOf(d.flags, d.width, precision, c1, memory);
    var c2 := ReadWidth(fmt, c1, memory).value;
    MeaningMoves(c1.(at := 0), d.width, d.precision, memory, c1.at, c2.at);
    assert fmt == (d.flags + w) + precision;
    ReadPrecisionOf(d.flags + w, d.precision, sizes, c2, memory);
    var c3 := ReadPrecision(fmt, c2, memory).value;
    assert fmt == (d.flags + w + p) + sizes;
    ReadSizesOf(d.flags + w + p, d.sizes, d.conversion, rest, c3);
  }

  lemma FirstOfWidth(w: Quantity, tail: Text)
    requires CountOk(w) && (w.Count? ==> w.digits[0] != '0') && tail != [] && EndsCounts(tail[0])
    ensures !IsFlag((QuantityText(w) + tail)[0])
  {
  }

  const PERCENT: nat := '%' as nat

  /** After any format that succeeds, one more directive appends exactly the padded field
      of what it means, and takes the arguments it names. */
  lemma DirectiveField(a: Text, d: Directive, out: Text, source: Source, memory: Memory, wide: bool, host: Host)
    requires SourceOk(source) && Formatted(a, 0, out, source, memory, wide, host).Done?
    requires DirectiveOk(d) && d.conversion != PERCENT
    ensures var first := Formatted(a, 0, out, source, memory, wide, host);
      SourceOk(first.source) &&
      var c := Meaning(d, first.source, first.memory);
      var r := AfterDirective(c, d.conversion, first.text, first.memory, wide, host);
      Formatted(a + ([PERCENT] + DirectiveText(d)), 0, out, source, memory, wide, host)
      == if c.spec.width > MAX_WIDTH || r.None? then Failed(first.memory)
         else Done(r.value.0, r.value.1, Next(c.source))
  {
    hide Meaning, DirectiveText, AfterDirective, ReadDirective;
    FormatsCompose(a, [PERCENT] + DirectiveText(d), 0, out, source, memory, wide, host);
    var first := Formatted(a, 0, out, source, memory, wide, host);
    OneDirective(d, first.text, first.source, first.memory, wide, host);
  }

  lemma OneDirective(d: Directive, out: Text, source: Source, memory: Memory, wide: bool, host: Host)
    requires SourceOk(source) && DirectiveOk(d) && d.conversion != PERCENT
    ensures SourceOk(Meaning(d, source, memory).source)
    ensures var c := Meaning(d, source, memory);
      var r := AfterDirective(c, d.conversion, out, memory, wide, host);
      Formatted([PERCENT] + DirectiveText(d), 0, out, source, memory, wide, host)
      == if c.spec.width > MAX_WIDTH || r.None? then Failed(memory)
         else Done(r.value.0, r.value.1, Next(c.source))
  {
    hide DirectiveText, AfterDirective, ReadDirective, WithFlags, WidthMeaning, PrecisionMeaning, SizesMeaning;
    var text := DirectiveText(d);
    var fmt, c := [PERCENT] + text, Meaning(d, source, memory);
    DirectiveEnds(d);
    ReadDirectiveOf(d, [], source, memory);
    assert text + [] == text;
    ReadDirectiveShift([PERCENT], text, 0, source, memory);
    var at := c.(at := c.at + 1);
    assert ReadDirective(fmt, 1, source, memory) == Some(at);
    SameDirective(c, at.at, d.conversion, out, memory, wide, host);
    assert fmt[at.at] == d.conversion && at.at + 1 == |fmt|;
    assert fmt[1] == text[0];
  }

  lemma DirectiveEnds(d: Directive)
    requires DirectiveOk(d) && d.conversion != PERCENT
    ensures var t := DirectiveText(d); t != [] && t[|t| - 1] == d.conversion && t[0] != PERCENT
  {
  }

  lemma SameDirective(c: Cursor, at: nat, conversion: nat, out: Text, memory: Memory, wide: bool, host: Host)
    requires SourceOk(c.source)
    ensures AfterDirective(c.(at := at), conversion, out, memory, wide, host)
         == AfterDirective(c, conversion, out, memory, wide, host)
  {
  }

  /** How far an address lies past another, around the address space. */
  function Past(a: nat, from: nat): nat
    requires a < TWO_32 && from < TWO_32
  {
    (a + TWO_32 - from) % TWO_32
  }

  lemma NotWithin(a: nat, pointer: nat, n: nat, k: nat)
    requires a < TWO_32 && pointer < TWO_32 && k < n <= 4 && Past(a, pointer) >= n
    ensures a % TWO_32 != (pointer + k) % TWO_32
  {
  }

  /** What a count directive stores reads back as the number of units produced before it,
      in the 32 or 16 bits it writes, and no other byte of memory changes. */
  lemma StoredCount(c: Cursor, out: Text, memory: Memory, wide: bool, host: Host)
    requires SourceOk(c.source)
    ensures var pointer := Slot(c.source, memory) % TWO_32;
      var r := AfterDirective(c, 'n' as nat, out, memory, wide, host);
      && r.Some? && r.value.0 == out
      && (if c.spec.isShort then Read16(r.value.1, pointer) == |out| % TWO_16
          else Read32(r.value.1, pointer) == |out| % TWO_32)
      && forall a: nat :: a < TWO_32 && Past(a, pointer) >= (if c.spec.isShort then 2 else 4)
           ==> Read8(r.value.1, a) == Read8(memory, a)
  {
    hide Write16, Write32, Read8, Read16, Read32, Slot, Past, Convert;
    var pointer := Slot(c.source, memory) % TWO_32;
    var n := if c.spec.isShort then 2 else 4;
    var r := AfterDirective(c, 'n' as nat, out, memory, wide, host).value.1;
    if c.spec.isShort { Written16(memory, pointer, |out|); } else { Written32(memory, pointer, |out|); }
    forall a: nat | a < TWO_32 && Past(a, pointer) >= n ensures Read8(r, a) == Read8(memory, a) {
      NotWithin(a, pointer, n, 0);
      NotWithin(a, pointer, n, 1);
      if n == 4 {
        NotWithin(a, pointer, n, 2);
        NotWithin(a, pointer, n, 3);
      }
    }
  }

  // ------------------------------------------- and nothing but the grammar is read

  function SizeAt(fmt: Text, i: nat): Size
    requires i < |fmt|
  {
    if fmt[i] == 'l' as nat then (if At(fmt, i + 1) == 'l' as nat then L2 else L1)
    else if fmt[i] == 'h' as nat then H
    else if fmt[i] == 'w' as nat then W
    else if fmt[i] == 'I' as nat then
      if At(fmt, i + 1) == '6' as nat && At(fmt, i + 2) == '4' as nat then I64
      else if At(fmt, i + 1) == '3' as nat && At(fmt, i + 2) == '2' as nat then I32
      else I1
    else Upper
  }

  lemma SizeAtIs(fmt: Text, i: nat, spec: Spec)
    requires i < |fmt| && 0 < SizeLength(fmt, i) && i + SizeLength(fmt, i) <= |fmt|
    ensures SizeName(SizeAt(fmt, i)) == fmt[i..i + SizeLength(fmt, i)]
    ensures SizeMeaning(spec, SizeAt(fmt, i)) == WithSize(spec, fmt, i)
  {
    hide SizeName, SizeMeaning, SizeAt, WithSize, SizeLength;
    SizeNameAt(fmt, i);
    SizeMeaningAt(fmt, i, spec);
  }

  lemma SizeNameAt(fmt: Text, i: nat)
    requires i < |fmt| && 0 < SizeLength(fmt, i) && i + SizeLength(fmt, i) <= |fmt|
    ensures SizeName(SizeAt(fmt, i)) == fmt[i..i + SizeLength(fmt, i)]
  {
  }

  lemma SizeMeaningAt(fmt: Text, i: nat, spec: Spec)
    requires i < |fmt| && 0 < SizeLength(fmt, i)
    ensures SizeMeaning(spec, SizeAt(fmt, i)) == WithSize(spec, fmt, i)
  {
  }

  function SizesFrom(fmt: Text, i: nat): seq<Size>
    requires i < |fmt|
    decreases |fmt| - i
  {
    var n := SizeLength(fmt, i);
    if n == 0 || i + n >= |fmt| then [] else [SizeAt(fmt, i)] + SizesFrom(fmt, i + n)
  }

  lemma {:induction false} SizesBack(fmt: Text, c: Cursor)
    requires c.at < |fmt| && ReadSizes(fmt, c).Some?
    ensures var sizes, r := SizesFrom(fmt, c.at), ReadSizes(fmt, c).value;
      && fmt[c.at..r.at] == SizesText(sizes) && r.spec == SizesMeaning(c.spec, sizes) && r.source == c.source
      && SizesOk(sizes) && SizeLength(fmt, r.at) == 0
    decreases |fmt| - c.at
  {
    hide SizeAt, SizeLength, WithSize, SizeMeaning, SizeName;
    var n := SizeLength(fmt, c.at);
    if n != 0 {
      var next := c.(spec := WithSize(c.spec, fmt, c.at), at := c.at + n);
      SizesBack(fmt, next);
      SizeAtIs(fmt, c.at, c.spec);
      var r, rest := ReadSizes(fmt, c).value, SizesFrom(fmt, next.at);
      assert fmt[c.at..r.at] == fmt[c.at..next.at] + fmt[next.at..r.at];
      var sizes := SizesFrom(fmt, c.at);
      assert sizes == [SizeAt(fmt, c.at)] + rest && sizes[1..] == rest;
      if SizeAt(fmt, c.at).L1? { SingleThenOther(fmt, c.at); }
      forall i | 0 < i < |sizes| && sizes[i - 1].L1? ensures !sizes[i].L1? && !sizes[i].L2? {
        if i > 1 { assert rest[i - 2].L1?; }
      }
    }
  }

  /** After a single `l` comes no other. */
  lemma SingleThenOther(fmt: Text, i: nat)
    requires i < |fmt| && 0 < SizeLength(fmt, i) && i + SizeLength(fmt, i) < |fmt|
    requires SizeAt(fmt, i).L1?
    ensures var rest := SizesFrom(fmt, i + SizeLength(fmt, i)); rest != [] ==> !rest[0].L1? && !rest[0].L2?
  {
  }

  lemma {:induction false} FlagEndIs(fmt: Text, i: nat)
    requires i <= |fmt|
    ensures forall k :: i <= k < FlagEnd(fmt, i) ==> IsFlag(fmt[k])
    ensures FlagEnd(fmt, i) < |fmt| ==> !IsFlag(fmt[FlagEnd(fmt, i)])
    decreases |fmt| - i
  {
    if i < |fmt| && IsFlag(fmt[i]) { FlagEndIs(fmt, i + 1); }
  }

  lemma {:induction false} DecimalEndIs(fmt: Text, i: nat)
    requires i <= |fmt|
    ensures forall k :: i <= k < DecimalEnd(fmt, i) ==> IsDecimal(fmt[k])
    decreases |fmt| - i
  {
    if i < |fmt| && IsDecimal(fmt[i]) { DecimalEndIs(fmt, i + 1); }
  }

  /** A run of digits as a quantity. */
  function CountOf(digits: Text): Quantity {
    if digits == [] then Absent else Count(Plain(digits))
  }

  lemma CountOfDigits(digits: Text)
    requires forall k :: 0 <= k < |digits| ==> IsDecimal(digits[k])
    ensures AllDigits(Plain(digits), 10) && QuantityText(CountOf(digits)) == digits
    ensures digits != [] ==> Plain(digits)[0] as nat == digits[0]
  {
  }

  lemma ReadWidthBack(fmt: Text, c: Cursor, memory: Memory) returns (w: Quantity)
    requires c.at < |fmt| && SourceOk(c.source) && ReadWidth(fmt, c, memory).Some? && !IsFlag(fmt[c.at])
    ensures var r := ReadWidth(fmt, c, memory).value;
      && CountOk(w) && (w.Count? ==> w.digits[0] != '0')
      && c.at <= r.at < |fmt| && fmt[c.at..r.at] == QuantityText(w) && r == WidthMeaning(c, w, memory).(at := r.at)
  {
    hide ReadDecimals, WithWidth, Slot, ToInt32, AllDigits;
    if fmt[c.at] == '*' as nat {
      w := Star;
    } else {
      w := ReadDecimalsBack(fmt, c.at);
    }
  }

  /** The quantity a run of digits is. */
  lemma ReadDecimalsBack(fmt: Text, i: nat) returns (q: Quantity)
    requires i < |fmt| && ReadDecimals(fmt, i).Some?
    ensures var (n, j) := ReadDecimals(fmt, i).value;
      && i <= j < |fmt| && fmt[i..j] == QuantityText(q) && CountOk(q) && !q.Star?
      && (q.Count? ==> Number(q.digits, 10) == n && q.digits[0] as nat == fmt[i]) && (q.Absent? ==> n == 0)
  {
    hide Number, Plain;
    var digits := fmt[i..DecimalEnd(fmt, i)];
    DecimalEndIs(fmt, i);
    CountOfDigits(digits);
    NoDigits();
    q := CountOf(digits);
  }

  lemma NoDigits()
    ensures Number(Plain([]), 10) == 0
  {
  }

  lemma ReadPrecisionBack(fmt: Text, c: Cursor, memory: Memory) returns (p: Option<Quantity>)
    requires c.at < |fmt| && SourceOk(c.source) && ReadPrecision(fmt, c, memory).Some?
    ensures var r := ReadPrecision(fmt, c, memory).value;
      && (p.Some? ==> CountOk(p.value))
      && c.at <= r.at < |fmt| && fmt[c.at..r.at] == PrecisionText(p) && r == PrecisionMeaning(c, p, memory).(at := r.at)
  {
    hide ReadDecimals, Slot, ToInt32, AllDigits;
    if fmt[c.at] != '.' as nat {
      p := None;
    } else if fmt[c.at + 1] == '*' as nat {
      p := Some(Star);
    } else {
      var r := ReadPrecision(fmt, c, memory).value;
      var q := ReadDecimalsBack(fmt, c.at + 1);
      p := Some(q);
      assert fmt[c.at..r.at] == ['.' as nat] + fmt[c.at + 1..r.at];
    }
  }

  /** Whatever is read as a directive up to a conversion is written as the grammar says and
      means what it was read as. */
  lemma ReadDirectiveBack(fmt: Text, i: nat, source: Source, memory: Memory) returns (d: Directive)
    requires i < |fmt| && SourceOk(source) && ReadDirective(fmt, i, source, memory).Some?
    requires IsConversion(fmt[ReadDirective(fmt, i, source, memory).value.at])
    ensures var c := ReadDirective(fmt, i, source, memory).value;
      DirectiveOk(d) && fmt[i..c.at + 1] == DirectiveText(d) && c == Meaning(d, source, memory).(at := c.at)
  {
    hide ReadWidth, ReadPrecision, ReadSizes, WidthMeaning, PrecisionMeaning,
      SizesMeaning, WithFlags, SizesText, CountOk, IsConversion;
    var c := ReadDirective(fmt, i, source, memory).value;
    var c1 := ReadFlags(fmt, Cursor(PLAIN, i, source)).value;
    FlagEndIs(fmt, i);
    var c2 := ReadWidth(fmt, c1, memory).value;
    var w := ReadWidthBack(fmt, c1, memory);
    var c3 := ReadPrecision(fmt, c2, memory).value;
    var p := ReadPrecisionBack(fmt, c2, memory);
    SizesBack(fmt, c3);
    d := Directive(fmt[i..c1.at], w, p, SizesFrom(fmt, c3.at), fmt[c.at]);
    MeaningMoves(c1.(at := 0), w, p, memory, c1.at, c2.at);
    Pieces(fmt, i, c1.at, c2.at, c3.at, c.at);
  }

  lemma Pieces(fmt: Text, a: nat, b: nat, c: nat, d: nat, e: nat)
    requires a <= b <= c <= d <= e < |fmt|
    ensures fmt[a..e + 1] == fmt[a..b] + (fmt[b..c] + (fmt[c..d] + (fmt[d..e] + [fmt[e]])))
  {
    assert fmt[d..e + 1] == fmt[d..e] + [fmt[e]];
    assert fmt[c..e + 1] == fmt[c..d] + fmt[d..e + 1];
    assert fmt[b..e + 1] == fmt[b..c] + fmt[c..e + 1];
    assert fmt[a..e + 1] == fmt[a..b] + fmt[b..e + 1];
  }

  // ------------------------------------------------------ strings and hex floats

  function UnitOf(memory: Memory, address: nat, wide: bool, i: nat): nat {
    if wide then Read16(memory, address + 2 * i) else Read8(memory, address + i)
  }

  /** A guest string is read up to its terminator or the limit, whichever comes first. */
  lemma {:induction false} GuestStringIs(memory: Memory, address: nat, wide: bool, i: nat, limit: nat)
    ensures var t := GuestString(memory, address, wide, i, limit);
      && (i + |t| <= limit || (i > limit && t == []))
      && (forall k :: 0 <= k < |t| ==> t[k] == UnitOf(memory, address, wide, i + k) && t[k] != 0)
      && (i + |t| < limit ==> UnitOf(memory, address, wide, i + |t|) == 0)
    decreases limit - i
  {
    hide Read8, Read16;
    if i < limit && UnitOf(memory, address, wide, i) != 0 {
      var t, rest := GuestString(memory, address, wide, i, limit), GuestString(memory, address, wide, i + 1, limit);
      GuestStringIs(memory, address, wide, i + 1, limit);
      forall k | 0 <= k < |t| ensures t[k] == UnitOf(memory, address, wide, i + k) && t[k] != 0 {
        if k > 0 { assert t[k] == rest[k - 1] && i + k == (i + 1) + (k - 1); }
      }
    }
  }

  function TrimEnd(t: string): string {
    if t != [] && t[|t| - 1] == ' ' then TrimEnd(t[..|t| - 1]) else t
  }

  /** Reads a hexadecimal floating constant from a field: its sign and its value. */
  function ReadHexField(t: string): Option<(bool, HexFloat.Hex)> {
    var t1 := SkipSpaces(t);
    var body := TrimEnd(if StartsSigned(t1) then t1[1..] else t1);
    var h := HexText.ParseHex(body);
    if h.None? then None else Some((t1[0] == '-', h.value))
  }

  lemma {:induction false} TrimFill(t: string, n: nat)
    requires t != [] && t[|t| - 1] != ' '
    ensures TrimEnd(t + Fill(n, ' ')) == t
  {
    var all := t + Fill(n, ' ');
    if n == 0 {
      assert all == t;
    } else {
      assert all[..|all| - 1] == t + Fill(n - 1, ' ');
      TrimFill(t, n - 1);
    }
  }

  lemma HexReads(before: nat, sign: string, body: string, after: nat)
    requires (sign == "" || sign == "-" || sign == "+") && body != [] && body[0] == '0' && body[|body| - 1] != ' '
    ensures var h := HexText.ParseHex(body);
      ReadHexField(Fill(before, ' ') + (sign + (body + Fill(after, ' '))))
      == if h.None? then None else Some((sign == "-", h.value))
  {
    hide HexText.ParseHex;
    var t2 := body + Fill(after, ' ');
    var t1 := sign + t2;
    SkipFill(before, t1);
    TrimFill(body, after);
    assert SkipSpaces(t1) == t1;
    if sign != "" { assert t1[1..] == t2; } else { assert t1 == t2; }
  }

  /** What every hexadecimal float text looks like. */
  lemma HexShape(bits: nat, precision: int, upper: bool, alt: bool)
    requires HexFloat.Finite(bits)
    ensures var t := FloatText(bits, precision, upper, alt);
      && |t| > 2 && t[0] == '0' && t[1] == (if upper then 'X' else 'x') && t[|t| - 1] != ' ' && IsAscii(t)
      && HexText.ParseHex(t) == Some(HexFloat.HexOf(bits, precision))
  {
    hide HexFloat.HexOf, HexText.Spell, HexText.ParseHex, HexFloat.Sixteen;
    HexText.HexOfOneLead(bits, precision);
    var h := HexFloat.HexOf(bits, precision);
    HexText.RenderReadsBack(h, upper, alt);
    var lead := HexText.LeadDigit(h);
    SpellShape(lead, h.significand - lead * HexFloat.Sixteen(h.digits), h.digits, h.exponent, upper, alt);
  }

  lemma SpellShape(lead: nat, fraction: nat, digits: nat, exponent: int, upper: bool, alt: bool)
    requires lead < 10
    ensures var t := HexText.Spell(lead, fraction, digits, exponent, upper, alt);
      |t| > 2 && t[0] == '0' && t[1] == (if upper then 'X' else 'x') && t[|t| - 1] != ' ' && IsAscii(t)
  {
    hide DigitsOf, DigitValue, Digit;
    var after, power := DigitsOf(fraction, 16, upper, digits), DigitsOf(HexText.Magnitude(exponent), 10, false, 1);
    DigitsReadBack(fraction, 16, upper, digits);
    DigitsReadBack(HexText.Magnitude(exponent), 10, false, 1);
    DigitsShortest(HexText.Magnitude(exponent), 10, false, 1);
    DigitsAscii(after, 16);
    DigitsAscii(power, 10);
    HexText.OneDigit(lead, upper);
    DigitsAscii([Digit(lead, upper)], 16);
    DigitIsPlain(power[|power| - 1], 10);
    var head := (if upper then "0X" else "0x") + [Digit(lead, upper)] + (if digits > 0 || alt then "." else []);
    var exponentText := HexText.ExponentText(exponent, upper);
    assert HexText.Spell(lead, fraction, digits, exponent, upper, alt) == head + after + exponentText;
    assert IsAscii(head) && IsAscii(exponentText);
    assert exponentText[|exponentText| - 1] == power[|power| - 1];
  }

  lemma HexPadded(spec: Spec, f: Field, body: string, h: HexFloat.Hex)
    requires f.prefix == "" || f.prefix == "-" || f.prefix == "+" || f.prefix == " "
    requires |body| > 2 && body[0] == '0' && body[|body| - 1] != ' ' && HexText.ParseHex(body) == Some(h)
    ensures ReadHexField(PaddedText(spec, f, false, body)) == Some((f.prefix == "-", h))
        <==> !(ZeroPads(spec, f, false) && spec.width > |f.prefix| + |body|)
  {
    hide HexText.ParseHex, ReadHexField, ZeroPads;
    var used := |body| + |f.prefix|;
    var n: nat := if spec.width > used then spec.width - used else 0;
    var (lead, sign, marker) := PrefixParts(f.prefix);
    if spec.left {
      HexReads(|lead|, sign, body, n);
      assert f.prefix + body + Fill(n, ' ') == Fill(|lead|, ' ') + (sign + (body + Fill(n, ' ')));
      LeftIsNotZero(spec, f, false);
    } else if ZeroPads(spec, f, false) {
      var all := Fill(n, '0') + body;
      HexReads(|lead|, sign, all, 0);
      assert f.prefix + Fill(n, '0') + body == Fill(|lead|, ' ') + (sign + (all + Fill(0, ' ')));
      if n > 0 { ZerosAreNoHex(n, body); } else { assert all == body; }
    } else {
      HexReads(n + |lead|, sign, body, 0);
      assert Fill(n, ' ') + f.prefix + body == Fill(n + |lead|, ' ') + (sign + (body + Fill(0, ' ')));
    }
  }

  /** A finite `%a` field reads back as its sign and its number exactly when zero padding
      added nothing: the zeros go in front of the `0x`, not behind it. */
  lemma HexFieldReadsBack(spec: Spec, raw: nat, conversion: nat, host: Host)
    requires conversion == 'a' as nat || conversion == 'A' as nat
    requires HexFloat.Finite(raw % TWO_63)
    ensures var f := FloatField(spec, raw, conversion, host);
      var precision := if spec.precision < 0 then -1 else Min(spec.precision, MAX_PRECISION);
      ReadHexField(Plain(Padded(spec, f, false)))
      == Some((raw % TWO_64 >= TWO_63, HexFloat.HexOf(raw % TWO_63, precision)))
      <==> !(ZeroPads(spec, f, false) && spec.width > |f.prefix| + |f.body|)
  {
    hide HexFloat.HexOf, HexText.ParseHex, FloatText, ReadHexField, Padded, PaddedText, ZeroPads;
    var f, bits := FloatField(spec, raw, conversion, host), raw % TWO_63;
    var precision := if spec.precision < 0 then -1 else Min(spec.precision, MAX_PRECISION);
    var body := FloatText(bits, precision, conversion == 'A' as nat, spec.alt);
    HexShape(bits, precision, conversion == 'A' as nat, spec.alt);
    PaddedPlain(spec, f, false, body);
    HexPadded(spec, f, body, HexFloat.HexOf(bits, precision));
  }

  lemma LeftIsNotZero(spec: Spec, f: Field, pointer: bool)
    requires spec.left
    ensures !ZeroPads(spec, f, pointer)
  {
  }

  lemma ZerosAreNoHex(n: nat, body: string)
    requires n > 0 && body != [] && body[0] == '0'
    ensures HexText.ParseHex(Fill(n, '0') + body) == None
  {
    var t := Fill(n, '0') + body;
    assert t[1] == '0';
  }

  // --------------------------------------------------- a field that is no constant

  lemma {:induction false} StripAll(digits: nat, exponent: int)
    ensures HexFloat.Strip(HexFloat.Sixteen(digits), digits, exponent) == HexFloat.Hex(1, 0, exponent)
    decreases digits
  {
    hide Above, Last;
    if digits > 0 {
      PowUnfold(16, digits);
      Unsplit(HexFloat.Sixteen(digits - 1), 0, 16);
      StripAll(digits - 1, exponent);
    }
  }

  const ONE: nat := 0x3FF0_0000_0000_0000  // the double 1.0

  lemma OneText()
    ensures FloatText(ONE, -1, false, false) == "0x1p+0"
  {
    hide HexFloat.Strip;
    HexText.HexOfOneLead(ONE, -1);
    HexText.HiddenIs();
    StripAll(13, 0);
    assert HexFloat.HexOf(ONE, -1) == HexFloat.Hex(1, 0, 0);
    TimesOne(1);
    OneSpelt();
  }

  lemma OneSpelt()
    ensures HexText.Spell(1, 0, 0, 0, false, false) == "0x1p+0"
  {
    assert DigitsOf(0, 10, false, 1) == "0";
    assert DigitsOf(0, 16, false, 0) == "";
  }

  /** `%010a`, as the grammar writes it. */
  const ZERO_PADDED: Directive := Directive(['0' as nat], Count("10"), None, [], 'a' as nat)

  lemma ZeroPaddedMeans(source: Source, memory: Memory)
    requires SourceOk(source)
    ensures DirectiveOk(ZERO_PADDED) && [PERCENT] + DirectiveText(ZERO_PADDED) == Ascii("%010a")
    ensures var c := Meaning(ZERO_PADDED, source, memory);
      c.spec == PLAIN.(zero := true, width := 10) && c.source == source
  {
    hide Slot, Number;
    TenIsTen();
    assert WithFlags(PLAIN, ['0' as nat]) == PLAIN.(zero := true);
  }

  lemma OneAppended(c: Cursor, memory: Memory, wide: bool, host: Host)
    requires SourceOk(c.source) && c.spec == PLAIN.(zero := true, width := 10) && Slot(c.source, memory) == ONE
    ensures AfterDirective(c, 'a' as nat, [], memory, wide, host) == Some((Ascii("00000x1p+0"), memory))
  {
    hide Slot, FloatText, Convert, FloatField, Padded;
    OneField(host);
    ConvertsFloat(c.spec, ONE, memory, wide, host);
    var text := Ascii("00000x1p+0");
    assert Padded(c.spec, FloatField(c.spec, ONE, 'a' as nat, host), false) == text;
    assert Representable(text, wide) && [] + text == text;
  }

  /** `%010a` of 1.0: the zeros stand in front of the `0x`, and the field is no constant. */
  lemma HexZeroPadded(source: Source, memory: Memory, wide: bool, host: Host)
    requires SourceOk(source) && Slot(source, memory) == ONE
    ensures Formatted(Ascii("%010a"), 0, [], source, memory, wide, host)
         == Done(Ascii("00000x1p+0"), memory, Next(source))
    ensures ReadHexField("00000x1p+0") == None
  {
    hide Slot, Formatted, AfterDirective, Meaning, DirectiveText, DirectiveOk, ReadHexField;
    ZeroPaddedMeans(source, memory);
    OneDirective(ZERO_PADDED, [], source, memory, wide, host);
    OneAppended(Meaning(ZERO_PADDED, source, memory), memory, wide, host);
    NoConstant();
  }

  lemma NoConstant()
    ensures ReadHexField("00000x1p+0") == None
  {
    hide HexText.ParseHex;
    ZerosAreNoHex(4, "0x1p+0");
    assert Fill(4, '0') + "0x1p+0" == "00000x1p+0";
  }

  lemma TenIsTen()
    ensures Number("10", 10) == 10 && AllDigits("10", 10)
  {
    NumberAppend("1", '0', 10);
    NumberAppend("", '1', 10);
    assert "" + ['1'] == "1" && "1" + ['0'] == "10";
  }

  lemma ConvertsFloat(spec: Spec, raw: nat, memory: Memory, wide: bool, host: Host)
    ensures Convert(spec, 'a' as nat, raw, memory, wide, host) == Some(FloatField(spec, raw, 'a' as nat, host))
  {
    hide FloatField;
  }

  lemma OneField(host: Host)
    ensures var spec := PLAIN.(zero := true, width := 10);
      Padded(spec, FloatField(spec, ONE, 'a' as nat, host), false) == Ascii("00000x1p+0")
  {
    hide FloatText;
    OneText();
    assert Ascii("") + Ascii(Fill(4, '0')) + Ascii("0x1p+0") == Ascii("00000x1p+0");
  }
}
