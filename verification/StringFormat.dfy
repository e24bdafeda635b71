/** The formatter itself, a loop over the format string proved against `Formatting`. */
module StringFormat {
  import opened Wrappers
  import opened Digits
  import opened Formatting
  import opened GuestMemory
  import HexFloat
  import HexText

  class Arguments {
    var source: Source

    constructor (source: Source)
      ensures this.source == source
    {
      this.source := source;
    }

    method Next64(guest: Guest) returns (v: nat)
      requires SourceOk(source)
      modifies this
      ensures SourceOk(source) && source == Next(old(source)) && v == Slot(old(source), guest.bytes)
    {
      var index := source.index;
      v := match source
        case Registers(gpr, _) =>
          if index < FIRST_STACK_INDEX then gpr[3 + index]
          else Read64(guest.bytes, gpr[1] + STACK_SLOT_BASE + 8 * (index - FIRST_STACK_INDEX))
        case Array(base, _) => Read64(guest.bytes, base + 8 * index);
      source := source.(index := index + 1);
    }
  }

  // ------------------------------------------------------------- the directive

  lemma FlagsAppend(flags: Text, u: nat)
    ensures WithFlags(PLAIN, flags + [u]) == WithFlags(WithFlags(PLAIN, flags), [u])
  {
  }

  method TakeFlags(fmt: Text, c: Cursor) returns (r: Option<Cursor>)
    requires c.at < |fmt| && c.spec == PLAIN
    ensures r == ReadFlags(fmt, c)
  {
    var spec, at := PLAIN, c.at;
    while IsFlag(fmt[at])
      invariant c.at <= at < |fmt| && FlagEnd(fmt, c.at) == FlagEnd(fmt, at)
      invariant spec == WithFlags(PLAIN, fmt[c.at..at])
      decreases |fmt| - at
    {
      FlagsAppend(fmt[c.at..at], fmt[at]);
      assert fmt[c.at..at + 1] == fmt[c.at..at] + [fmt[at]];
      if fmt[at] == '-' as nat { spec := spec.(left := true); }
      else if fmt[at] == '+' as nat { spec := spec.(plus := true); }
      else if fmt[at] == '0' as nat { spec := spec.(zero := true); }
      else if fmt[at] == ' ' as nat { spec := spec.(space := true); }
      else { spec := spec.(alt := true); }
      at := at + 1;
      if at == |fmt| {
        return None;
      }
    }
    r := Some(c.(spec := spec, at := at));
  }

  /** More digits never make a smaller number, so the limit can be checked on the way. */
  lemma {:induction false} NumberGrows(text: string, k: nat)
    requires k <= |text|
    ensures Number(text[..k], 10) <= Number(text, 10)
    decreases |text|
  {
    if k < |text| {
      NumberGrows(text[..|text| - 1], k);
      assert text[..|text| - 1][..k] == text[..k];
    } else {
      assert text[..k] == text;
    }
  }

  lemma PlainDigit(t: Text, u: nat)
    requires IsDecimal(u)
    ensures Number(Plain(t + [u]), 10) == Number(Plain(t), 10) * 10 + (u - '0' as nat)
  {
    hide Number;
    NumberAppend(Plain(t), u as char, 10);
    assert Plain(t + [u]) == Plain(t) + [u as char];
  }

  /** A run of decimal digits, refused past the limit or at the end of the format. */
  method TakeDecimals(fmt: Text, from: nat) returns (value: nat, end: nat, ok: bool)
    requires from < |fmt|
    ensures ReadDecimals(fmt, from) == if ok then Some((value, end)) else None
  {
    hide Number, Plain;
    ghost var j := DecimalEnd(fmt, from);
    ghost var all := Plain(fmt[from..j]);
    value, end, ok := 0, from, false;
    assert fmt[from..from] == [] && Number(Plain([]), 10) == 0 by { EmptyNumber(); }
    while IsDecimal(fmt[end])
      invariant from <= end <= j && end < |fmt| && DecimalEnd(fmt, end) == j
      invariant value == Number(Plain(fmt[from..end]), 10) <= MAX_WIDTH
      decreases |fmt| - end
    {
      PlainDigit(fmt[from..end], fmt[end]);
      assert fmt[from..end + 1] == fmt[from..end] + [fmt[end]];
      value := value * 10 + (fmt[end] - '0' as nat);
      end := end + 1;
      PrefixNumber(fmt, from, end, j);
      if value > MAX_WIDTH || end == |fmt| {
        return;
      }
    }
    ok := true;
  }

  lemma EmptyNumber()
    ensures Number(Plain([]), 10) == 0
  {
  }

  lemma PrefixNumber(fmt: Text, from: nat, end: nat, j: nat)
    requires from <= end <= j <= |fmt|
    ensures Number(Plain(fmt[from..end]), 10) <= Number(Plain(fmt[from..j]), 10)
  {
    hide Number;
    NumberGrows(Plain(fmt[from..j]), end - from);
    assert Plain(fmt[from..j])[..end - from] == Plain(fmt[from..end]);
  }

  method TakeWidth(fmt: Text, c: Cursor, args: Arguments, guest: Guest) returns (r: Option<Cursor>)
    requires c.at < |fmt| && SourceOk(args.source) && c.source == args.source
    modifies args
    ensures r == ReadWidth(fmt, c, guest.bytes)
    ensures r.Some? ==> args.source == r.value.source
  {
    hide ReadDecimals;
    if fmt[c.at] == '*' as nat {
      var raw := args.Next64(guest);
      var width, spec := ToInt32(raw), c.spec;
      if width < 0 {
        spec := spec.(left := true);
        width := -width;
      }
      if c.at + 1 == |fmt| {
        return None;
      }
      r := Some(Cursor(spec.(width := width), c.at + 1, args.source));
    } else {
      var width, at, ok := TakeDecimals(fmt, c.at);
      if !ok {
        return None;
      }
      r := Some(c.(spec := c.spec.(width := width), at := at));
    }
  }

  method TakePrecision(fmt: Text, c: Cursor, args: Arguments, guest: Guest) returns (r: Option<Cursor>)
    requires c.at < |fmt| && SourceOk(args.source) && c.source == args.source
    modifies args
    ensures r == ReadPrecision(fmt, c, guest.bytes)
    ensures r.Some? ==> args.source == r.value.source
  {
    hide ReadDecimals;
    if fmt[c.at] != '.' as nat {
      return Some(c);
    }
    if c.at + 1 == |fmt| {
      return None;
    }
    if fmt[c.at + 1] == '*' as nat {
      var raw := args.Next64(guest);
      var precision := ToInt32(raw);
      if precision < 0 { precision := -1; }
      if c.at + 2 == |fmt| {
        return None;
      }
      r := Some(Cursor(c.spec.(precision := precision), c.at + 2, args.source));
    } else {
      var precision, at, ok := TakeDecimals(fmt, c.at + 1);
      if !ok {
        return None;
      }
      r := Some(c.(spec := c.spec.(precision := precision), at := at));
    }
  }

  method TakeSizes(fmt: Text, c: Cursor) returns (r: Option<Cursor>)
    requires c.at < |fmt|
    ensures r == ReadSizes(fmt, c)
  {
    var spec, at := c.spec, c.at;
    var more := true;
    while more
      invariant c.at <= at < |fmt|
      invariant ReadSizes(fmt, c) == ReadSizes(fmt, c.(spec := spec, at := at))
      invariant !more ==> SizeLength(fmt, at) == 0
      decreases |fmt| - at, more
    {
      if fmt[at] == 'l' as nat {
        if At(fmt, at + 1) == 'l' as nat {
          at := at + 1;
          spec := spec.(isLongLong := true);
        } else {
          spec := spec.(isLong := true);
        }
      } else if fmt[at] == 'h' as nat {
        spec := spec.(isShort := true);
      } else if fmt[at] == 'w' as nat {
        spec := spec.(isWide := true);
      } else if fmt[at] == 'L' as nat {
      } else if fmt[at] == 'I' as nat {
        if At(fmt, at + 1) == '6' as nat && At(fmt, at + 2) == '4' as nat {
          at := at + 2;
          spec := spec.(isLongLong := true);
        } else if At(fmt, at + 1) == '3' as nat && At(fmt, at + 2) == '2' as nat {
          at := at + 2;
        }
      } else {
        more := false;
      }
      if more {
        at := at + 1;
        if at >= |fmt| {
          return None;
        }
      }
    }
    r := Some(c.(spec := spec, at := at));
  }

  method TakeDirective(fmt: Text, i: nat, args: Arguments, guest: Guest) returns (r: Option<Cursor>)
    requires i < |fmt| && SourceOk(args.source)
    modifies args
    ensures r == ReadDirective(fmt, i, old(args.source), guest.bytes)
    ensures r.Some? ==> args.source == r.value.source
  {
    hide ReadFlags, ReadWidth, ReadPrecision, ReadSizes;
    r := TakeFlags(fmt, Cursor(PLAIN, i, args.source));
    FlagsKeep(fmt, Cursor(PLAIN, i, args.source));
    if r.None? { return; }
    WidthKeeps(fmt, r.value, guest.bytes);
    r := TakeWidth(fmt, r.value, args, guest);
    if r.None? { return; }
    PrecisionKeeps(fmt, r.value, guest.bytes);
    r := TakePrecision(fmt, r.value, args, guest);
    if r.None? { return; }
    r := TakeSizes(fmt, r.value);
  }

  lemma FlagsKeep(fmt: Text, c: Cursor)
    requires c.at < |fmt|
    ensures var r := ReadFlags(fmt, c); r.Some? ==> r.value.at < |fmt| && r.value.source == c.source
  {
  }

  lemma WidthKeeps(fmt: Text, c: Cursor, memory: Memory)
    requires c.at < |fmt| && SourceOk(c.source)
    ensures var r := ReadWidth(fmt, c, memory); r.Some? ==> r.value.at < |fmt| && SourceOk(r.value.source)
  {
  }

  lemma PrecisionKeeps(fmt: Text, c: Cursor, memory: Memory)
    requires c.at < |fmt| && SourceOk(c.source)
    ensures var r := ReadPrecision(fmt, c, memory); r.Some? ==> r.value.at < |fmt| && SourceOk(r.value.source)
  {
  }

  // ----------------------------------------------------------------- conversions

  function Low16(raw: nat): (v: nat)
    ensures v < TWO_16
  {
    raw % TWO_16
  }

  function Low32(raw: nat): (v: nat)
    ensures v < TWO_32
  {
    raw % TWO_32
  }

  function ToInt16(raw: nat): int {
    if Low16(raw) >= TWO_16 / 2 then Low16(raw) - TWO_16 else Low16(raw)
  }

  /** The bits a size prefix selects, as a magnitude and a sign. */
  method SelectBits(spec: Spec, raw: nat, isSigned: bool) returns (magnitude: nat, negative: bool)
    requires raw < TWO_64
    ensures magnitude == if isSigned then Magnitude(Signed(spec, raw)) else Unsigned(spec, raw)
    ensures negative == (isSigned && Signed(spec, raw) < 0)
  {
    negative := false;
    if spec.isLongLong {
      magnitude := raw;
      if isSigned && raw >= TWO_63 {
        negative, magnitude := true, TWO_64 - raw;
      }
    } else if spec.isShort {
      var v := ToInt16(raw);
      magnitude := if isSigned then (if v < 0 then -v else v) else Low16(raw);
      negative := isSigned && v < 0;
    } else {
      var v := ToInt32(raw);
      magnitude := if isSigned then (if v < 0 then -v else v) else Low32(raw);
      negative := isSigned && v < 0;
    }
  }

  /** Arguments are 64-bit values. */
  method IntegerConversion(spec: Spec, raw: nat, isSigned: bool, radix: nat, upper: bool) returns (f: Field)
    requires Radix(radix) && raw < TWO_64 && (isSigned ==> radix == 10 && !upper)
    ensures f == if isSigned then SignedField(spec, raw) else UnsignedField(spec, raw, radix, upper)
  {
    hide DigitsOf, Signed, Unsigned;
    var magnitude, negative := SelectBits(spec, raw, isSigned);
    var minDigits := if spec.precision >= 0 then Min(spec.precision, MAX_PRECISION) else 1;
    var body := PrintDigits(magnitude, radix, upper, minDigits);
    if radix == 8 && spec.alt && (body == [] || body[0] != '0') {
      body := "0" + body;
    }
    assert body == IntegerBody(spec, magnitude, radix, upper);
    var prefix := "";
    if radix == 16 && spec.alt && magnitude != 0 {
      prefix := if upper then "0X" else "0x";
    }
    if isSigned {
      if negative { prefix := "-"; }
      else if spec.plus { prefix := "+"; }
      else if spec.space { prefix := " "; }
    }
    f := Field(prefix, Ascii(body), true, true, true);
  }

  method FloatConversion(spec: Spec, raw: nat, conversion: nat, host: Host) returns (f: Field)
    requires IsFloat(conversion) && raw < TWO_64
    ensures f == FloatField(spec, raw, conversion, host)
  {
    hide HexText.Render, HexFloat.HexOf;
    var negative, bits := raw >= TWO_63, raw % TWO_63;
    var finite := bits < HexFloat.INFINITY;
    var upper := conversion == 'E' as nat || conversion == 'F' as nat
                 || conversion == 'G' as nat || conversion == 'A' as nat;
    var body: string;
    if !finite {
      body := if bits > HexFloat.INFINITY then (if upper then "NAN" else "nan") else (if upper then "INF" else "inf");
    } else if conversion == 'a' as nat || conversion == 'A' as nat {
      body := HexText.PrintHexFloat(bits, if spec.precision < 0 then -1 else Min(spec.precision, MAX_PRECISION),
                                    upper, spec.alt);
    } else {
      body := host(conversion, spec.alt, if spec.precision < 0 then 6 else Min(spec.precision, MAX_PRECISION), bits);
    }
    var prefix := "";
    if negative { prefix := "-"; }
    else if spec.plus { prefix := "+"; }
    else if spec.space { prefix := " "; }
    f := Field(prefix, Ascii(body), true, false, finite);
  }

  method ReadGuestString(memory: Memory, address: nat, wide: bool, limit: nat) returns (text: Text)
    ensures text == GuestString(memory, address, wide, 0, limit)
  {
    hide Read8, Read16;
    text := [];
    var i := 0;
    while i < limit
      invariant 0 <= i <= limit
      invariant GuestString(memory, address, wide, 0, limit) == text + GuestString(memory, address, wide, i, limit)
    {
      var c := if wide then Read16(memory, address + 2 * i) else Read8(memory, address + i);
      if c == 0 {
        return;
      }
      assert text + ([c] + GuestString(memory, address, wide, i + 1, limit))
          == (text + [c]) + GuestString(memory, address, wide, i + 1, limit);
      text := text + [c];
      i := i + 1;
    }
  }

  method ReadCountedString(memory: Memory, address: nat, unicode: bool) returns (text: Text)
    ensures text == CountedString(memory, address, unicode)
  {
    hide Read8, Read16, Read32;
    if address == 0 {
      return Ascii("(null)");
    }
    var length := Read16(memory, address);
    var buffer := Read32(memory, address + 4);
    text := [];
    if buffer == 0 {
      return;
    }
    ghost var goal := CountedString(memory, address, unicode);
    var i := 0;
    if unicode {
      while i + 1 < length
        invariant i % 2 == 0 && i <= length && |text| == i / 2
        invariant text == goal[..i / 2]
      {
        assert goal[i / 2] == Read16(memory, buffer + 2 * (i / 2));
        assert goal[..i / 2 + 1] == goal[..i / 2] + [goal[i / 2]];
        text := text + [Read16(memory, buffer + i)];
        i := i + 2;
      }
    } else {
      while i < length
        invariant i <= length && text == goal[..i]
      {
        assert goal[..i + 1] == goal[..i] + [goal[i]];
        text := text + [Read8(memory, buffer + i)];
        i := i + 1;
      }
    }
    assert goal[..|goal|] == goal;
  }

  /** Dispatches on the conversion character. */
  method ConvertOne(spec: Spec, conversion: nat, raw: nat, memory: Memory, wide: bool, host: Host)
    returns (f: Option<Field>)
    requires raw < TWO_64
    ensures f == Convert(spec, conversion, raw, memory, wide, host)
  {
    hide SignedField, UnsignedField, FloatField, GuestString, CountedString, DigitsOf;
    var field: Field;
    if conversion == 'd' as nat || conversion == 'i' as nat {
      field := IntegerConversion(spec, raw, true, 10, false);
    } else if conversion == 'u' as nat {
      field := IntegerConversion(spec, raw, false, 10, false);
    } else if conversion == 'o' as nat {
      field := IntegerConversion(spec, raw, false, 8, false);
    } else if conversion == 'x' as nat {
      field := IntegerConversion(spec, raw, false, 16, false);
    } else if conversion == 'X' as nat {
      field := IntegerConversion(spec, raw, false, 16, true);
    } else if conversion == 'p' as nat {
      var digits := PrintDigits(raw % TWO_32, 16, true, 8);
      field := Field("", Ascii(digits), true, true, true);
    } else if conversion == 'c' as nat || conversion == 'C' as nat {
      var isWide := StringIsWide(spec, conversion == 'C' as nat, wide);
      field := Field("", [if isWide then raw % TWO_16 else raw % 256], false, false, true);
    } else if conversion == 's' as nat || conversion == 'S' as nat {
      var pointer, cap := raw % TWO_32, if spec.precision < 0 then INT_MAX else spec.precision;
      var body: Text;
      if pointer == 0 {
        body := Ascii("(null)");
        if |body| > cap { body := body[..cap]; }
      } else {
        body := ReadGuestString(memory, pointer, StringIsWide(spec, conversion == 'S' as nat, wide), cap);
      }
      field := Field("", body, false, false, true);
    } else if conversion == 'Z' as nat {
      var body := ReadCountedString(memory, raw % TWO_32, spec.isWide);
      if spec.precision >= 0 && |body| > spec.precision { body := body[..spec.precision]; }
      field := Field("", body, false, false, true);
    } else if IsFloat(conversion) {
      field := FloatConversion(spec, raw, conversion, host);
    } else {
      return None;
    }
    f := Some(field);
  }

  // --------------------------------------------------------------------- output

  method Emit(out: Text, text: Text, wide: bool) returns (more: Text, ok: bool)
    ensures ok <==> Representable(text, wide)
    ensures ok ==> more == out + text
  {
    more := out;
    var k := 0;
    while k < |text|
      invariant 0 <= k <= |text| && more == out + text[..k] && Representable(text[..k], wide)
    {
      if !wide && text[k] > 0xFF {
        return more, false;
      }
      more := more + [text[k]];
      assert text[..k + 1] == text[..k] + [text[k]];
      k := k + 1;
    }
    assert text[..|text|] == text;
    ok := true;
  }

  /** Padding is always representable, so only a field's own text matters. */
  lemma PaddedRepresentable(spec: Spec, f: Field, pointer: bool, wide: bool)
    ensures Representable(Padded(spec, f, pointer), wide)
        <==> Representable(Ascii(f.prefix), wide) && Representable(f.body, wide)
  {
    hide Representable;
    var used := |f.body| + |f.prefix|;
    var padding: nat := if spec.width > used then spec.width - used else 0;
    var prefix, spaces, zeros := Ascii(f.prefix), Ascii(Fill(padding, ' ')), Ascii(Fill(padding, '0'));
    FillRepresentable(padding, wide);
    RepresentableJoin(prefix + f.body, spaces, wide);
    RepresentableJoin(prefix, f.body, wide);
    RepresentableJoin(prefix + zeros, f.body, wide);
    RepresentableJoin(prefix, zeros, wide);
    RepresentableJoin(spaces + prefix, f.body, wide);
    RepresentableJoin(spaces, prefix, wide);
  }

  lemma FillRepresentable(n: nat, wide: bool)
    ensures Representable(Ascii(Fill(n, ' ')), wide) && Representable(Ascii(Fill(n, '0')), wide)
  {
  }

  /** The padding in front of the prefix, behind it, and behind the body: one of the three. */
  function Paddings(spec: Spec, f: Field, pointer: bool): (Text, Text, Text) {
    var used := |f.body| + |f.prefix|;
    var n := if spec.width > used then spec.width - used else 0;
    if spec.left then ([], [], Ascii(Fill(n, ' ')))
    else if ZeroPads(spec, f, pointer) then ([], Ascii(Fill(n, '0')), [])
    else (Ascii(Fill(n, ' ')), [], [])
  }

  lemma PaddedParts(spec: Spec, f: Field, pointer: bool)
    ensures var (a, b, c) := Paddings(spec, f, pointer);
      Padded(spec, f, pointer) == a + Ascii(f.prefix) + b + f.body + c
  {
    hide ZeroPads, Ascii;
    var (a, b, c) := Paddings(spec, f, pointer);
    var prefix := Ascii(f.prefix);
    if spec.left {
      assert [] + prefix + [] + f.body == prefix + f.body;
    } else if ZeroPads(spec, f, pointer) {
      assert [] + prefix + b + f.body + [] == prefix + b + f.body;
    } else {
      assert a + prefix + [] + f.body + [] == a + prefix + f.body;
    }
  }

  lemma FiveParts(out: Text, a: Text, b: Text, c: Text, d: Text, e: Text)
    ensures out + a + b + c + d + e == out + (a + b + c + d + e)
  {
  }

  /** Appends one padded field; not ok when a character cannot be represented. */
  method AppendField(out: Text, spec: Spec, f: Field, pointer: bool, wide: bool) returns (more: Text, ok: bool)
    ensures ok <==> Representable(Padded(spec, f, pointer), wide)
    ensures ok ==> more == out + Padded(spec, f, pointer)
  {
    hide Representable, Padded, Ascii, Fill;
    PaddedRepresentable(spec, f, pointer, wide);
    PaddedParts(spec, f, pointer);
    ghost var (ahead, zeros, behind) := Paddings(spec, f, pointer);
    var spec' := if pointer then spec.(precision := 8) else spec;
    var zeroPad := spec'.zero && !spec'.left && !(f.integer && spec'.precision >= 0)
                   && !(f.numeric && !f.integer && !f.finite);
    assert zeroPad == ZeroPads(spec, f, pointer);
    var used := |f.body| + |f.prefix|;
    var padding := if spec.width > used then spec.width - used else 0;
    more := out;
    var prefix := Ascii(f.prefix);
    FiveParts(out, ahead, prefix, zeros, f.body, behind);
    if !spec.left && !zeroPad { more := more + Ascii(Fill(padding, ' ')); }
    assert more == out + ahead;
    more, ok := Emit(more, prefix, wide);
    if !ok { return; }
    if zeroPad { more := more + Ascii(Fill(padding, '0')); }
    assert more == out + ahead + prefix + zeros;
    more, ok := Emit(more, f.body, wide);
    if !ok { return; }
    if spec.left { more := more + Ascii(Fill(padding, ' ')); }
    assert more == out + ahead + prefix + zeros + f.body + behind;
  }

  /** The whole format.  `count` is the text's length as a 32-bit integer, or -1 with no
      text when the format fails; stores made before the failure stay. */
  method Format(guest: Guest, fmt: Text, args: Arguments, wide: bool, host: Host) returns (count: int, text: Text)
    requires SourceOk(args.source)
    modifies guest, args
    ensures var o := Formatted(fmt, 0, [], old(args.source), old(guest.bytes), wide, host);
      && guest.bytes == o.memory
      && (o.Failed? ==> count == -1 && text == [])
      && (o.Done? ==> text == o.text && args.source == o.source && count == ToInt32(|text|))
      && (o.Done? ==> (count == |text| <==> |text| < TWO_31))
  {
    hide ReadDirective, Convert, Padded, Slot, Write16, Write32, ToInt32;
    ghost var goal := Formatted(fmt, 0, [], args.source, guest.bytes, wide, host);
    var i, out: Text := 0, [];
    while i < |fmt|
      invariant i <= |fmt| && SourceOk(args.source)
      invariant goal == Formatted(fmt, i, out, args.source, guest.bytes, wide, host)
    {
      var c := fmt[i];
      i := i + 1;
      if c != '%' as nat {
        if !Representable([c], wide) {
          return -1, [];
        }
        out := out + [c];
      } else if i >= |fmt| {
        return -1, [];
      } else if fmt[i] == '%' as nat {
        out := out + ['%' as nat];
        i := i + 1;
      } else {
        var d := TakeDirective(fmt, i, args, guest);
        if d.None? || d.value.spec.width > MAX_WIDTH {
          return -1, [];
        }
        var spec, conversion := d.value.spec, fmt[d.value.at];
        i := d.value.at + 1;
        var raw := args.Next64(guest);
        if conversion == 'n' as nat {
          if spec.isShort {
            guest.bytes := Write16(guest.bytes, raw % TWO_32, |out|);
          } else {
            guest.bytes := Write32(guest.bytes, raw % TWO_32, |out|);
          }
        } else {
          var field := ConvertOne(spec, conversion, raw, guest.bytes, wide, host);
          if field.None? {
            return -1, [];
          }
          var more, ok := AppendField(out, spec, field.value, conversion == 'p' as nat, wide);
          if !ok {
            return -1, [];
          }
          out := more;
        }
      }
    }
    CountIsLength(|out|);
    return ToInt32(|out|), out;
  }

  /** The count is the length of the text for exactly those texts a signed 32-bit count
      can name. */
  lemma CountIsLength(n: nat)
    ensures ToInt32(n) == n <==> n < TWO_31
  {
  }
}
