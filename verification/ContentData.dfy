/** The fixed-size guest content structure: reading its names and writing them back. */
module ContentData {
  import opened Unicode

  const CONTENT_DATA_SIZE: nat := 0x134
  const NAME_OFFSET: nat := 8
  const NAME_UNITS: nat := 128
  const MAX_CHARS: nat := 127
  const FILE_OFFSET: nat := 264
  const FILE_BYTES: nat := 42

  datatype Content = Content(deviceId: Code, contentType: Code, displayName: seq<Byte>, fileName: seq<Byte>)

  // ----------------------------------------------------------------- big endian

  function Joined(high: Byte, low: Byte): Unit {
    ((high as Unit) << 8) | (low as Unit)
  }

  function UpperByte(u: Unit): Byte {
    ((u >> 8) & 0xFF) as Byte
  }

  function LowerByte(u: Unit): Byte {
    (u & 0xFF) as Byte
  }

  lemma BytesOfJoined(high: Byte, low: Byte)
    ensures UpperByte(Joined(high, low)) == high && LowerByte(Joined(high, low)) == low
  {
  }

  lemma JoinedBytes(u: Unit)
    ensures Joined(UpperByte(u), LowerByte(u)) == u
  {
  }

  // -------------------------------------------------------------------- reading

  predicate IsStructure(data: seq<Byte>) {
    |data| == CONTENT_DATA_SIZE
  }

  function UnitAt(data: seq<Byte>, i: nat): Unit
    requires IsStructure(data) && i < NAME_UNITS
  {
    Joined(data[NAME_OFFSET + 2 * i], data[NAME_OFFSET + 2 * i + 1])
  }

  /** The name's units from the `i`-th on, up to a zero or the end of the field. */
  function NameUnits(data: seq<Byte>, i: nat): (r: seq<Unit>)
    requires IsStructure(data) && i <= NAME_UNITS
    ensures |r| <= NAME_UNITS - i
    decreases NAME_UNITS - i
  {
    if i == NAME_UNITS || UnitAt(data, i) == 0 then [] else [UnitAt(data, i)] + NameUnits(data, i + 1)
  }

  function FileName(data: seq<Byte>, i: nat): (r: seq<Byte>)
    requires IsStructure(data) && i <= FILE_BYTES
    ensures |r| <= FILE_BYTES - i
    decreases FILE_BYTES - i
  {
    if i == FILE_BYTES || data[FILE_OFFSET + i] == 0 then [] else [data[FILE_OFFSET + i]] + FileName(data, i + 1)
  }

  function DisplayName(data: seq<Byte>): seq<Byte>
    requires IsStructure(data)
  {
    Encode(Codes(NameUnits(data, 0)))
  }

  method ReadFileName(data: seq<Byte>) returns (name: seq<Byte>)
    requires IsStructure(data)
    ensures name == FileName(data, 0)
  {
    name := [];
    var i := 0;
    while i < FILE_BYTES
      invariant 0 <= i <= FILE_BYTES && FileName(data, 0) == name + FileName(data, i)
    {
      var c := data[FILE_OFFSET + i];
      if c == 0 {
        return;
      }
      assert name + ([c] + FileName(data, i + 1)) == (name + [c]) + FileName(data, i + 1);
      name := name + [c];
      i := i + 1;
    }
  }

  method ReadUnits(data: seq<Byte>) returns (wide: seq<Unit>)
    requires IsStructure(data)
    ensures wide == NameUnits(data, 0)
  {
    hide UnitAt;
    wide := [];
    var i := 0;
    while i < NAME_UNITS
      invariant 0 <= i <= NAME_UNITS && NameUnits(data, 0) == wide + NameUnits(data, i)
    {
      var unit := UnitAt(data, i);
      if unit == 0 {
        return;
      }
      assert wide + ([unit] + NameUnits(data, i + 1)) == (wide + [unit]) + NameUnits(data, i + 1);
      wide := wide + [unit];
      i := i + 1;
    }
  }

  method PushCode(before: seq<Byte>, code: Code) returns (text: seq<Byte>)
    ensures text == before + Utf8(code)
  {
    hide LeadTwo, LeadThree, LeadFour, Trail, Low8;
    text := before;
    if code < 0x80 {
      text := text + [Low8(code)];
    } else if code < 0x800 {
      text := text + [LeadTwo(code)];
      text := text + [Trail(code)];
    } else if code < 0x1_0000 {
      text := text + [LeadThree(code)];
      text := text + [Trail(code >> 6)];
      text := text + [Trail(code)];
    } else {
      text := text + [LeadFour(code)];
      text := text + [Trail(code >> 12)];
      text := text + [Trail(code >> 6)];
      text := text + [Trail(code)];
    }
  }

  predicate PairAt(wide: seq<Unit>, i: nat)
    requires i < |wide|
  {
    IsHigh(wide[i]) && i + 1 < |wide| && IsLow(wide[i + 1])
  }

  lemma EncodeStep(wide: seq<Unit>, i: nat)
    requires i < |wide|
    ensures PairAt(wide, i) ==>
      Encode(Codes(wide[i..])) == Utf8(Pair(wide[i], wide[i + 1])) + Encode(Codes(wide[i + 2..]))
    ensures !PairAt(wide, i) ==>
      Encode(Codes(wide[i..])) == Utf8(wide[i] as Code) + Encode(Codes(wide[i + 1..]))
  {
    hide Pair, IsHigh, IsLow, Utf8, Encode, Codes;
    var left := wide[i..];
    CodesHead(left);
    if PairAt(wide, i) {
      assert left[2..] == wide[i + 2..];
    } else {
      assert left[1..] == wide[i + 1..];
    }
  }

  /** The encoder: a high surrogate takes the low one behind it along. */
  method EncodeUnits(wide: seq<Unit>) returns (text: seq<Byte>)
    ensures text == Encode(Codes(wide))
  {
    hide Pair, PairAt, Utf8, Encode, Codes;
    text := [];
    var i := 0;
    assert wide[0..] == wide;
    while i < |wide|
      invariant 0 <= i <= |wide| && Encode(Codes(wide)) == text + Encode(Codes(wide[i..]))
    {
      EncodeStep(wide, i);
      ghost var before := text;
      var code: Code := wide[i] as Code;
      if PairAt(wide, i) {
        PairFits(wide, i);
        code := Pair(wide[i], wide[i + 1]);
        i := i + 1;
      }
      text := PushCode(text, code);
      i := i + 1;
      ghost var rest := Encode(Codes(wide[i..]));
      assert before + (Utf8(code) + rest) == text + rest;
    }
    assert wide[i..] == [];
    NothingEncoded();
  }

  lemma PairFits(wide: seq<Unit>, i: nat)
    requires i < |wide| && PairAt(wide, i)
    ensures i + 1 < |wide|
  {
  }

  lemma NothingEncoded()
    ensures Encode(Codes([])) == []
  {
  }

  lemma CodesHead(units: seq<Unit>)
    requires units != []
    ensures IsHigh(units[0]) && |units| > 1 && IsLow(units[1]) ==>
      Encode(Codes(units)) == Utf8(Pair(units[0], units[1])) + Encode(Codes(units[2..]))
    ensures !(IsHigh(units[0]) && |units| > 1 && IsLow(units[1])) ==>
      Encode(Codes(units)) == Utf8(units[0] as Code) + Encode(Codes(units[1..]))
  {
  }

  method ReadDisplayName(data: seq<Byte>) returns (text: seq<Byte>)
    requires IsStructure(data)
    ensures text == DisplayName(data)
  {
    var wide := ReadUnits(data);
    text := EncodeUnits(wide);
  }

  // -------------------------------------------------------------------- writing

  /** One character of the lenient decoder, with as many of its bytes as there are. */
  method TakeCode(text: seq<Byte>, from: nat) returns (code: Code, i: nat)
    requires from < |text|
    ensures i == from + 1 + Min(Start(text[from]).1, |text| - from - 1)
    ensures code == Gather(Start(text[from]).0, text[from + 1..i])
  {
    hide Append, Wide;
    var start := Start(text[from]);
    code := start.0;
    var extra := start.1;
    i := from + 1;
    var k := 0;
    ghost var n := from + 1 + Min(extra, |text| - from - 1);
    ghost var trail := text[from + 1..n];
    assert trail[0..] == trail;
    while k < extra && i < |text|
      invariant 0 <= k <= extra && i == from + 1 + k && i <= n
      invariant Gather(start.0, trail) == Gather(code, trail[k..])
    {
      assert trail[k..][0] == text[i] && trail[k..][1..] == trail[k + 1..];
      code := Append(code, text[i]);
      k, i := k + 1, i + 1;
    }
    assert trail[k..] == [];
  }

  lemma DecodeStep(text: seq<Byte>, i: nat, code: Code, next: nat)
    requires i < |text| && next == i + 1 + Min(Start(text[i]).1, |text| - i - 1)
    requires code == Gather(Start(text[i]).0, text[i + 1..next])
    ensures Decode(text[i..]) == Pieces(code) + Decode(text[next..])
  {
    hide Start, Gather, Pieces;
    var left := text[i..];
    assert left[1..next - i] == text[i + 1..next] && left[next - i..] == text[next..];
  }

  method PushUnits(before: seq<Unit>, code: Code) returns (wide: seq<Unit>)
    ensures wide == before + Pieces(code)
  {
    hide HighOf, LowOf, Low16;
    wide := before;
    if code >= 0x1_0000 {
      wide := wide + [HighOf(code)];
      wide := wide + [LowOf(code)];
    } else {
      wide := wide + [Low16(code)];
    }
  }

  method ToUtf16(text: seq<Byte>) returns (wide: seq<Unit>)
    ensures wide == Decode(text)
  {
    hide Start, Gather, Pieces, Decode;
    wide := [];
    var i := 0;
    assert text[0..] == text;
    while i < |text|
      invariant 0 <= i <= |text| && Decode(text) == wide + Decode(text[i..])
    {
      var code, next := TakeCode(text, i);
      DecodeStep(text, i, code, next);
      ghost var pieces, rest := Pieces(code), Decode(text[next..]);
      assert wide + (pieces + rest) == (wide + pieces) + rest;
      wide := PushUnits(wide, code);
      i := next;
    }
    assert text[i..] == [];
    DecodeNothing();
  }

  function Byte32(v: Code, k: nat): Byte
    requires k < 4
  {
    if k == 0 then Low8(v >> 24) else if k == 1 then Low8(v >> 16) else if k == 2 then Low8(v >> 8) else Low8(v)
  }

  /** What stands at each offset of the structure written for an item. */
  function ByteAt(item: Content, wide: seq<Unit>, k: nat): Byte {
    if k < 4 then Byte32(item.deviceId, k)
    else if k < NAME_OFFSET then Byte32(item.contentType, k - 4)
    else if k < FILE_OFFSET then
      var j := (k - NAME_OFFSET) / 2;
      if j >= |wide| || j >= MAX_CHARS then 0 else if k % 2 == 0 then UpperByte(wide[j]) else LowerByte(wide[j])
    else if k < FILE_OFFSET + FILE_BYTES && k - FILE_OFFSET < |item.fileName| then item.fileName[k - FILE_OFFSET]
    else 0
  }

  function Serialized(item: Content): (data: seq<Byte>)
    ensures IsStructure(data)
  {
    seq(CONTENT_DATA_SIZE, k requires 0 <= k < CONTENT_DATA_SIZE => ByteAt(item, Decode(item.displayName), k))
  }

  function Spread(a: Byte, b: Byte, c: Byte, d: Byte): Code {
    ((a as Code) << 24) | ((b as Code) << 16) | ((c as Code) << 8) | (d as Code)
  }

  /** The 32-bit word at an offset, most significant byte first. */
  function WordAt(data: seq<Byte>, k: nat): Code
    requires k + 4 <= |data|
  {
    Spread(data[k], data[k + 1], data[k + 2], data[k + 3])
  }

  lemma WordOfBytes(v: Code)
    ensures Spread(Byte32(v, 0), Byte32(v, 1), Byte32(v, 2), Byte32(v, 3)) == v
  {
  }

  /** The structure begins with the device and the content type, big-endian. */
  lemma WordsReadBack(item: Content)
    ensures WordAt(Serialized(item), 0) == item.deviceId && WordAt(Serialized(item), 4) == item.contentType
  {
    hide Byte32, Decode, Spread;
    var data := Serialized(item);
    forall k | 0 <= k < 4
      ensures data[k] == Byte32(item.deviceId, k) && data[4 + k] == Byte32(item.contentType, k)
    {
    }
    WordOfBytes(item.deviceId);
    WordOfBytes(item.contentType);
  }

  method PutU32(out: array<Byte>, offset: nat, value: Code)
    requires offset + 4 <= out.Length
    modifies out
    ensures forall k :: 0 <= k < out.Length ==>
      out[k] == if offset <= k < offset + 4 then Byte32(value, k - offset) else old(out[k])
  {
    hide Low8;
    out[offset] := Low8(value >> 24);
    out[offset + 1] := Low8(value >> 16);
    out[offset + 2] := Low8(value >> 8);
    out[offset + 3] := Low8(value);
  }

  method SerializeContentData(item: Content) returns (out: array<Byte>)
    ensures fresh(out) && out[..] == Serialized(item)
  {
    hide Decode, Byte32, UpperByte, LowerByte;
    out := new Byte[CONTENT_DATA_SIZE](_ => 0);
    PutU32(out, 0, item.deviceId);
    PutU32(out, 4, item.contentType);
    var wide := ToUtf16(item.displayName);
    PutName(out, wide, item);
    PutFile(out, wide, item);
    assert forall k :: 0 <= k < CONTENT_DATA_SIZE ==> out[k] == ByteAt(item, wide, k);
  }

  method PutName(out: array<Byte>, wide: seq<Unit>, item: Content)
    requires out.Length == CONTENT_DATA_SIZE && forall k :: NAME_OFFSET <= k < FILE_OFFSET ==> out[k] == 0
    modifies out
    ensures forall k :: 0 <= k < out.Length ==>
      out[k] == if NAME_OFFSET <= k < FILE_OFFSET then ByteAt(item, wide, k) else old(out[k])
  {
    hide UpperByte, LowerByte, Byte32;
    var i := 0;
    while i < |wide| && i < MAX_CHARS
      invariant 0 <= i <= MAX_CHARS && i <= |wide|
      invariant forall k :: 0 <= k < out.Length && !(NAME_OFFSET <= k < NAME_OFFSET + 2 * i) ==> out[k] == old(out[k])
      invariant forall k :: NAME_OFFSET <= k < NAME_OFFSET + 2 * i ==> out[k] == ByteAt(item, wide, k)
    {
      NameByte(item, wide, i);
      out[NAME_OFFSET + 2 * i] := UpperByte(wide[i]);
      out[NAME_OFFSET + 2 * i + 1] := LowerByte(wide[i]);
      i := i + 1;
    }
  }

  lemma NameByte(item: Content, wide: seq<Unit>, i: nat)
    requires i < |wide| && i < MAX_CHARS
    ensures ByteAt(item, wide, NAME_OFFSET + 2 * i) == UpperByte(wide[i])
    ensures ByteAt(item, wide, NAME_OFFSET + 2 * i + 1) == LowerByte(wide[i])
  {
  }

  method PutFile(out: array<Byte>, ghost wide: seq<Unit>, item: Content)
    requires out.Length == CONTENT_DATA_SIZE && forall k :: FILE_OFFSET <= k < CONTENT_DATA_SIZE ==> out[k] == 0
    modifies out
    ensures forall k :: 0 <= k < out.Length ==>
      out[k] == if FILE_OFFSET <= k then ByteAt(item, wide, k) else old(out[k])
  {
    var j := 0;
    while j < |item.fileName| && j < FILE_BYTES
      invariant 0 <= j <= FILE_BYTES && j <= |item.fileName|
      invariant forall k :: 0 <= k < out.Length && !(FILE_OFFSET <= k < FILE_OFFSET + j) ==> out[k] == old(out[k])
      invariant forall k :: FILE_OFFSET <= k < FILE_OFFSET + j ==> out[k] == item.fileName[k - FILE_OFFSET]
    {
      out[FILE_OFFSET + j] := item.fileName[j];
      j := j + 1;
    }
  }

  /** One character of the validator: its continuation bytes and the value they give. */
  method CheckCharacter(text: seq<Byte>, index: nat) returns (ok: bool, next: nat)
    requires index < |text|
    ensures ok <==> HeadValid(text[index..])
    ensures ok ==> index < next == index + Class(text[index]) + 1 <= |text|
  {
    hide Append, Gather, IsTrail, Fits, Payload, Class;
    ghost var left := text[index..];
    var first := text[index];
    var continuation := Class(first);
    ok, next := false, index;
    if continuation < 0 || index + continuation >= |text| {
      return;
    }
    var codepoint := Payload(first);
    ghost var trail := left[1..continuation + 1];
    var offset := 0;
    assert trail[0..] == trail;
    while offset < continuation
      invariant 0 <= offset <= continuation
      invariant Gather(Payload(first), trail) == Gather(codepoint, trail[offset..])
      invariant forall k :: 0 <= k < offset ==> IsTrail(trail[k])
    {
      var byte := text[index + offset + 1];
      assert trail[offset] == byte;
      if !IsTrail(byte) {
        return;
      }
      GatherNext(codepoint, trail[offset..]);
      assert trail[offset..][1..] == trail[offset + 1..];
      codepoint := Append(codepoint, byte);
      offset := offset + 1;
    }
    GatherDone(codepoint, trail[offset..]);
    ok, next := Fits(continuation, codepoint), index + continuation + 1;
  }

  method ValidUtf8(text: seq<Byte>) returns (ok: bool)
    ensures ok <==> IsUtf8(text)
  {
    hide Class, HeadValid, IsUtf8;
    ValidIsUtf8(text);
    assert text[0..] == text;
    var index := 0;
    while index < |text|
      invariant 0 <= index <= |text| && (Valid(text) <==> Valid(text[index..]))
    {
      var good, next := CheckCharacter(text, index);
      if !good {
        return false;
      }
      assert text[index..][next - index..] == text[next..];
      index := next;
    }
    ok := true;
  }

  lemma GatherNext(code: Code, trail: seq<Byte>)
    requires trail != []
    ensures Gather(code, trail) == Gather(Append(code, trail[0]), trail[1..])
  {
  }

  lemma GatherDone(code: Code, trail: seq<Byte>)
    requires trail == []
    ensures Gather(code, trail) == code
  {
  }

  // ---------------------------------------------------------------- round trips

  function Kept(units: seq<Unit>): (r: seq<Unit>)
    ensures |r| <= MAX_CHARS
  {
    if |units| > MAX_CHARS then units[..MAX_CHARS] else units
  }

  lemma {:induction false} NameUnitsAre(data: seq<Byte>, i: nat, k: nat)
    requires IsStructure(data) && i <= NAME_UNITS && k < |NameUnits(data, i)|
    ensures NameUnits(data, i)[k] == UnitAt(data, i + k) && UnitAt(data, i + k) != 0
    decreases k
  {
    hide UnitAt;
    if k > 0 { NameUnitsAre(data, i + 1, k - 1); }
  }

  /** The units of a field that holds these units and then a zero. */
  lemma {:induction false} NameUnitsOf(data: seq<Byte>, i: nat, units: seq<Unit>)
    requires IsStructure(data) && i + |units| <= NAME_UNITS
    requires forall k :: 0 <= k < |units| ==> UnitAt(data, i + k) == units[k] && units[k] != 0
    requires i + |units| < NAME_UNITS ==> UnitAt(data, i + |units|) == 0
    ensures NameUnits(data, i) == units
    decreases |units|
  {
    hide UnitAt;
    if units != [] {
      forall k | 0 <= k < |units| - 1 ensures UnitAt(data, i + 1 + k) == units[1..][k] && units[1..][k] != 0 {
        assert UnitAt(data, i + (k + 1)) == units[k + 1];
      }
      assert UnitAt(data, i + 0) == units[0];
      NameUnitsOf(data, i + 1, units[1..]);
    }
  }

  lemma SerializedUnit(item: Content, i: nat)
    requires i < NAME_UNITS
    ensures var wide := Decode(item.displayName);
      UnitAt(Serialized(item), i) == if i < |wide| && i < MAX_CHARS then wide[i] else 0
  {
    hide Decode, UpperByte, LowerByte, Joined, Byte32;
    var wide := Decode(item.displayName);
    assert Serialized(item)[NAME_OFFSET + 2 * i] == ByteAt(item, wide, NAME_OFFSET + 2 * i);
    assert Serialized(item)[NAME_OFFSET + 2 * i + 1] == ByteAt(item, wide, NAME_OFFSET + 2 * i + 1);
    if i < |wide| && i < MAX_CHARS {
      NameByte(item, wide, i);
      JoinedBytes(wide[i]);
    } else {
      ZeroUnit();
    }
  }

  lemma ZeroUnit()
    ensures Joined(0, 0) == 0
  {
  }

  lemma NameUnitsBack(data: seq<Byte>, item: Content)
    requires IsStructure(data) && Decode(item.displayName) == NameUnits(data, 0)
    ensures NameUnits(Serialized(item), 0) == Kept(NameUnits(data, 0))
  {
    hide Decode, UnitAt, Serialized, NameUnits;
    var units, back := NameUnits(data, 0), Serialized(item);
    var kept := Kept(units);
    forall k | 0 <= k < |kept| ensures UnitAt(back, 0 + k) == kept[k] && kept[k] != 0 {
      SerializedUnit(item, k);
      NameUnitsAre(data, 0, k);
    }
    SerializedUnit(item, |kept|);
    NameUnitsOf(back, 0, kept);
  }

  /** Reading a name into UTF-8 and serialising it back keeps its first 127 units, each at
      its own offset; a name is kept whole exactly when it has at most 127, so one that
      fills all 128 places loses its last unit. */
  lemma NameRoundTrip(data: seq<Byte>, item: Content)
    requires IsStructure(data) && item.displayName == DisplayName(data)
    ensures var units, back := NameUnits(data, 0), Serialized(item);
      && NameUnits(back, 0) == Kept(units)
      && (NameUnits(back, 0) == units <==> |units| <= MAX_CHARS)
      && forall k :: NAME_OFFSET <= k < FILE_OFFSET ==>
           back[k] == if (k - NAME_OFFSET) / 2 < |Kept(units)| then data[k] else 0
  {
    hide Decode, Encode, Codes, Serialized, NameUnits;
    var units, back := NameUnits(data, 0), Serialized(item);
    UnitsSurvive(units);
    NameUnitsBack(data, item);
    forall k | NAME_OFFSET <= k < FILE_OFFSET
      ensures back[k] == if (k - NAME_OFFSET) / 2 < |Kept(units)| then data[k] else 0
    {
      NameBytesBack(data, item, k);
    }
  }

  /** A structure whose display name fills all 128 places with `A`. */
  function FullName(): (data: seq<Byte>)
    ensures IsStructure(data)
  {
    seq(CONTENT_DATA_SIZE, k => if NAME_OFFSET <= k < FILE_OFFSET && (k - NAME_OFFSET) % 2 == 1 then 0x41 else 0)
  }

  function Letters(n: nat): (units: seq<Unit>)
    ensures |units| == n && forall k :: 0 <= k < n ==> units[k] == 0x41
  {
    seq(n, _ => 0x41)
  }

  /** Its round trip loses the last unit. */
  lemma FullNameLosesOne(item: Content)
    requires item.displayName == DisplayName(FullName())
    ensures NameUnits(FullName(), 0) == Letters(128) && NameUnits(Serialized(item), 0) == Letters(127)
  {
    hide Serialized, DisplayName, NameUnits;
    assert Joined(0, 0x41) == 0x41;
    forall k | 0 <= k < 128 ensures UnitAt(FullName(), k) == 0x41 {
      assert (NAME_OFFSET + 2 * k + 1 - NAME_OFFSET) % 2 == 1 && (NAME_OFFSET + 2 * k - NAME_OFFSET) % 2 == 0;
    }
    NameUnitsOf(FullName(), 0, Letters(128));
    NameRoundTrip(FullName(), item);
    assert Letters(128)[..MAX_CHARS] == Letters(127);
  }

  lemma NameBytesBack(data: seq<Byte>, item: Content, k: nat)
    requires IsStructure(data) && NAME_OFFSET <= k < FILE_OFFSET
    requires Decode(item.displayName) == NameUnits(data, 0)
    ensures Serialized(item)[k] == if (k - NAME_OFFSET) / 2 < |Kept(NameUnits(data, 0))| then data[k] else 0
  {
    hide Decode, UpperByte, LowerByte, Joined, ByteAt, NameUnits;
    var i := (k - NAME_OFFSET) / 2;
    var units := NameUnits(data, 0);
    assert Serialized(item)[k] == ByteAt(item, units, k);
    assert k == NAME_OFFSET + 2 * i || k == NAME_OFFSET + 2 * i + 1;
    if i < |Kept(units)| {
      NameUnitsAre(data, 0, i);
      NameByte(item, units, i);
      BytesOfJoined(data[NAME_OFFSET + 2 * i], data[NAME_OFFSET + 2 * i + 1]);
    } else {
      NameZero(item, units, k);
    }
  }

  lemma NameZero(item: Content, wide: seq<Unit>, k: nat)
    requires NAME_OFFSET <= k < FILE_OFFSET && (k - NAME_OFFSET) / 2 >= |Kept(wide)|
    ensures ByteAt(item, wide, k) == 0
  {
  }

  lemma FileByte(item: Content, k: nat)
    requires FILE_OFFSET <= k < CONTENT_DATA_SIZE
    ensures Serialized(item)[k]
         == if k - FILE_OFFSET < |item.fileName| && k < FILE_OFFSET + FILE_BYTES
            then item.fileName[k - FILE_OFFSET] else 0
  {
  }

  /** The file name comes back byte for byte, padded with zeros. */
  lemma FileRoundTrip(data: seq<Byte>, item: Content)
    requires IsStructure(data) && item.fileName == FileName(data, 0)
    ensures FileName(Serialized(item), 0) == FileName(data, 0)
    ensures forall k :: FILE_OFFSET <= k < CONTENT_DATA_SIZE ==>
      Serialized(item)[k] == if k - FILE_OFFSET < |FileName(data, 0)| then data[k] else 0
  {
    hide Decode, Serialized, FileName;
    var back, name := Serialized(item), FileName(data, 0);
    forall k | FILE_OFFSET <= k < CONTENT_DATA_SIZE
      ensures back[k] == if k - FILE_OFFSET < |name| then data[k] else 0
    {
      FileByte(item, k);
      if k - FILE_OFFSET < |name| { FileNameIs(data, 0, k - FILE_OFFSET); }
    }
    forall k | 0 <= k < |name| ensures back[FILE_OFFSET + 0 + k] == name[k] && name[k] != 0 {
      FileNameIs(data, 0, k);
    }
    FileNameOf(back, 0, name);
  }

  lemma {:induction false} FileNameIs(data: seq<Byte>, i: nat, k: nat)
    requires IsStructure(data) && i <= FILE_BYTES && k < |FileName(data, i)|
    ensures FileName(data, i)[k] == data[FILE_OFFSET + i + k] && data[FILE_OFFSET + i + k] != 0
    decreases k
  {
    if k > 0 { FileNameIs(data, i + 1, k - 1); }
  }

  lemma {:induction false} FileNameOf(data: seq<Byte>, i: nat, name: seq<Byte>)
    requires IsStructure(data) && i + |name| <= FILE_BYTES
    requires forall k :: 0 <= k < |name| ==> data[FILE_OFFSET + i + k] == name[k] && name[k] != 0
    requires i + |name| < FILE_BYTES ==> data[FILE_OFFSET + i + |name|] == 0
    ensures FileName(data, i) == name
    decreases |name|
  {
    if name != [] {
      forall k | 0 <= k < |name| - 1 ensures data[FILE_OFFSET + (i + 1) + k] == name[1..][k] && name[1..][k] != 0 {
        assert data[FILE_OFFSET + i + (k + 1)] == name[k + 1];
      }
      assert data[FILE_OFFSET + i + 0] == name[0];
      FileNameOf(data, i + 1, name[1..]);
    }
  }

  // ------------------------------------------------- the other way: item and back

  function Flatten(codes: seq<Code>): seq<Unit> {
    if codes == [] then [] else Pieces(codes[0]) + Flatten(codes[1..])
  }

  lemma {:induction false} DecodeEncode(codes: seq<Code>)
    requires forall i :: 0 <= i < |codes| ==> IsCode(codes[i])
    ensures Decode(Encode(codes)) == Flatten(codes)
  {
    hide Utf8, Decode, Pieces;
    if codes == [] {
      DecodeNothing();
    } else {
      DecodeOne(codes[0], Encode(codes[1..]));
      DecodeEncode(codes[1..]);
    }
  }

  lemma {:induction false} CodesFlatten(codes: seq<Code>)
    requires AllScalar(codes)
    ensures Codes(Flatten(codes)) == codes
  {
    hide Pair, IsHigh, IsLow, HighOf, LowOf, Low16, IsScalar;
    if codes != [] {
      ScalarsSplit(codes);
      CodesFlatten(codes[1..]);
      var c, rest := codes[0], Flatten(codes[1..]);
      var units := Pieces(c) + rest;
      if c >= 0x1_0000 {
        ScalarBounds(c);
        PiecesPair(c);
        assert units[2..] == rest && units[0] == HighOf(c) && units[1] == LowOf(c);
      } else {
        ScalarUnit(c);
        assert units[1..] == rest && units[0] == Low16(c);
      }
    }
  }

  lemma ScalarBounds(c: Code)
    requires IsScalar(c)
    ensures c < 0x11_0000
  {
  }

  lemma ScalarUnit(c: Code)
    requires IsScalar(c) && c < 0x1_0000
    ensures !IsHigh(Low16(c)) && !IsLow(Low16(c)) && (Low16(c) as Code) == c
  {
    hide IsScalar, IsHigh, IsLow, Low16;
    LowFits(c);
    UnitCode(Low16(c));
  }

  lemma LowFits(c: Code)
    requires c < 0x1_0000
    ensures (Low16(c) as Code) == c
  {
  }

  /** Valid text survives the way into UTF-16 and back. */
  lemma TextSurvives(text: seq<Byte>)
    requires Valid(text)
    ensures Encode(Codes(Decode(text))) == text
  {
    hide Encode, Codes, Decode, AllScalar, Flatten, Valid;
    ScalarsEncode(text);
    var scalars := Scalars(text);
    ScalarsAreCodes(scalars);
    DecodeEncode(scalars);
    CodesFlatten(scalars);
  }

  /** A valid display name is read back from the structure written for it exactly when it
      has at most 127 units and none of them is zero. */
  lemma ItemRoundTrip(item: Content)
    requires Valid(item.displayName)
    ensures var units := Decode(item.displayName);
      DisplayName(Serialized(item)) == item.displayName <==> |units| <= MAX_CHARS && 0 !in units
  {
    hide Encode, Codes, Decode, UnitAt, Serialized, Valid;
    var units, back := Decode(item.displayName), Serialized(item);
    var got := NameUnits(back, 0);
    TextSurvives(item.displayName);
    UnitsSurvive(got);
    forall k | 0 <= k < |got| ensures k < |units| && k < MAX_CHARS && got[k] == units[k] && units[k] != 0 {
      NameUnitsAre(back, 0, k);
      SerializedUnit(item, k);
    }
    if |units| <= MAX_CHARS && 0 !in units {
      forall k | 0 <= k < |units| ensures UnitAt(back, 0 + k) == units[k] && units[k] != 0 { SerializedUnit(item, k); }
      SerializedUnit(item, |units|);
      NameUnitsOf(back, 0, units);
    } else if 0 in units {
      var z :| 0 <= z < |units| && units[z] == 0;
      assert |got| <= z;
    } else {
      assert got != [] ==> got[|got| - 1] == units[|got| - 1];
    }
  }
}
