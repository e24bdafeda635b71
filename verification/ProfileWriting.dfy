/** The profile-settings write: the values stored for the entries of a guest buffer, and
    what becomes of a setting that is read and then written back. */
module ProfileWriting {
  import opened Wrappers
  import opened GuestMemory
  import opened ProfileBuffer

  const CONTENT: nat := 0
  const UNSET: nat := 0xFF

  /** One value stored, by the id of its setting. */
  datatype Stored = Stored(id: nat, value: Value)

  predicate CarriesBytes(kind: nat) {
    HasData(kind) || kind == CONTENT
  }

  function ByteFrom(m: Memory, pointer: nat, b: nat): nat {
    if pointer == 0 then 0 else Read8(m, pointer + b)
  }

  /** The bytes at a pointer; zeros when it is null. */
  function BytesAt(m: Memory, pointer: nat, size: nat): (bytes: seq<nat>)
    ensures |bytes| == size
  {
    seq<nat>(size, b requires 0 <= b < size => ByteFrom(m, pointer, b))
  }

  function ValueAt(m: Memory, entry: nat, id: nat, kind: nat): Value {
    if CarriesBytes(kind) then
      var size := Read32(m, entry + 0x20);
      Value(kind, 0, BytesAt(m, Read32(m, entry + 0x24), if size > MaxSize(id) then MaxSize(id) else size))
    else if IsWideScalar(kind) then Value(kind, Read64(m, entry + 0x20), [])
    else Value(kind, Read32(m, entry + 0x20), [])
  }

  /** What one entry stores; nothing when it is marked unset or is not of its id's type. */
  function Taken(m: Memory, entry: nat): Option<Stored> {
    var id, kind := Read32(m, entry + 0x10), Read8(m, entry + 0x18);
    if kind == UNSET || kind != TypeOf(id) then None else Some(Stored(id, ValueAt(m, entry, id, kind)))
  }

  /** What the first `n` entries store, in order. */
  function AllTaken(m: Memory, entries: nat, n: nat): seq<Stored> {
    if n == 0 then []
    else
      var last := Taken(m, entries + (n - 1) * SETTING_SIZE);
      AllTaken(m, entries, n - 1) + (if last.None? then [] else [last.value])
  }

  method CopyBytes(guest: Guest, pointer: nat, size: nat) returns (bytes: seq<nat>)
    ensures bytes == BytesAt(guest.bytes, pointer, size)
  {
    hide Read8;
    if pointer == 0 {
      return BytesAt(guest.bytes, 0, size);
    }
    bytes := [];
    var b := 0;
    while b < size
      invariant 0 <= b <= size && |bytes| == b
      invariant forall j :: 0 <= j < b ==> bytes[j] == Read8(guest.bytes, pointer + j)
    {
      bytes := bytes + [Read8(guest.bytes, pointer + b)];
      b := b + 1;
    }
  }

  method TakeEntry(guest: Guest, entry: nat) returns (r: Option<Stored>)
    ensures r == Taken(guest.bytes, entry)
  {
    hide Read8, Read32, Read64, BytesAt, TypeOf, MaxSize;
    var id := Read32(guest.bytes, entry + 0x10);
    var kind := Read8(guest.bytes, entry + 0x18);
    if kind == UNSET || kind != TypeOf(id) {
      return None;
    }
    if HasData(kind) || kind == CONTENT {
      var size := Read32(guest.bytes, entry + 0x20);
      if size > MaxSize(id) { size := MaxSize(id); }
      var bytes := CopyBytes(guest, Read32(guest.bytes, entry + 0x24), size);
      return Some(Stored(id, Value(kind, 0, bytes)));
    }
    if IsWideScalar(kind) {
      return Some(Stored(id, Value(kind, Read64(guest.bytes, entry + 0x20), [])));
    }
    return Some(Stored(id, Value(kind, Read32(guest.bytes, entry + 0x20), [])));
  }

  datatype WriteResult = Written | BadArguments | NoUser | NotSaved

  /** The whole call; `saves` says which values the host manages to keep.  All of them are
      handed over even when one is not. */
  method WriteProfileSettings(guest: Guest, userIndex: nat, count: nat, entries: nat, users: Users,
                              saves: Stored -> bool)
    returns (result: WriteResult, stored: seq<Stored>)
    ensures result == BadArguments <==> count == 0 || entries == 0
    ensures result == NoUser <==>
      count != 0 && entries != 0 && !(userIndex < USERS && userIndex < |users| && users[userIndex].Some?)
    ensures stored == if result == BadArguments || result == NoUser then [] else AllTaken(guest.bytes, entries, count)
    ensures result == NotSaved <==> exists s :: s in stored && !saves(s)
  {
    hide Taken;
    stored := [];
    if count == 0 || entries == 0 {
      return BadArguments, [];
    }
    if userIndex >= USERS || userIndex >= |users| || users[userIndex].None? {
      return NoUser, [];
    }
    result := Written;
    var i := 0;
    while i < count
      invariant 0 <= i <= count && stored == AllTaken(guest.bytes, entries, i)
      invariant result == Written || result == NotSaved
      invariant result == NotSaved <==> exists s :: s in stored && !saves(s)
    {
      var one := TakeEntry(guest, entries + i * SETTING_SIZE);
      if one.Some? {
        stored := stored + [one.value];
        if !saves(one.value) { result := NotSaved; }
      }
      i := i + 1;
    }
  }

  // ------------------------------------------------------ an entry, field by field

  /** A value as the store keeps it: bytes for data, bits of its width for a scalar. */
  predicate Proper(v: Value) {
    && v.kind <= DATETIME
    && (forall b :: 0 <= b < |v.bytes| ==> v.bytes[b] < 256)
    && (if CarriesBytes(v.kind) then v.bits == 0
        else v.bytes == [] && v.bits < (if IsWideScalar(v.kind) then TWO_64 else TWO_32))
  }

  lemma FieldIs(m: Memory, buffer: nat, items: seq<Item>, k: nat, j: nat)
    requires LaidOut(m, buffer, items) && k < |items| && j < SETTING_WORDS
    ensures Read32(m, buffer + 8 + 40 * k + 4 * j) == EntryWords(items[k], DataAt(buffer, items, k))[j]
  {
    hide EntryWords, DataAt, Read32;
    assert EntryOk(m, buffer, items, k);
    assert Words(m, EntryAt(buffer, k), SETTING_WORDS)[j] == Read32(m, EntryAt(buffer, k) + 4 * j);
  }

  lemma FirstByteOf(m: Memory, a: nat, kind: nat)
    requires Read32(m, a) == kind * 0x100_0000 && kind < 256
    ensures Read8(m, a) == kind
  {
    hide Read8;
  }

  /** The fields of an entry the query laid out, at the offsets the structure gives them. */
  lemma EntryFields(m: Memory, buffer: nat, items: seq<Item>, k: nat)
    requires LaidOut(m, buffer, items) && k < |items|
    requires items[k].value.Some? ==> Proper(items[k].value.value)
    ensures var entry, item := buffer + 8 + 40 * k, items[k];
      && Read32(m, entry + 0x10) == item.id % TWO_32
      && Read32(m, entry) == (if item.value.None? then 0
                              else if 0x3F00 <= item.id % 0x4000 <= 0x3FFF then 2 else 1)
      && Read8(m, entry + 0x18) == (if item.value.None? then 0 else item.value.value.kind)
      && (match item.owner
          case User(index) => Read32(m, entry + 8) == index % TWO_32 && Read32(m, entry + 0xC) == 0
          case Xuid(xuid) => Read64(m, entry + 8) == xuid % TWO_64)
      && Read32(m, entry + 4) == Read32(m, entry + 0x14) == Read32(m, entry + 0x1C) == 0
  {
    hide LaidOut, Read32, Read8, DataAt, ValueWords, TitleSpecific;
    var entry := buffer + 8 + 40 * k;
    FieldIs(m, buffer, items, k, 0);
    FieldIs(m, buffer, items, k, 2);
    FieldIs(m, buffer, items, k, 3);
    FieldIs(m, buffer, items, k, 4);
    FieldIs(m, buffer, items, k, 6);
    FieldIs(m, buffer, items, k, 1);
    FieldIs(m, buffer, items, k, 5);
    FieldIs(m, buffer, items, k, 7);
    FirstByteOf(m, entry + 0x18, if items[k].value.None? then 0 else items[k].value.value.kind);
    TitleOwn(items[k].id);
    if items[k].owner.Xuid? { HighAndLow(items[k].owner.xuid); }
  }

  /** The header: how many entries, and where the first one is. */
  lemma HeaderFields(m: Memory, buffer: nat, items: seq<Item>)
    requires LaidOut(m, buffer, items)
    ensures Read32(m, buffer) == |items| % TWO_32 && Read32(m, buffer + 4) == (buffer + 8) % TWO_32
  {
    hide Read32;
    assert Words(m, buffer, 2)[0] == Read32(m, buffer) && Words(m, buffer, 2)[1] == Read32(m, buffer + 4);
  }

  /** The `k`-th item of a request, profile by profile and each in the order of the ids:
      whose it is, and what the store has for it. */
  lemma ItemIs(m: Memory, r: Request, users: Users, store: Store, p: nat, i: nat, k: nat)
    requires AllPresent(m, r, users) && i < r.settingCount && k == p * r.settingCount + i
    requires p < (if r.xuidCount == 0 then 1 else r.xuidCount)
    ensures var items, id := ItemsOf(m, r, users, store), Read32(m, r.settingIds + 4 * i);
      && k < |items|
      && (if r.xuidCount == 0 then
            r.userIndex < |users| && users[r.userIndex].Some?
            && items[k] == Item(id, User(r.userIndex), store(users[r.userIndex].value, r.titleId, id))
          else
            var xuid := Read64(m, r.xuids + 8 * p);
            SignedIn(users, xuid) && items[k] == Item(id, Xuid(xuid), store(xuid, r.titleId, id)))
  {
    hide Read32, Read64, Rows, SignedIn;
    RowsAt(r, XuidsOf(m, r, users), IdsOf(m, r), store, p, i);
  }

  /** As many items as profiles times ids. */
  lemma ItemCount(m: Memory, r: Request, users: Users, store: Store)
    requires AllPresent(m, r, users)
    ensures |ItemsOf(m, r, users, store)| == (if r.xuidCount == 0 then 1 else r.xuidCount) * r.settingCount
  {
    hide AllPresent, XuidsOf, IdsOf, Rows;
  }

  lemma TitleOwn(id: nat)
    ensures TitleSpecific(id) <==> 0x3F00 <= id % 0x4000 <= 0x3FFF
  {
  }

  lemma HighAndLow(v: nat)
    ensures High32(v) * TWO_32 + Low32(v) == v % TWO_64
  {
  }

  // ------------------------------------------------------------- there and back

  /** A setting a read hands out whole and a write takes as it was. */
  predicate Survives(id: nat, v: Value) {
    if HasData(v.kind) then |v.bytes| <= MaxSize(id) else if v.kind == CONTENT then v.bytes == [] else true
  }

  /** What is stored when a value that was read is written back. */
  function Returned(id: nat, v: Value): Value {
    if HasData(v.kind) && |v.bytes| > MaxSize(id) then v.(bytes := v.bytes[..MaxSize(id)])
    else if v.kind == CONTENT then v.(bytes := [])
    else v
  }

  lemma ValueFields(m: Memory, buffer: nat, items: seq<Item>, k: nat)
    requires LaidOut(m, buffer, items) && k < |items| && items[k].value.Some?
    ensures var entry, v := buffer + 8 + 40 * k, items[k].value.value;
      && (HasData(v.kind) ==>
            && Read32(m, entry + 0x20) == BlockSize(items[k])
            && Read32(m, entry + 0x24)
               == if BlockSize(items[k]) == 0 then 0 else Low32(DataAt(buffer, items, k)))
      && (IsWideScalar(v.kind) ==> Read64(m, entry + 0x20) == v.bits % TWO_64)
      && (!HasData(v.kind) && !IsWideScalar(v.kind) ==>
            Read32(m, entry + 0x20) == v.bits % TWO_32 && Read32(m, entry + 0x24) == 0)
  {
    hide LaidOut, Read32, DataAt, BlockSize, TitleSpecific;
    FieldIs(m, buffer, items, k, 8);
    FieldIs(m, buffer, items, k, 9);
    HighAndLow(items[k].value.value.bits);
  }

  /** The bytes behind the pointer of a data entry are its value's. */
  lemma BytesBack(m: Memory, buffer: nat, items: seq<Item>, k: nat)
    requires LaidOut(m, buffer, items) && k < |items| && DataAt(buffer, items, |items|) <= TWO_32
    requires items[k].value.Some? && HasData(items[k].value.value.kind) && Proper(items[k].value.value)
    ensures var v, n := items[k].value.value, BlockSize(items[k]);
      BytesAt(m, Read32(m, buffer + 8 + 40 * k + 0x24), n) == v.bytes[..n]
  {
    hide LaidOut, Read32, Read8, DataAt, EntryAt, BlockSize;
    var v, n := items[k].value.value, BlockSize(items[k]);
    var pointer := Read32(m, buffer + 8 + 40 * k + 0x24);
    ValueFields(m, buffer, items, k);
    EntryPlace(buffer, k);
    Places(buffer, items, k, k + 1);
    forall b | 0 <= b < n ensures BytesAt(m, pointer, n)[b] == v.bytes[b] {
      PointerLeadsToData(m, buffer, items, k, b);
      PointerIsSet(buffer, items, k);
    }
  }

  lemma EntryPlace(buffer: nat, k: nat)
    ensures EntryAt(buffer, k) == buffer + 8 + 40 * k && EntryAt(buffer, k) + SETTING_SIZE == EntryAt(buffer, k + 1)
  {
  }

  lemma PointerIsSet(buffer: nat, items: seq<Item>, k: nat)
    requires k < |items| && DataAt(buffer, items, |items|) <= TWO_32 && BlockSize(items[k]) > 0
    ensures 0 < DataAt(buffer, items, k) < TWO_32
  {
    hide EntryAt, BlockSize;
    EntryPlace(buffer, |items|);
    Places(buffer, items, k, k + 1);
    ItemPlaces(buffer, items, k);
  }

  /** An entry laid out for a value of its id's type is stored back as that value, but for
      data cut to the size the id declares, and for content, of which nothing is left. */
  lemma TakenBack(m: Memory, buffer: nat, items: seq<Item>, k: nat)
    requires LaidOut(m, buffer, items) && k < |items| && DataAt(buffer, items, |items|) <= TWO_32
    requires var item := items[k];
      item.id < TWO_32 && item.value.Some? && Proper(item.value.value) && item.value.value.kind == TypeOf(item.id)
    ensures var item := items[k];
      Taken(m, buffer + 8 + 40 * k) == Some(Stored(item.id, Returned(item.id, item.value.value)))
  {
    hide LaidOut, Read32, Read64, Read8, DataAt, BytesAt, TypeOf, MaxSize;
    EntryFields(m, buffer, items, k);
    ValueFields(m, buffer, items, k);
    var v, id := items[k].value.value, items[k].id;
    if HasData(v.kind) {
      BytesBack(m, buffer, items, k);
      assert v.bytes[..|v.bytes|] == v.bytes;
    }
  }

  /** An entry is skipped when its value is not of its id's type; one without a value reads
      as content, and is skipped exactly when its id is of another type. */
  lemma SkippedBack(m: Memory, buffer: nat, items: seq<Item>, k: nat)
    requires LaidOut(m, buffer, items) && k < |items| && items[k].id < TWO_32
    requires items[k].value.Some? ==> Proper(items[k].value.value)
    ensures Taken(m, buffer + 8 + 40 * k).None?
       <==> TypeOf(items[k].id) != (if items[k].value.None? then CONTENT else items[k].value.value.kind)
  {
    hide LaidOut, Read32, Read64, Read8, TypeOf, MaxSize, ValueAt;
    EntryFields(m, buffer, items, k);
  }

  lemma ReturnedSame(id: nat, v: Value)
    ensures Returned(id, v) == v <==> Survives(id, v)
  {
  }

  /** Reading a setting and writing it back changes nothing exactly when the value is no
      longer than its id declares and no content but the empty one. */
  lemma ReadWriteBack(m: Memory, buffer: nat, items: seq<Item>, k: nat)
    requires LaidOut(m, buffer, items) && k < |items| && DataAt(buffer, items, |items|) <= TWO_32
    requires var item := items[k];
      item.id < TWO_32 && item.value.Some? && Proper(item.value.value) && item.value.value.kind == TypeOf(item.id)
    ensures var item := items[k];
      Taken(m, buffer + 8 + 40 * k) == Some(Stored(item.id, item.value.value))
      <==> (HasData(TypeOf(item.id)) ==> |item.value.value.bytes| <= MaxSize(item.id))
           && (TypeOf(item.id) == CONTENT ==> item.value.value.bytes == [])
  {
    hide LaidOut, DataAt, Proper, TypeOf, MaxSize, Taken, Returned;
    TakenBack(m, buffer, items, k);
    ReturnedSame(items[k].id, items[k].value.value);
  }

  /** The settings of a whole result that have a value, as they are stored. */
  function ReturnedAll(items: seq<Item>, n: nat): seq<Stored>
    requires n <= |items|
  {
    if n == 0 then []
    else
      ReturnedAll(items, n - 1)
      + if items[n - 1].value.None? then []
        else [Stored(items[n - 1].id, Returned(items[n - 1].id, items[n - 1].value.value))]
  }

  /** Every item has a value of its id's type, or none and an id that is not of content. */
  predicate Typed(items: seq<Item>) {
    forall k :: 0 <= k < |items| ==>
      && items[k].id < TWO_32
      && (items[k].value.Some? ==> Proper(items[k].value.value) && items[k].value.value.kind == TypeOf(items[k].id))
      && (items[k].value.None? ==> TypeOf(items[k].id) != CONTENT)
  }

  /** A whole result handed back to the write stores the settings that were read, in order. */
  lemma {:induction false} AllReturned(m: Memory, buffer: nat, items: seq<Item>, n: nat)
    requires LaidOut(m, buffer, items) && Typed(items) && DataAt(buffer, items, |items|) <= TWO_32 && n <= |items|
    ensures AllTaken(m, buffer + HEADER_SIZE, n) == ReturnedAll(items, n)
  {
    hide LaidOut, DataAt, Taken, Returned, Proper, TypeOf;
    if n > 0 {
      AllReturned(m, buffer, items, n - 1);
      assert buffer + HEADER_SIZE + (n - 1) * SETTING_SIZE == buffer + 8 + 40 * (n - 1);
      if items[n - 1].value.Some? { TakenBack(m, buffer, items, n - 1); } else { SkippedBack(m, buffer, items, n - 1); }
    }
  }

  /** A content setting of one byte, read and written back: nothing of it is left. */
  lemma ContentIsLost(m: Memory, buffer: nat, owner: Owner)
    requires var items := [Item(0x4_0001, owner, Some(Value(CONTENT, 0, [7])))];
      LaidOut(m, buffer, items) && DataAt(buffer, items, 1) <= TWO_32
    ensures Taken(m, buffer + 8) == Some(Stored(0x4_0001, Value(CONTENT, 0, [])))
  {
    hide LaidOut, DataAt, Taken;
    TakenBack(m, buffer, [Item(0x4_0001, owner, Some(Value(CONTENT, 0, [7])))], 0);
  }
}
