/** The profile-settings query: its parameter checks and the result buffer it lays out. */
module ProfileBuffer {
  import opened Arithmetic
  import opened Wrappers
  import opened GuestMemory

  const HEADER_SIZE: nat := 8
  const SETTING_SIZE: nat := 40
  const SETTING_WORDS: nat := 10
  const MAX_SETTINGS: nat := 32
  const MAX_PROFILES: nat := 4
  const USERS: nat := 4

  const INT64: nat := 2
  const DOUBLE: nat := 3
  const WSTRING: nat := 4
  const BINARY: nat := 6
  const DATETIME: nat := 7

  // ---------------------------------------------------------------- setting ids

  function TypeOf(id: nat): nat {
    id / 0x1000_0000 % 16
  }

  function MaxSize(id: nat): (n: nat)
    ensures n < 0x1000
  {
    id / TWO_16 % 0x1000
  }

  /** Bits eight to thirteen are all set. */
  predicate TitleSpecific(id: nat) {
    id / 0x100 % 0x40 == 0x3F
  }

  /** An id is its type, its size and its number side by side, and nothing else; the title's
      own are the numbers 0x3F00 to 0x3FFF, whatever the two bits above them. */
  lemma IdParts(kind: nat, size: nat, top: nat, number: nat)
    requires kind < 16 && size < 0x1000 && top < 4 && number < 0x4000
    ensures var id := kind * 0x1000_0000 + size * 0x1_0000 + top * 0x4000 + number;
      && id < TWO_32 && TypeOf(id) == kind && MaxSize(id) == size
      && (TitleSpecific(id) <==> 0x3F00 <= number <= 0x3FFF)
  {
    var id := kind * 0x1000_0000 + size * 0x1_0000 + top * 0x4000 + number;
    HighDigit(kind, 0x1000_0000, size * 0x1_0000 + top * 0x4000 + number);
    HighDigit(kind * 0x1000 + size, TWO_16, top * 0x4000 + number);
    HighDigit(kind, 0x1000, size);
    var above, page := kind * 0x4000 + size * 4 + top, number / 0x100;
    HighDigit(above * 0x40 + page, 0x100, number % 0x100);
    HighDigit(above, 0x40, page);
  }

  lemma HighDigit(high: nat, unit: nat, low: nat)
    requires low < unit
    ensures (high * unit + low) / unit == high && (high * unit + low) % unit == low
  {
    QuotientIs(high * unit + low, unit, high, low);
  }

  lemma PartsOfId(id: nat)
    requires id < TWO_32
    ensures TypeOf(id) < 16
    ensures id == TypeOf(id) * 0x1000_0000 + MaxSize(id) * 0x1_0000 + id % 0x1_0000
  {
  }

  predicate HasData(kind: nat) {
    kind == WSTRING || kind == BINARY
  }

  predicate IsWideScalar(kind: nat) {
    kind == INT64 || kind == DOUBLE || kind == DATETIME
  }

  /** The data a setting can need, as its id declares. */
  function Budget(id: nat): (n: nat)
    ensures n < 0x1000
  {
    if HasData(TypeOf(id)) then MaxSize(id) else 0
  }

  function DataSize(ids: seq<nat>): nat {
    if ids == [] then 0 else DataSize(ids[..|ids| - 1]) + Budget(ids[|ids| - 1])
  }

  function Needed(profiles: nat, ids: seq<nat>): nat {
    HEADER_SIZE + profiles * (|ids| * SETTING_SIZE + DataSize(ids))
  }

  // --------------------------------------------------------------------- requests

  datatype Request = Request(
    titleId: nat, userIndex: nat, xuidCount: nat, xuids: nat, settingCount: nat, settingIds: nat,
    bufferSizePtr: nat, buffer: nat)

  function Profiles(r: Request): (n: nat)
    ensures n > 0
  {
    if r.xuidCount == 0 then 1 else r.xuidCount
  }

  function IdsOf(m: Memory, r: Request): (ids: seq<nat>)
    ensures |ids| == r.settingCount
  {
    Words(m, r.settingIds, r.settingCount)
  }

  datatype Result = Success | InvalidParameter | InsufficientBuffer | NoSuchUser

  predicate BadParameters(m: Memory, r: Request) {
    || r.settingCount < 1 || r.settingCount > MAX_SETTINGS || r.settingIds == 0 || r.bufferSizePtr == 0
    || (r.xuidCount != 0 && r.xuids == 0) || r.xuidCount > MAX_PROFILES
    || (Read32(m, r.bufferSizePtr) != 0 && r.buffer == 0)
  }

  predicate TooSmall(m: Memory, r: Request) {
    r.buffer == 0 || Read32(m, r.bufferSizePtr) < Needed(Profiles(r), IdsOf(m, r))
  }

  /** Signed-in users by index, and their XUIDs. */
  type Users = seq<Option<nat>>

  predicate SignedIn(users: Users, xuid: nat) {
    exists i :: 0 <= i < |users| && users[i] == Some(xuid)
  }

  function XuidAt(m: Memory, r: Request, p: nat): nat {
    Read64(m, r.xuids + 8 * p)
  }

  /** Every profile asked for is there. */
  predicate AllPresent(m: Memory, r: Request, users: Users) {
    if r.xuidCount == 0 then r.userIndex < USERS && r.userIndex < |users| && users[r.userIndex].Some?
    else forall p :: 0 <= p < r.xuidCount ==> SignedIn(users, XuidAt(m, r, p))
  }

  // ------------------------------------------------------------------------ layout

  datatype Value = Value(kind: nat, bits: nat, bytes: seq<nat>)

  /** The settings store: a value for a profile, a title and a setting, or none. */
  type Store = (nat, nat, nat) -> Option<Value>

  datatype Owner = User(index: nat) | Xuid(xuid: nat)

  datatype Item = Item(id: nat, owner: Owner, value: Option<Value>)

  function BlockSize(item: Item): (n: nat)
    ensures n <= Budget(item.id)
    ensures n > 0 ==> item.value.Some? && n <= |item.value.value.bytes|
  {
    if item.value.Some? && HasData(item.value.value.kind) then
      (if |item.value.value.bytes| < Budget(item.id) then |item.value.value.bytes| else Budget(item.id))
    else 0
  }

  function High32(v: nat): (r: nat)
    ensures r < TWO_32
  {
    v / TWO_32 % TWO_32
  }

  function Low32(v: nat): (r: nat)
    ensures r < TWO_32
  {
    v % TWO_32
  }

  function OwnerWords(o: Owner): (nat, nat) {
    match o
    case User(i) => (Low32(i), 0)
    case Xuid(x) => (High32(x), Low32(x))
  }

  /** A value's two words: size and pointer, a wide scalar, or a narrow one. */
  function ValueWords(item: Item, data: nat): (nat, nat) {
    if item.value.None? then (0, 0)
    else
      var v := item.value.value;
      if HasData(v.kind) then (BlockSize(item), if BlockSize(item) == 0 then 0 else Low32(data))
      else if IsWideScalar(v.kind) then (High32(v.bits), Low32(v.bits))
      else (Low32(v.bits), 0)
  }

  /** The ten words of an entry whose data starts at `data`. */
  function EntryWords(item: Item, data: nat): (w: seq<nat>)
    ensures |w| == SETTING_WORDS
  {
    var source := if item.value.None? then 0 else if TitleSpecific(item.id) then 2 else 1;
    var kind := if item.value.None? then 0 else item.value.value.kind % 256;
    var (o0, o1) := OwnerWords(item.owner);
    var (v0, v1) := ValueWords(item, data);
    [source, 0, o0, o1, Low32(item.id), 0, kind * 0x100_0000, 0, v0, v1]
  }

  /** Sizes of the first `k` data blocks together. */
  function Before(items: seq<Item>, k: nat): nat
    requires k <= |items|
  {
    if k == 0 then 0 else Before(items, k - 1) + BlockSize(items[k - 1])
  }

  function EntryAt(buffer: nat, k: nat): nat {
    buffer + HEADER_SIZE + k * SETTING_SIZE
  }

  function DataAt(buffer: nat, items: seq<Item>, k: nat): nat
    requires k <= |items|
  {
    EntryAt(buffer, |items|) + Before(items, k)
  }

  /** A data block holds the first bytes of its value. */
  predicate BlockOk(m: Memory, item: Item, data: nat) {
    forall b :: 0 <= b < BlockSize(item) ==> Read8(m, data + b) == item.value.value.bytes[b] % 256
  }

  predicate EntryOk(m: Memory, buffer: nat, items: seq<Item>, k: nat)
    requires k < |items|
  {
    && Words(m, EntryAt(buffer, k), SETTING_WORDS) == EntryWords(items[k], DataAt(buffer, items, k))
    && BlockOk(m, items[k], DataAt(buffer, items, k))
  }

  predicate HeaderOk(m: Memory, buffer: nat, entries: nat) {
    Words(m, buffer, 2) == [Low32(entries), Low32(buffer + HEADER_SIZE)]
  }

  /** The whole result: the header and every entry with its data. */
  predicate LaidOut(m: Memory, buffer: nat, items: seq<Item>) {
    HeaderOk(m, buffer, |items|) && forall k :: 0 <= k < |items| ==> EntryOk(m, buffer, items, k)
  }

  function OwnerOf(r: Request, xuid: nat): Owner {
    if r.xuidCount == 0 then User(r.userIndex) else Xuid(xuid)
  }

  /** One profile's items, in the order of the ids. */
  function Row(r: Request, xuid: nat, ids: seq<nat>, store: Store): (row: seq<Item>)
    ensures |row| == |ids|
  {
    seq(|ids|, i requires 0 <= i < |ids| => Item(ids[i], OwnerOf(r, xuid), store(xuid, r.titleId, ids[i])))
  }

  /** Every profile's items, profile by profile. */
  function Rows(r: Request, xuids: seq<nat>, ids: seq<nat>, store: Store): (rows: seq<Item>)
    ensures |rows| == |xuids| * |ids|
  {
    if xuids == [] then []
    else
      RowsCount(|xuids|, |ids|);
      Rows(r, xuids[..|xuids| - 1], ids, store) + Row(r, xuids[|xuids| - 1], ids, store)
  }

  lemma RowsCount(n: nat, count: nat)
    requires n > 0
    ensures n * count == (n - 1) * count + count
  {
  }

  function XuidsOf(m: Memory, r: Request, users: Users): (xuids: seq<nat>)
    requires AllPresent(m, r, users)
    ensures |xuids| == Profiles(r)
  {
    if r.xuidCount == 0 then [users[r.userIndex].value]
    else seq<nat>(r.xuidCount, p requires 0 <= p < r.xuidCount => XuidAt(m, r, p))
  }

  function ItemsOf(m: Memory, r: Request, users: Users, store: Store): seq<Item>
    requires AllPresent(m, r, users)
  {
    Rows(r, XuidsOf(m, r, users), IdsOf(m, r), store)
  }

  // --------------------------------------------------------- sizes of the layout

  lemma {:induction false} BeforeMonotone(items: seq<Item>, j: nat, k: nat)
    requires j <= k <= |items|
    ensures Before(items, j) <= Before(items, k)
    decreases k
  {
    hide BlockSize;
    if j < k { BeforeMonotone(items, j, k - 1); }
  }

  lemma {:induction false} BeforePrefix(a: seq<Item>, b: seq<Item>, k: nat)
    requires k <= |a|
    ensures Before(a + b, k) == Before(a, k)
  {
    hide BlockSize;
    if k > 0 { BeforePrefix(a, b, k - 1); }
  }

  lemma {:induction false} BeforeRow(a: seq<Item>, r: Request, xuid: nat, ids: seq<nat>, store: Store, i: nat)
    requires i <= |ids|
    ensures Before(a + Row(r, xuid, ids, store), |a| + i) <= Before(a, |a|) + DataSize(ids[..i])
  {
    hide BlockSize, Budget;
    var row := Row(r, xuid, ids, store);
    if i == 0 {
      BeforePrefix(a, row, |a|);
    } else {
      BeforeRow(a, r, xuid, ids, store, i - 1);
      assert (a + row)[|a| + i - 1] == row[i - 1];
      assert ids[..i][..i - 1] == ids[..i - 1];
      BlockSizeBound(row[i - 1]);
    }
  }

  lemma BlockSizeBound(item: Item)
    ensures BlockSize(item) <= Budget(item.id)
  {
  }

  /** All data blocks together fit the size the ids declare. */
  lemma {:induction false} DataFits(r: Request, xuids: seq<nat>, ids: seq<nat>, store: Store)
    ensures Before(Rows(r, xuids, ids, store), |xuids| * |ids|) <= |xuids| * DataSize(ids)
    decreases |xuids|
  {
    hide DataSize, Row, BlockSize;
    if xuids != [] {
      var n := |xuids|;
      var fewer := Rows(r, xuids[..n - 1], ids, store);
      DataFits(r, xuids[..n - 1], ids, store);
      BeforeRow(fewer, r, xuids[n - 1], ids, store, |ids|);
      assert ids[..|ids|] == ids;
      RowsCount(n, |ids|);
      RowsCount(n, DataSize(ids));
    }
  }

  /** The layout's end lies within the size computed for it. */
  lemma LayoutFits(m: Memory, r: Request, users: Users, store: Store)
    requires AllPresent(m, r, users)
    ensures var items := ItemsOf(m, r, users, store);
      |items| == Profiles(r) * r.settingCount
      && DataAt(r.buffer, items, |items|) <= r.buffer + Needed(Profiles(r), IdsOf(m, r))
  {
    hide DataSize, IdsOf, XuidsOf, Rows, Before;
    var xuids, ids := XuidsOf(m, r, users), IdsOf(m, r);
    DataFits(r, xuids, ids, store);
    Distributes(Profiles(r), |ids|, DataSize(ids));
  }

  lemma Distributes(n: nat, count: nat, data: nat)
    ensures n * (count * SETTING_SIZE + data) == (n * count) * SETTING_SIZE + n * data
  {
    assert n * (count * SETTING_SIZE) == (n * count) * SETTING_SIZE;
    assert n * (count * SETTING_SIZE + data) == n * (count * SETTING_SIZE) + n * data;
  }

  // --------------------------------------------------------------------- writing

  method PutWord(guest: Guest, entry: nat, k: nat, v: nat)
    requires k < SETTING_WORDS && entry + SETTING_SIZE <= TWO_32
    modifies guest
    ensures Words(guest.bytes, entry, SETTING_WORDS) == Words(old(guest.bytes), entry, SETTING_WORDS)[k := Low32(v)]
    ensures OnlyInside(old(guest.bytes), guest.bytes, entry, entry + SETTING_SIZE)
  {
    hide Words, Read8, Write32;
    WriteWord(guest.bytes, entry, SETTING_WORDS, k, v);
    Frame32(guest.bytes, entry + 4 * k, v);
    guest.bytes := Write32(guest.bytes, entry + 4 * k, v);
  }

  method PutLong(guest: Guest, entry: nat, k: nat, v: nat)
    requires k + 1 < SETTING_WORDS && entry + SETTING_SIZE <= TWO_32
    modifies guest
    ensures Words(guest.bytes, entry, SETTING_WORDS)
         == Words(old(guest.bytes), entry, SETTING_WORDS)[k := High32(v)][k + 1 := Low32(v)]
    ensures OnlyInside(old(guest.bytes), guest.bytes, entry, entry + SETTING_SIZE)
  {
    hide Words, Read8, Write64;
    WriteWords64(guest.bytes, entry, SETTING_WORDS, k, v);
    guest.bytes := Write64(guest.bytes, entry + 4 * k, v);
  }

  method PutKind(guest: Guest, entry: nat, k: nat, v: nat)
    requires k < SETTING_WORDS && entry + SETTING_SIZE <= TWO_32
    requires Words(guest.bytes, entry, SETTING_WORDS)[k] == 0
    modifies guest
    ensures Words(guest.bytes, entry, SETTING_WORDS)
         == Words(old(guest.bytes), entry, SETTING_WORDS)[k := v % 256 * 0x100_0000]
    ensures OnlyInside(old(guest.bytes), guest.bytes, entry, entry + SETTING_SIZE)
  {
    hide Words, Read8, Write8;
    WriteFirstByte(guest.bytes, entry, SETTING_WORDS, k, v);
    Frame8(guest.bytes, entry + 4 * k, v);
    guest.bytes := Write8(guest.bytes, entry + 4 * k, v);
  }

  function ZeroWords(n: nat): (w: seq<nat>)
    ensures |w| == n
  {
    seq<nat>(n, _ => 0)
  }

  method ClearEntry(guest: Guest, entry: nat)
    requires entry + SETTING_SIZE <= TWO_32
    modifies guest
    ensures Words(guest.bytes, entry, SETTING_WORDS) == ZeroWords(SETTING_WORDS)
    ensures OnlyInside(old(guest.bytes), guest.bytes, entry, entry + SETTING_SIZE)
  {
    hide Words;
    var b := 0;
    while b < SETTING_SIZE
      invariant 0 <= b <= SETTING_SIZE && b % 4 == 0
      invariant forall j :: 0 <= j < b / 4 ==> Words(guest.bytes, entry, SETTING_WORDS)[j] == 0
      invariant OnlyInside(old(guest.bytes), guest.bytes, entry, entry + SETTING_SIZE)
    {
      PutWord(guest, entry, b / 4, 0);
      b := b + 4;
    }
    assert Words(guest.bytes, entry, SETTING_WORDS) == ZeroWords(SETTING_WORDS);
  }

  /** Owner and id; the rest stays zero. */
  method WriteOwner(guest: Guest, entry: nat, item: Item)
    requires entry + SETTING_SIZE <= TWO_32
    modifies guest
    ensures Words(guest.bytes, entry, SETTING_WORDS) == EntryWords(item.(value := None), 0)
    ensures OnlyInside(old(guest.bytes), guest.bytes, entry, entry + SETTING_SIZE)
  {
    hide Words, Low32, High32, OnlyInside;
    ghost var was := guest.bytes;
    ClearEntry(guest, entry);
    ghost var cleared := guest.bytes;
    match item.owner {
      case User(index) => PutWord(guest, entry, 2, index);
      case Xuid(xuid) => PutLong(guest, entry, 2, xuid);
    }
    InsideJoin(was, cleared, guest.bytes, entry, entry + SETTING_SIZE);
    ghost var owned := guest.bytes;
    PutWord(guest, entry, 4, item.id);
    InsideJoin(was, owned, guest.bytes, entry, entry + SETTING_SIZE);
    assert Words(guest.bytes, entry, SETTING_WORDS) == EntryWords(item.(value := None), 0);
  }

  /** Source, type and the value's words over an entry that has its owner. */
  method WriteValue(guest: Guest, entry: nat, item: Item, data: nat)
    requires entry + SETTING_SIZE <= TWO_32 && item.value.Some?
    requires Words(guest.bytes, entry, SETTING_WORDS) == EntryWords(item.(value := None), 0)
    modifies guest
    ensures Words(guest.bytes, entry, SETTING_WORDS) == EntryWords(item, data)
    ensures OnlyInside(old(guest.bytes), guest.bytes, entry, entry + SETTING_SIZE)
  {
    hide Words, High32, OnlyInside, BlockSize, TitleSpecific, HasData, IsWideScalar;
    var v := item.value.value;
    ghost var was := guest.bytes;
    PutWord(guest, entry, 0, if TitleSpecific(item.id) then 2 else 1);
    ghost var m1 := guest.bytes;
    PutKind(guest, entry, 6, v.kind);
    InsideJoin(was, m1, guest.bytes, entry, entry + SETTING_SIZE);
    ghost var m2 := guest.bytes;
    if HasData(v.kind) {
      var size := BlockSize(item);
      PutWord(guest, entry, 8, size);
      InsideJoin(was, m2, guest.bytes, entry, entry + SETTING_SIZE);
      ghost var m3 := guest.bytes;
      PutWord(guest, entry, 9, if size == 0 then 0 else data);
      InsideJoin(was, m3, guest.bytes, entry, entry + SETTING_SIZE);
    } else if IsWideScalar(v.kind) {
      PutLong(guest, entry, 8, v.bits);
      InsideJoin(was, m2, guest.bytes, entry, entry + SETTING_SIZE);
    } else {
      PutWord(guest, entry, 8, v.bits);
      InsideJoin(was, m2, guest.bytes, entry, entry + SETTING_SIZE);
    }
    assert Words(guest.bytes, entry, SETTING_WORDS) == EntryWords(item, data);
  }

  method WriteBlock(guest: Guest, data: nat, bytes: seq<nat>, size: nat)
    requires size <= |bytes| && data + size <= TWO_32
    modifies guest
    ensures forall b :: 0 <= b < size ==> Read8(guest.bytes, data + b) == bytes[b] % 256
    ensures OnlyInside(old(guest.bytes), guest.bytes, data, data + size)
  {
    hide Read8, Write8;
    var b := 0;
    while b < size
      invariant 0 <= b <= size
      invariant forall j :: 0 <= j < b ==> Read8(guest.bytes, data + j) == bytes[j] % 256
      invariant OnlyInside(old(guest.bytes), guest.bytes, data, data + size)
    {
      Frame8(guest.bytes, data + b, bytes[b]);
      guest.bytes := Write8(guest.bytes, data + b, bytes[b]);
      b := b + 1;
    }
  }

  /** One entry and its data. */
  method WriteEntry(guest: Guest, entry: nat, item: Item, data: nat) returns (next: nat)
    requires entry + SETTING_SIZE <= data && data + BlockSize(item) <= TWO_32
    modifies guest
    ensures next == data + BlockSize(item)
    ensures Words(guest.bytes, entry, SETTING_WORDS) == EntryWords(item, data)
    ensures BlockOk(guest.bytes, item, data)
    ensures forall a: nat ::
      (a < TWO_32 && !(entry <= a < entry + SETTING_SIZE) && !(data <= a < next))
      ==> Read8(guest.bytes, a) == Read8(old(guest.bytes), a)
  {
    hide Words, EntryWords, Read8;
    WriteOwner(guest, entry, item);
    next := data;
    if item.value.None? {
      NoValueWords(item, data);
      return;
    }
    WriteValue(guest, entry, item, data);
    if HasData(item.value.value.kind) {
      ghost var m := guest.bytes;
      WriteBlock(guest, data, item.value.value.bytes, BlockSize(item));
      SameWords(m, guest.bytes, entry, SETTING_WORDS);
      next := data + BlockSize(item);
    }
  }

  lemma NoValueWords(item: Item, data: nat)
    requires item.value.None?
    ensures EntryWords(item, data) == EntryWords(item.(value := None), 0)
  {
  }

  // ----------------------------------------------------------------- the whole call

  /** An entry and its block stay as they are when nothing in them changes. */
  lemma EntryKept(m: Memory, m': Memory, buffer: nat, items: seq<Item>, k: nat)
    requires k < |items| && EntryOk(m, buffer, items, k)
    requires Same(m, m', EntryAt(buffer, k), EntryAt(buffer, k + 1))
    requires Same(m, m', DataAt(buffer, items, k), DataAt(buffer, items, k + 1))
    ensures EntryOk(m', buffer, items, k)
  {
    hide Words, EntryWords, Read8, BlockSize;
    SameWords(m, m', EntryAt(buffer, k), SETTING_WORDS);
    var data := DataAt(buffer, items, k);
    assert DataAt(buffer, items, k + 1) == data + BlockSize(items[k]);
    forall b | 0 <= b < BlockSize(items[k]) ensures Read8(m', data + b) == items[k].value.value.bytes[b] % 256 {
      assert Read8(m', data + b) == Read8(m, data + b);
    }
  }

  /** Where entries and blocks lie: header, entries in order, blocks in order, the end. */
  lemma Places(buffer: nat, items: seq<Item>, j: nat, k: nat)
    requires j < k <= |items|
    ensures buffer + HEADER_SIZE <= EntryAt(buffer, j) < EntryAt(buffer, j + 1)
      <= EntryAt(buffer, k) <= DataAt(buffer, items, 0)
    ensures DataAt(buffer, items, 0) <= DataAt(buffer, items, j) <= DataAt(buffer, items, j + 1)
      <= DataAt(buffer, items, k)
    ensures DataAt(buffer, items, k) <= DataAt(buffer, items, |items|)
  {
    hide Before;
    BeforeMonotone(items, 0, j);
    BeforeMonotone(items, j, j + 1);
    BeforeMonotone(items, j + 1, k);
    BeforeMonotone(items, k, |items|);
    assert EntryAt(buffer, j + 1) == EntryAt(buffer, j) + SETTING_SIZE;
  }

  predicate Through(m: Memory, buffer: nat, items: seq<Item>, n: nat)
    requires n <= |items|
  {
    HeaderOk(m, buffer, |items|) && forall k :: 0 <= k < n ==> EntryOk(m, buffer, items, k)
  }

  method WriteItem(guest: Guest, buffer: nat, ghost items: seq<Item>, n: nat, item: Item, data: nat) returns (next: nat)
    requires n < |items| && items[n] == item && data == DataAt(buffer, items, n)
    requires DataAt(buffer, items, |items|) <= TWO_32 && Through(guest.bytes, buffer, items, n)
    modifies guest
    ensures Through(guest.bytes, buffer, items, n + 1) && next == DataAt(buffer, items, n + 1)
    ensures OnlyInside(old(guest.bytes), guest.bytes, buffer, DataAt(buffer, items, |items|))
  {
    hide Words, EntryWords, Read8, EntryOk, BlockOk, DataAt, EntryAt;
    ghost var was := guest.bytes;
    Places(buffer, items, n, n + 1);
    ItemPlaces(buffer, items, n);
    next := WriteEntry(guest, buffer + HEADER_SIZE + n * SETTING_SIZE, item, data);
    EntryIs(guest.bytes, buffer, items, n);
    SameWords(was, guest.bytes, buffer, 2);
    forall k | 0 <= k < n ensures EntryOk(guest.bytes, buffer, items, k) {
      Places(buffer, items, k, n);
      EntryKept(was, guest.bytes, buffer, items, k);
    }
  }

  lemma ItemPlaces(buffer: nat, items: seq<Item>, n: nat)
    requires n < |items|
    ensures EntryAt(buffer, n) == buffer + HEADER_SIZE + n * SETTING_SIZE
    ensures EntryAt(buffer, n) + SETTING_SIZE == EntryAt(buffer, n + 1) <= DataAt(buffer, items, n)
    ensures DataAt(buffer, items, n + 1) == DataAt(buffer, items, n) + BlockSize(items[n])
  {
  }

  lemma EntryIs(m: Memory, buffer: nat, items: seq<Item>, n: nat)
    requires n < |items|
    requires Words(m, EntryAt(buffer, n), SETTING_WORDS) == EntryWords(items[n], DataAt(buffer, items, n))
    requires BlockOk(m, items[n], DataAt(buffer, items, n))
    ensures EntryOk(m, buffer, items, n)
  {
  }

  method ReadIds(guest: Guest, r: Request) returns (ids: seq<nat>, dataSize: nat)
    ensures ids == IdsOf(guest.bytes, r) && dataSize == DataSize(ids)
  {
    hide Read32, Budget;
    ids, dataSize := [], 0;
    ghost var all := IdsOf(guest.bytes, r);
    var i := 0;
    while i < r.settingCount
      invariant 0 <= i <= r.settingCount && ids == all[..i] && dataSize == DataSize(ids)
    {
      var id := Read32(guest.bytes, r.settingIds + 4 * i);
      assert all[..i + 1] == all[..i] + [id];
      assert (ids + [id])[..i] == ids;
      if HasData(TypeOf(id)) { dataSize := dataSize + MaxSize(id); }
      BudgetIs(id);
      ids := ids + [id];
      i := i + 1;
    }
    assert all[..|all|] == all;
  }

  lemma BudgetIs(id: nat)
    ensures Budget(id) == if HasData(TypeOf(id)) then MaxSize(id) else 0
  {
  }

  /** The profiles asked for, or nothing when one of them is not there. */
  method FindProfiles(guest: Guest, r: Request, users: Users) returns (xuids: seq<nat>, ok: bool)
    ensures ok <==> AllPresent(guest.bytes, r, users)
    ensures ok ==> xuids == XuidsOf(guest.bytes, r, users)
  {
    hide Read64, SignedIn;
    xuids, ok := [], false;
    if r.xuidCount == 0 {
      if r.userIndex >= USERS || r.userIndex >= |users| || users[r.userIndex].None? {
        return;
      }
      return [users[r.userIndex].value], true;
    }
    var i := 0;
    while i < r.xuidCount
      invariant 0 <= i <= r.xuidCount && |xuids| == i
      invariant forall p :: 0 <= p < i ==> xuids[p] == XuidAt(guest.bytes, r, p) && SignedIn(users, xuids[p])
    {
      var xuid := Read64(guest.bytes, r.xuids + 8 * i);
      var found := HasUser(users, xuid);
      assert XuidAt(guest.bytes, r, i) == xuid;
      if !found {
        return;
      }
      xuids := xuids + [xuid];
      i := i + 1;
    }
    ok := true;
  }

  method HasUser(users: Users, xuid: nat) returns (found: bool)
    ensures found <==> SignedIn(users, xuid)
  {
    var i := 0;
    while i < |users|
      invariant 0 <= i <= |users| && forall j :: 0 <= j < i ==> users[j] != Some(xuid)
    {
      if users[i] == Some(xuid) {
        return true;
      }
      i := i + 1;
    }
    found := false;
  }

  lemma {:induction false} RowsPrefix(r: Request, xuids: seq<nat>, ids: seq<nat>, store: Store, p: nat)
    requires p <= |xuids|
    ensures Rows(r, xuids[..p], ids, store) <= Rows(r, xuids, ids, store)
    decreases |xuids|
  {
    hide Row;
    if p < |xuids| {
      var fewer := xuids[..|xuids| - 1];
      RowsPrefix(r, fewer, ids, store, p);
      assert fewer[..p] == xuids[..p];
    } else {
      assert xuids[..p] == xuids;
    }
  }

  /** The item of the `i`-th id for the `p`-th profile. */
  lemma RowsAt(r: Request, xuids: seq<nat>, ids: seq<nat>, store: Store, p: nat, i: nat)
    requires p < |xuids| && i < |ids|
    ensures p * |ids| + i < |Rows(r, xuids, ids, store)|
    ensures Rows(r, xuids, ids, store)[p * |ids| + i]
      == Item(ids[i], OwnerOf(r, xuids[p]), store(xuids[p], r.titleId, ids[i]))
  {
    hide OwnerOf;
    RowsPrefix(r, xuids, ids, store, p + 1);
    var upto := xuids[..p + 1];
    assert upto[..p] == xuids[..p];
    RowsCount(p + 1, |ids|);
    var row := Row(r, xuids[p], ids, store);
    assert Rows(r, upto, ids, store) == Rows(r, xuids[..p], ids, store) + row;
    assert Rows(r, upto, ids, store)[p * |ids| + i] == row[i];
  }

  method WriteHeader(guest: Guest, buffer: nat, ghost items: seq<Item>, entries: nat)
    requires entries == |items| && DataAt(buffer, items, |items|) <= TWO_32
    modifies guest
    ensures Through(guest.bytes, buffer, items, 0)
    ensures OnlyInside(old(guest.bytes), guest.bytes, buffer, DataAt(buffer, items, |items|))
  {
    hide Words, Read8, Write32;
    WriteWord(guest.bytes, buffer, 2, 0, entries);
    Frame32(guest.bytes, buffer, entries);
    guest.bytes := Write32(guest.bytes, buffer, entries);
    WriteWord(guest.bytes, buffer, 2, 1, buffer + HEADER_SIZE);
    Frame32(guest.bytes, buffer + 4, buffer + HEADER_SIZE);
    guest.bytes := Write32(guest.bytes, buffer + 4, buffer + HEADER_SIZE);
  }

  lemma DataStart(buffer: nat, items: seq<Item>)
    ensures DataAt(buffer, items, 0) == buffer + HEADER_SIZE + |items| * SETTING_SIZE
  {
  }

  lemma TimesAtMost(a: nat, b: nat, c: nat)
    requires a <= b
    ensures a * c <= b * c
  {
  }

  method FillRow(guest: Guest, r: Request, xuids: seq<nat>, ids: seq<nat>,
                 store: Store, p: nat, from: nat, ghost items: seq<Item>)
    returns (data: nat)
    requires p < |xuids| && items == Rows(r, xuids, ids, store) && (p + 1) * |ids| <= |items|
    requires DataAt(r.buffer, items, |items|) <= TWO_32
    requires p * |ids| <= |items| && Through(guest.bytes, r.buffer, items, p * |ids|)
             && from == DataAt(r.buffer, items, p * |ids|)
    modifies guest
    ensures Through(guest.bytes, r.buffer, items, (p + 1) * |ids|) && data == DataAt(r.buffer, items, (p + 1) * |ids|)
    ensures OnlyInside(old(guest.bytes), guest.bytes, r.buffer, DataAt(r.buffer, items, |items|))
  {
    hide Through, DataAt, Rows, OnlyInside;
    ghost var was, end := guest.bytes, DataAt(r.buffer, items, |items|);
    data := from;
    RowsCount(p + 1, |ids|);
    var i := 0;
    InsideSelf(was, r.buffer, end);
    while i < |ids|
      invariant 0 <= i <= |ids|
      invariant Through(guest.bytes, r.buffer, items, p * |ids| + i) && data == DataAt(r.buffer, items, p * |ids| + i)
      invariant OnlyInside(was, guest.bytes, r.buffer, end)
    {
      RowsAt(r, xuids, ids, store, p, i);
      ghost var m := guest.bytes;
      var item := Item(ids[i], OwnerOf(r, xuids[p]), store(xuids[p], r.titleId, ids[i]));
      data := WriteItem(guest, r.buffer, items, p * |ids| + i, item, data);
      InsideJoin(was, m, guest.bytes, r.buffer, end);
      i := i + 1;
    }
  }

  method FillResult(guest: Guest, r: Request, xuids: seq<nat>, ids: seq<nat>, store: Store)
    requires var items := Rows(r, xuids, ids, store); DataAt(r.buffer, items, |items|) <= TWO_32
    modifies guest
    ensures var items := Rows(r, xuids, ids, store);
      && LaidOut(guest.bytes, r.buffer, items)
      && OnlyInside(old(guest.bytes), guest.bytes, r.buffer, DataAt(r.buffer, items, |items|))
  {
    hide EntryOk, HeaderOk, DataAt, Rows, OnlyInside;
    ghost var items, was := Rows(r, xuids, ids, store), guest.bytes;
    ghost var end := DataAt(r.buffer, items, |items|);
    WriteHeader(guest, r.buffer, items, |xuids| * |ids|);
    DataStart(r.buffer, items);
    var data := r.buffer + HEADER_SIZE + (|xuids| * |ids|) * SETTING_SIZE;
    var p := 0;
    while p < |xuids|
      invariant 0 <= p <= |xuids| && p * |ids| <= |items|
      invariant Through(guest.bytes, r.buffer, items, p * |ids|) && data == DataAt(r.buffer, items, p * |ids|)
      invariant OnlyInside(was, guest.bytes, r.buffer, end)
    {
      TimesAtMost(p + 1, |xuids|, |ids|);
      ghost var m := guest.bytes;
      data := FillRow(guest, r, xuids, ids, store, p, data, items);
      InsideJoin(was, m, guest.bytes, r.buffer, end);
      p := p + 1;
    }
  }

  /** The whole call, for a result buffer that does not run past the address space.  On
      success the buffer holds the full layout and nothing outside the size computed for
      the request is touched; otherwise memory changes at most in the size a query asks for. */
  method ReadProfileSettings(guest: Guest, r: Request, users: Users, store: Store) returns (result: Result)
    requires !BadParameters(guest.bytes, r) && !TooSmall(guest.bytes, r) ==>
      r.buffer + Needed(Profiles(r), IdsOf(guest.bytes, r)) <= TWO_32
    modifies guest
    ensures var m := old(guest.bytes);
      && (result == InvalidParameter <==> BadParameters(m, r))
      && (result == InsufficientBuffer <==> !BadParameters(m, r) && TooSmall(m, r))
      && (result == NoSuchUser <==> !BadParameters(m, r) && !TooSmall(m, r) && !AllPresent(m, r, users))
    ensures result == InvalidParameter || result == NoSuchUser ==> guest.bytes == old(guest.bytes)
    ensures result == InsufficientBuffer ==>
      guest.bytes == if Read32(old(guest.bytes), r.bufferSizePtr) == 0
                     then Write32(old(guest.bytes), r.bufferSizePtr, Needed(Profiles(r), IdsOf(old(guest.bytes), r)))
                     else old(guest.bytes)
    ensures result == Success ==>
      && LaidOut(guest.bytes, r.buffer, ItemsOf(old(guest.bytes), r, users, store))
      && OnlyInside(old(guest.bytes), guest.bytes, r.buffer, r.buffer + Needed(Profiles(r), IdsOf(old(guest.bytes), r)))
  {
    hide Read32, Write32, IdsOf, DataSize, XuidAt, SignedIn, Rows, LaidOut, DataAt, XuidsOf, AllPresent;
    if r.settingCount < 1 || r.settingCount > MAX_SETTINGS || r.settingIds == 0 || r.bufferSizePtr == 0
       || (r.xuidCount != 0 && r.xuids == 0) || r.xuidCount > MAX_PROFILES {
      return InvalidParameter;
    }
    var bufferSize := Read32(guest.bytes, r.bufferSizePtr);
    if bufferSize != 0 && r.buffer == 0 {
      return InvalidParameter;
    }
    var ids, dataSize := ReadIds(guest, r);
    var profiles := Profiles(r);
    var needed := HEADER_SIZE + profiles * (r.settingCount * SETTING_SIZE + dataSize);
    if r.buffer == 0 || bufferSize < needed {
      if bufferSize == 0 {
        guest.bytes := Write32(guest.bytes, r.bufferSizePtr, needed);
      }
      return InsufficientBuffer;
    }
    var xuids, ok := FindProfiles(guest, r, users);
    if !ok {
      return NoSuchUser;
    }
    LayoutFits(guest.bytes, r, users, store);
    ghost var was, items := guest.bytes, ItemsOf(guest.bytes, r, users, store);
    FillResult(guest, r, xuids, ids, store);
    InsideMore(was, guest.bytes, r.buffer, DataAt(r.buffer, items, |items|), r.buffer + needed);
    result := Success;
  }

  // ----------------------------------------------------------------- what it means

  /** Header, entries and data blocks are apart and inside the size computed: each entry and
      its block by themselves, and in order from every later one. */
  lemma LayoutIsDisjoint(m: Memory, r: Request, users: Users, store: Store, k: nat)
    requires AllPresent(m, r, users) && k < |ItemsOf(m, r, users, store)|
    ensures var items := ItemsOf(m, r, users, store);
      && r.buffer + HEADER_SIZE <= EntryAt(r.buffer, k)
      && EntryAt(r.buffer, k) + SETTING_SIZE <= DataAt(r.buffer, items, 0) <= DataAt(r.buffer, items, k)
      && DataAt(r.buffer, items, k) + BlockSize(items[k]) <= r.buffer + Needed(Profiles(r), IdsOf(m, r))
      && forall j: nat :: j < k ==>
           && EntryAt(r.buffer, j) + SETTING_SIZE <= EntryAt(r.buffer, k)
           && DataAt(r.buffer, items, j) + BlockSize(items[j]) <= DataAt(r.buffer, items, k)
  {
    hide BlockSize, ItemsOf, DataAt, EntryAt, Needed, IdsOf;
    var items := ItemsOf(m, r, users, store);
    LayoutFits(m, r, users, store);
    Places(r.buffer, items, k, k + 1);
    ItemPlaces(r.buffer, items, k);
    forall j: nat | j < k
      ensures EntryAt(r.buffer, j) + SETTING_SIZE <= EntryAt(r.buffer, k)
      ensures DataAt(r.buffer, items, j) + BlockSize(items[j]) <= DataAt(r.buffer, items, k)
    {
      Places(r.buffer, items, j, k);
      ItemPlaces(r.buffer, items, j);
    }
  }

  /** In a finished layout a nonzero data pointer leads to its own value's bytes. */
  lemma PointerLeadsToData(m: Memory, buffer: nat, items: seq<Item>, k: nat, b: nat)
    requires LaidOut(m, buffer, items) && k < |items| && DataAt(buffer, items, |items|) <= TWO_32
    requires items[k].value.Some? && HasData(items[k].value.value.kind)
    requires b < Read32(m, EntryAt(buffer, k) + 4 * 8)
    ensures b < |items[k].value.value.bytes|
    ensures Read8(m, Read32(m, EntryAt(buffer, k) + 4 * 9) + b) == items[k].value.value.bytes[b] % 256
  {
    hide Read32, Read8, HeaderOk, DataAt, EntryAt;
    var entry, data := EntryAt(buffer, k), DataAt(buffer, items, k);
    assert EntryOk(m, buffer, items, k);
    assert Words(m, entry, SETTING_WORDS)[8] == Read32(m, entry + 4 * 8);
    assert Words(m, entry, SETTING_WORDS)[9] == Read32(m, entry + 4 * 9);
    Places(buffer, items, k, k + 1);
    ItemPlaces(buffer, items, k);
    SmallIsLow(data);
  }

  lemma SmallIsLow(v: nat)
    ensures v < TWO_32 ==> Low32(v) == v
  {
  }

  /** The second call of a size query: the size slot holds what the query stored. */
  function Queried(m: Memory, r: Request): Memory {
    Write32(m, r.bufferSizePtr, Needed(Profiles(r), IdsOf(m, r)))
  }

  /** The size slot shares no byte with the list of ids. */
  predicate SizeApart(r: Request) {
    && r.bufferSizePtr + 4 <= TWO_32 && r.settingIds + 4 * r.settingCount <= TWO_32
    && (r.bufferSizePtr + 4 <= r.settingIds || r.settingIds + 4 * r.settingCount <= r.bufferSizePtr)
  }

  lemma NeededIsSmall(r: Request, ids: seq<nat>)
    requires |ids| <= MAX_SETTINGS && r.xuidCount <= MAX_PROFILES
    ensures Needed(Profiles(r), ids) < TWO_32
  {
    hide DataSize;
    DataSizeBound(ids);
    var each := |ids| * SETTING_SIZE + DataSize(ids);
    assert each <= MAX_SETTINGS * (SETTING_SIZE + 0x1000);
    TimesAtMost(Profiles(r), MAX_PROFILES, each);
  }

  lemma {:induction false} DataSizeBound(ids: seq<nat>)
    ensures DataSize(ids) <= |ids| * 0x1000
  {
    hide Budget;
    if ids != [] { DataSizeBound(ids[..|ids| - 1]); }
  }

  /** The size a query returns is enough for the same request as long as storing it did
      not change the ids. */
  lemma QueryIsEnough(m: Memory, r: Request)
    requires Read32(m, r.bufferSizePtr) == 0 && !BadParameters(m, r) && SizeApart(r)
    ensures IdsOf(Queried(m, r), r) == IdsOf(m, r)
    ensures r.buffer != 0 ==> !BadParameters(Queried(m, r), r) && !TooSmall(Queried(m, r), r)
  {
    hide Read32, Write32, Needed, Read8;
    var needed := Needed(Profiles(r), IdsOf(m, r));
    NeededIsSmall(r, IdsOf(m, r));
    Written32(m, r.bufferSizePtr, needed);
    Frame32(m, r.bufferSizePtr, needed);
    SameWords(m, Queried(m, r), r.settingIds, r.settingCount);
  }

  /** In general it is enough exactly when the ids, read again after the store, do not
      declare more data than before it. */
  lemma QueryIsEnoughExactly(m: Memory, r: Request)
    requires Read32(m, r.bufferSizePtr) == 0 && !BadParameters(m, r) && r.buffer != 0
    ensures !BadParameters(Queried(m, r), r)
    ensures !TooSmall(Queried(m, r), r)
        <==> DataSize(IdsOf(Queried(m, r), r)) <= DataSize(IdsOf(m, r))
  {
    hide Read32, Write32, DataSize, IdsOf;
    var needed := Needed(Profiles(r), IdsOf(m, r));
    NeededIsSmall(r, IdsOf(m, r));
    Written32(m, r.bufferSizePtr, needed);
    NeededOrder(Profiles(r), IdsOf(m, r), IdsOf(Queried(m, r), r));
  }

  lemma NeededOrder(profiles: nat, a: seq<nat>, b: seq<nat>)
    requires profiles > 0 && |a| == |b|
    ensures Needed(profiles, b) <= Needed(profiles, a) <==> DataSize(b) <= DataSize(a)
  {
    hide DataSize;
    var x, y := |a| * SETTING_SIZE + DataSize(a), |b| * SETTING_SIZE + DataSize(b);
    TimesAtMost(if x <= y then x else y, if x <= y then y else x, profiles);
    if x < y { TimesAtMost(x + 1, y, profiles); }
    assert (x + 1) * profiles == x * profiles + profiles;
    assert profiles * x == x * profiles && profiles * y == y * profiles;
  }

  /** With the size slot over the ids it need not be: here the stored size turns the first
      id into that of a string setting, and the second call is refused again. */
  function OverlapRequest(): Request {
    Request(1, 0, 4, 0x3000, 2, 0x2002, 0x2000, 0x8000)
  }

  function OverlapMemory(): Memory {
    map[0x2006 := 0x4F, 0x2007 := 0xFF]
  }

  lemma OverlappingQuery()
    ensures var m, r := OverlapMemory(), OverlapRequest();
      && Read32(m, r.bufferSizePtr) == 0 && !BadParameters(m, r) && !SizeApart(r)
      && !BadParameters(Queried(m, r), r) && TooSmall(Queried(m, r), r)
  {
    hide Read32, Write32, Read16, Needed;
    var m, r := OverlapMemory(), OverlapRequest();
    var before, after := [0, 0x4FFF_0000], [0x4144_0000, 0x4FFF_0000];
    OverlapWords();
    assert IdsOf(m, r) == before;
    NeededOfTwo(before, 0, 0xFFF);
    assert Needed(4, before) == 0x4144;
    OverlapAfter();
    assert IdsOf(Queried(m, r), r) == after;
    NeededOfTwo(after, 0x144, 0xFFF);
    assert Read32(Queried(m, r), 0x2000) == 0x4144;
  }

  lemma NeededOfTwo(ids: seq<nat>, a: nat, b: nat)
    requires |ids| == 2 && Budget(ids[0]) == a && Budget(ids[1]) == b
    ensures Needed(4, ids) == HEADER_SIZE + 4 * (2 * SETTING_SIZE + (a + b))
  {
    hide Budget;
    assert ids[..1][..0] == [];
    assert DataSize(ids[..1]) == a;
  }

  lemma OverlapWords()
    ensures Read32(OverlapMemory(), 0x2000) == 0 && Read32(OverlapMemory(), 0x2002) == 0
    ensures Read32(OverlapMemory(), 0x2006) == 0x4FFF_0000
  {
  }

  lemma OverlapAfter()
    ensures var m := Write32(OverlapMemory(), 0x2000, 0x4144);
      Read32(m, 0x2000) == 0x4144 && Read32(m, 0x2002) == 0x4144_0000 && Read32(m, 0x2006) == 0x4FFF_0000
  {
    var m := OverlapMemory();
    Written32(m, 0x2000, 0x4144);
    Frame32(m, 0x2000, 0x4144);
  }
}
