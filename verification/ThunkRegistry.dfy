/**
  The guest module registry: one thunk address per system export, minted on demand, and
  the lookups by ordinal and by name that hand them out.

  Fresh guest memory comes from outside: a call that may need a page or a record is told
  what an allocation made now would return, or that it would fail.
*/
module ThunkRegistry {
  import opened Wrappers
  import opened Digits
  import opened GuestMemory

  const THUNK_SIZE: nat := 16
  const PAGE_BYTES: nat := 0x1_0000
  const BLR: nat := 0x4E80_0020

  /** Where a thunk dispatches to. */
  datatype Target = Target(library: string, ordinal: nat)

  // ------------------------------------------------------------------------ keys

  function ExportKey(t: Target): string {
    t.library + "#" + DigitsOf(t.ordinal, 10, false, 1)
  }

  /** Different exports have different keys, even if a library's name holds the separator:
      a numeral holds none, so the last one splits a key. */
  lemma KeyInjective(a: Target, b: Target)
    ensures ExportKey(a) == ExportKey(b) ==> a == b
  {
    hide DigitsOf, Number, DigitValue;
    var da, db := DigitsOf(a.ordinal, 10, false, 1), DigitsOf(b.ordinal, 10, false, 1);
    DigitsReadBack(a.ordinal, 10, false, 1);
    DigitsReadBack(b.ordinal, 10, false, 1);
    if ExportKey(a) == ExportKey(b) {
      var k := ExportKey(a);
      if |da| < |db| { NoSeparator(db, |db| - |da| - 1); KeyAt(b, |db| - |da| - 1); KeySeparator(a); }
      if |db| < |da| { NoSeparator(da, |da| - |db| - 1); KeyAt(a, |da| - |db| - 1); KeySeparator(b); }
      assert k[..|a.library|] == a.library && k[|k| - |da|..] == da;
      assert k[..|b.library|] == b.library && k[|k| - |db|..] == db;
    }
  }

  lemma NoSeparator(digits: string, i: nat)
    requires AllDigits(digits, 10) && i < |digits|
    ensures digits[i] != '#'
  {
    assert IsDigit(digits[i], 10);
  }

  lemma KeyAt(t: Target, i: nat)
    requires i < |DigitsOf(t.ordinal, 10, false, 1)|
    ensures |ExportKey(t)| == |t.library| + 1 + |DigitsOf(t.ordinal, 10, false, 1)|
    ensures ExportKey(t)[|t.library| + 1 + i] == DigitsOf(t.ordinal, 10, false, 1)[i]
  {
    hide DigitsOf;
  }

  lemma KeySeparator(t: Target)
    ensures |ExportKey(t)| == |t.library| + 1 + |DigitsOf(t.ordinal, 10, false, 1)|
    ensures ExportKey(t)[|t.library|] == '#'
  {
    hide DigitsOf;
  }

  // --------------------------------------------------------------------- minting

  datatype Thunks = Thunks(byAddress: map<nat, Target>, byExport: map<string, nat>, page: nat, used: nat)

  const NO_THUNKS: Thunks := Thunks(map[], map[], 0, 0)

  predicate NeedsPage(s: Thunks, t: Target) {
    ExportKey(t) !in s.byExport && (s.page == 0 || s.used + THUNK_SIZE > PAGE_BYTES)
  }

  function Added(s: Thunks, t: Target): Thunks {
    var address := s.page + s.used;
    Thunks(s.byAddress[address := t], s.byExport[ExportKey(t) := address], s.page, s.used + THUNK_SIZE)
  }

  /** The thunk of an export: the one it has, or a new one. */
  function Minted(s: Thunks, t: Target, offered: Option<nat>): (Thunks, Option<nat>) {
    if ExportKey(t) in s.byExport then (s, Some(s.byExport[ExportKey(t)]))
    else if NeedsPage(s, t) then
      if offered.None? then (s, None)
      else (Added(s.(page := offered.value, used := 0), t), Some(offered.value))
    else (Added(s, t), Some(s.page + s.used))
  }

  /** Where a thunk is: where it was, or sixteen bytes behind the last one while a page of
      0x10000 has room, or at the start of the page offered; every other thunk stays. */
  lemma MintedWhere(s: Thunks, t: Target, offered: Option<nat>)
    ensures var (s', a) := Minted(s, t, offered);
      var key := ExportKey(t);
      && a == (if key in s.byExport then Some(s.byExport[key])
               else if s.page != 0 && s.used + 16 <= 0x1_0000 then Some(s.page + s.used)
               else offered)
      && (if key in s.byExport || a.None? then s' == s
          else && s'.byAddress == s.byAddress[a.value := t] && s'.byExport == s.byExport[key := a.value]
               && s'.page + s'.used == a.value + 16)
  {
    hide ExportKey;
  }

  /** Pages after a call that is offered one. */
  function PagesAfter(pages: set<nat>, s: Thunks, t: Target, offered: Option<nat>): set<nat> {
    if NeedsPage(s, t) && offered.Some? then pages + {offered.value} else pages
  }

  /** Allocation gives large pages, aligned, away from address zero and from each other. */
  predicate FreshPage(pages: set<nat>, offered: Option<nat>) {
    offered.Some? ==>
      offered.value > 0 && offered.value % PAGE_BYTES == 0
      && offered.value + PAGE_BYTES <= TWO_32 && offered.value !in pages
  }

  predicate PagesOk(pages: set<nat>) {
    forall p :: p in pages ==> p > 0 && p % PAGE_BYTES == 0 && p + PAGE_BYTES <= TWO_32
  }

  function PageOf(a: nat): nat {
    a / PAGE_BYTES * PAGE_BYTES
  }

  /** A thunk is aligned and inside a page it owns. */
  predicate InPage(a: nat, pages: set<nat>) {
    a % THUNK_SIZE == 0 && PageOf(a) in pages
  }

  predicate Inverse(s: Thunks) {
    && (forall a :: a in s.byAddress ==>
          ExportKey(s.byAddress[a]) in s.byExport && s.byExport[ExportKey(s.byAddress[a])] == a)
    && (forall k :: k in s.byExport ==>
          s.byExport[k] in s.byAddress && ExportKey(s.byAddress[s.byExport[k]]) == k)
  }

  predicate Placed(s: Thunks, pages: set<nat>) {
    && PagesOk(pages)
    && (s.page != 0 ==> s.page in pages && s.used <= PAGE_BYTES && s.used % THUNK_SIZE == 0)
    && (forall a :: a in s.byAddress ==> InPage(a, pages))
    && (s.page != 0 ==> forall a :: a in s.byAddress && PageOf(a) == s.page ==> a < s.page + s.used)
  }

  predicate Inv(s: Thunks, pages: set<nat>) {
    Inverse(s) && Placed(s, pages)
  }

  lemma PageOfWithin(page: nat, used: nat)
    requires page % PAGE_BYTES == 0 && used < PAGE_BYTES && used % THUNK_SIZE == 0
    ensures PageOf(page + used) == page && (page + used) % THUNK_SIZE == 0
  {
  }

  /** A place no thunk has taken. */
  predicate Vacant(s: Thunks, t: Target) {
    ExportKey(t) !in s.byExport && s.page + s.used !in s.byAddress
  }

  lemma AddedInverse(s: Thunks, t: Target)
    requires Inverse(s) && Vacant(s, t)
    ensures Inverse(Added(s, t))
  {
    hide ExportKey;
  }

  lemma AddedPlaced(s: Thunks, pages: set<nat>, t: Target)
    requires Placed(s, pages) && s.page != 0 && s.used + THUNK_SIZE <= PAGE_BYTES
    ensures Placed(Added(s, t), pages)
  {
    hide ExportKey, PageOf;
    PageOfWithin(s.page, s.used);
  }

  lemma FreshPlaced(s: Thunks, pages: set<nat>, page: nat)
    requires Placed(s, pages) && FreshPage(pages, Some(page))
    ensures Placed(s.(page := page, used := 0), pages + {page})
  {
    hide PageOf;
  }

  lemma MintedInv(s: Thunks, pages: set<nat>, t: Target, offered: Option<nat>)
    requires Inv(s, pages) && FreshPage(pages, offered)
    ensures Inv(Minted(s, t, offered).0, PagesAfter(pages, s, t, offered))
  {
    hide Inverse, Placed, ExportKey, Added, PageOf;
    if ExportKey(t) !in s.byExport {
      if NeedsPage(s, t) {
        if offered.Some? {
          var turned := s.(page := offered.value, used := 0);
          FreshPlaced(s, pages, offered.value);
          PageOfWithin(offered.value, 0);
          FreshVacant(s, pages, offered.value);
          FreshInverse(s, offered.value);
          AddedInverse(turned, t);
          AddedPlaced(turned, pages + {offered.value}, t);
        }
      } else {
        PlacedVacant(s, pages);
        AddedInverse(s, t);
        AddedPlaced(s, pages, t);
      }
    }
  }

  lemma FreshInverse(s: Thunks, page: nat)
    requires Inverse(s)
    ensures Inverse(s.(page := page, used := 0))
  {
    hide ExportKey;
  }

  lemma FreshVacant(s: Thunks, pages: set<nat>, page: nat)
    requires Placed(s, pages) && FreshPage(pages, Some(page))
    ensures page !in s.byAddress
  {
    PageOfWithin(page, 0);
  }

  lemma PlacedVacant(s: Thunks, pages: set<nat>)
    requires Placed(s, pages) && s.page != 0 && s.used + THUNK_SIZE <= PAGE_BYTES
    ensures s.page + s.used !in s.byAddress
  {
    hide PageOf;
    PageOfWithin(s.page, s.used);
  }

  // ------------------------------------------------------------------------- runs

  datatype Call = Call(target: Target, offered: Option<nat>)

  predicate Fair(s: Thunks, pages: set<nat>, calls: seq<Call>)
    decreases |calls|
  {
    calls == [] ||
    var c := calls[0];
    FreshPage(pages, c.offered)
    && Fair(Minted(s, c.target, c.offered).0, PagesAfter(pages, s, c.target, c.offered), calls[1..])
  }

  function After(s: Thunks, calls: seq<Call>): Thunks
    decreases |calls|
  {
    if calls == [] then s else After(Minted(s, calls[0].target, calls[0].offered).0, calls[1..])
  }

  function AllPages(s: Thunks, pages: set<nat>, calls: seq<Call>): set<nat>
    decreases |calls|
  {
    if calls == [] then pages
    else
      var c := calls[0];
      AllPages(Minted(s, c.target, c.offered).0, PagesAfter(pages, s, c.target, c.offered), calls[1..])
  }

  lemma {:induction false} RunInv(s: Thunks, pages: set<nat>, calls: seq<Call>)
    requires Inv(s, pages) && Fair(s, pages, calls)
    ensures Inv(After(s, calls), AllPages(s, pages, calls))
    decreases |calls|
  {
    hide Inv, Minted, PagesAfter, FreshPage;
    if calls != [] {
      var c := calls[0];
      MintedInv(s, pages, c.target, c.offered);
      RunInv(Minted(s, c.target, c.offered).0, PagesAfter(pages, s, c.target, c.offered), calls[1..]);
    }
  }

  lemma MintedKeeps(s: Thunks, t: Target, offered: Option<nat>, k: string)
    requires k in s.byExport
    ensures var s' := Minted(s, t, offered).0; k in s'.byExport && s'.byExport[k] == s.byExport[k]
  {
    hide ExportKey;
  }

  /** An address once handed out stays that export's address whatever is minted later. */
  lemma {:induction false} AddressesStay(s: Thunks, calls: seq<Call>, t: Target)
    requires ExportKey(t) in s.byExport
    ensures ExportKey(t) in After(s, calls).byExport
      && After(s, calls).byExport[ExportKey(t)] == s.byExport[ExportKey(t)]
    ensures forall offered :: Minted(After(s, calls), t, offered).1 == Some(s.byExport[ExportKey(t)])
    decreases |calls|
  {
    hide ExportKey;
    if calls != [] {
      MintedKeeps(s, calls[0].target, calls[0].offered, ExportKey(t));
      AddressesStay(Minted(s, calls[0].target, calls[0].offered).0, calls[1..], t);
    }
  }

  lemma TargetOf(s: Thunks, a: nat, t: Target)
    requires Inverse(s)
    ensures (a in s.byAddress && s.byAddress[a] == t) <==> (ExportKey(t) in s.byExport && s.byExport[ExportKey(t)] == a)
  {
    hide ExportKey;
    if ExportKey(t) in s.byExport && s.byExport[ExportKey(t)] == a { KeyInjective(s.byAddress[a], t); }
  }

  /** Over any run the two maps are each other's inverse: an address dispatches to an
      export exactly when it is that export's address. */
  lemma MapsAreInverse(calls: seq<Call>, a: nat, t: Target)
    requires Fair(NO_THUNKS, {}, calls)
    ensures var s := After(NO_THUNKS, calls);
      (a in s.byAddress && s.byAddress[a] == t) <==> (ExportKey(t) in s.byExport && s.byExport[ExportKey(t)] == a)
  {
    hide ExportKey;
    RunInv(NO_THUNKS, {}, calls);
    TargetOf(After(NO_THUNKS, calls), a, t);
  }

  /** Over any run, across page changes, thunks are aligned, lie in allocated pages and do
      not overlap. */
  lemma ThunksAreApart(calls: seq<Call>, a: nat, b: nat)
    requires Fair(NO_THUNKS, {}, calls)
    requires a in After(NO_THUNKS, calls).byAddress && b in After(NO_THUNKS, calls).byAddress && a < b
    ensures a % THUNK_SIZE == 0 && a + THUNK_SIZE <= b
    ensures var p := PageOf(a);
      p in AllPages(NO_THUNKS, {}, calls) && p <= a && a + THUNK_SIZE <= p + PAGE_BYTES
  {
    hide After, AllPages, Fair, Inverse, PageOf;
    var s, pages := After(NO_THUNKS, calls), AllPages(NO_THUNKS, {}, calls);
    NothingMinted();
    RunInv(NO_THUNKS, {}, calls);
    assert InPage(a, pages) && InPage(b, pages);
    WithinPage(a);
    NextSlot(a, b);
  }

  lemma NothingMinted()
    ensures Inv(NO_THUNKS, {})
  {
  }

  lemma NextSlot(a: nat, b: nat)
    requires a < b && a % THUNK_SIZE == 0 && b % THUNK_SIZE == 0
    ensures a + THUNK_SIZE <= b
  {
  }

  lemma WithinPage(a: nat)
    requires a % THUNK_SIZE == 0
    ensures PageOf(a) <= a && a + THUNK_SIZE <= PageOf(a) + PAGE_BYTES
  {
  }

  // --------------------------------------------------------------------- lookups

  datatype Export = Export(name: string, ordinal: nat, address: nat)

  /** A system module stands for a library; the executable has exports of its own. */
  datatype Module = Module(library: string, executable: bool, exports: seq<Export>)

  /** The export registry: variables and functions, each by ordinal and by name. */
  datatype Exports = Exports(
    variables: map<(string, nat), nat>, variableNames: map<(string, string), nat>,
    ordinals: set<(string, nat)>, names: map<(string, string), nat>)

  datatype Outcome = Found(address: nat) | InvalidHandle | OrdinalNotFound | EntryPointNotFound

  function FirstByOrdinal(exports: seq<Export>, ordinal: nat): Option<nat> {
    if exports == [] then None
    else if exports[0].ordinal == ordinal && exports[0].address != 0 then Some(exports[0].address)
    else FirstByOrdinal(exports[1..], ordinal)
  }

  function FirstByName(exports: seq<Export>, name: string): Option<nat> {
    if exports == [] then None
    else if exports[0].name == name && exports[0].address != 0 then Some(exports[0].address)
    else FirstByName(exports[1..], name)
  }

  /** The first entry of that ordinal with an address; none when there is none. */
  lemma {:induction false} FirstByOrdinalIs(exports: seq<Export>, ordinal: nat) returns (i: nat)
    ensures FirstByOrdinal(exports, ordinal)
         == if i < |exports| then Some(exports[i].address) else None
    ensures i < |exports| ==> exports[i].ordinal == ordinal && exports[i].address != 0
    ensures forall j :: 0 <= j < i && j < |exports| ==> exports[j].ordinal != ordinal || exports[j].address == 0
    decreases |exports|
  {
    if exports == [] || (exports[0].ordinal == ordinal && exports[0].address != 0) {
      i := 0;
    } else {
      var k := FirstByOrdinalIs(exports[1..], ordinal);
      i := k + 1;
    }
  }

  lemma {:induction false} FirstByNameIs(exports: seq<Export>, name: string) returns (i: nat)
    ensures FirstByName(exports, name) == if i < |exports| then Some(exports[i].address) else None
    ensures i < |exports| ==> exports[i].name == name && exports[i].address != 0
    ensures forall j :: 0 <= j < i && j < |exports| ==> exports[j].name != name || exports[j].address == 0
    decreases |exports|
  {
    if exports == [] || (exports[0].name == name && exports[0].address != 0) {
      i := 0;
    } else {
      var k := FirstByNameIs(exports[1..], name);
      i := k + 1;
    }
  }

  function OrElse(a: Option<nat>, missing: Outcome): Outcome {
    if a.Some? then Found(a.value) else missing
  }

  function ByOrdinal(s: Thunks, m: Module, x: Exports, ordinal: nat, offered: Option<nat>): (Thunks, Outcome) {
    if m.executable then (s, OrElse(FirstByOrdinal(m.exports, ordinal), OrdinalNotFound))
    else if (m.library, ordinal) in x.variables then (s, Found(x.variables[(m.library, ordinal)]))
    else if (m.library, ordinal) !in x.ordinals then (s, OrdinalNotFound)
    else
      var (s', a) := Minted(s, Target(m.library, ordinal), offered);
      (s', OrElse(a, OrdinalNotFound))
  }

  function ByName(s: Thunks, m: Module, x: Exports, name: string, offered: Option<nat>): (Thunks, Outcome) {
    if m.executable then (s, OrElse(FirstByName(m.exports, name), EntryPointNotFound))
    else if (m.library, name) in x.variableNames then (s, Found(x.variableNames[(m.library, name)]))
    else if (m.library, name) !in x.names then (s, EntryPointNotFound)
    else
      var (s', a) := Minted(s, Target(m.library, x.names[(m.library, name)]), offered);
      (s', OrElse(a, EntryPointNotFound))
  }

  /** A function registered under a name and under the ordinal that name gives. */
  predicate Registered(m: Module, x: Exports, name: string, ordinal: nat) {
    !m.executable && (m.library, name) in x.names && x.names[(m.library, name)] == ordinal
    && (m.library, ordinal) in x.ordinals
  }

  /** A lookup by ordinal, case by case: the executable's first entry with an address; of a
      system library its variable, else the thunk of a registered function; else a failure. */
  lemma OrdinalLookup(s: Thunks, m: Module, x: Exports, ordinal: nat, offered: Option<nat>) returns (i: nat)
    ensures var (s', r) := ByOrdinal(s, m, x, ordinal, offered);
      var thunk := !m.executable && (m.library, ordinal) !in x.variables && (m.library, ordinal) in x.ordinals;
      && (!thunk ==> s' == s)
      && (m.executable ==>
            && (forall j :: 0 <= j < i && j < |m.exports| ==>
                  m.exports[j].ordinal != ordinal || m.exports[j].address == 0)
            && (i < |m.exports| ==> m.exports[i].ordinal == ordinal && m.exports[i].address != 0)
            && r == (if i < |m.exports| then Found(m.exports[i].address) else OrdinalNotFound))
      && (!m.executable && (m.library, ordinal) in x.variables ==> r == Found(x.variables[(m.library, ordinal)]))
      && (!m.executable && (m.library, ordinal) !in x.variables && !thunk ==> r == OrdinalNotFound)
      && (thunk ==>
            var key := ExportKey(Target(m.library, ordinal));
            if r.Found? then key in s'.byExport && s'.byExport[key] == r.address
            else r == OrdinalNotFound && s' == s && key !in s.byExport && offered.None?)
  {
    hide ExportKey;
    i := FirstByOrdinalIs(m.exports, ordinal);
    MintedWhere(s, Target(m.library, ordinal), offered);
  }

  /** And by name, where the thunk is that of the ordinal the name gives. */
  lemma NameLookup(s: Thunks, m: Module, x: Exports, name: string, offered: Option<nat>) returns (i: nat)
    ensures var (s', r) := ByName(s, m, x, name, offered);
      var thunk := !m.executable && (m.library, name) !in x.variableNames && (m.library, name) in x.names;
      && (!thunk ==> s' == s)
      && (m.executable ==>
            && (forall j :: 0 <= j < i && j < |m.exports| ==> m.exports[j].name != name || m.exports[j].address == 0)
            && (i < |m.exports| ==> m.exports[i].name == name && m.exports[i].address != 0)
            && r == (if i < |m.exports| then Found(m.exports[i].address) else EntryPointNotFound))
      && (!m.executable && (m.library, name) in x.variableNames ==> r == Found(x.variableNames[(m.library, name)]))
      && (!m.executable && (m.library, name) !in x.variableNames && !thunk ==> r == EntryPointNotFound)
      && (thunk ==>
            var key := ExportKey(Target(m.library, x.names[(m.library, name)]));
            if r.Found? then key in s'.byExport && s'.byExport[key] == r.address
            else r == EntryPointNotFound && s' == s && key !in s.byExport && offered.None?)
  {
    hide ExportKey;
    i := FirstByNameIs(m.exports, name);
    if (m.library, name) in x.names {
      MintedWhere(s, Target(m.library, x.names[(m.library, name)]), offered);
    }
  }

  /** Where no variable shadows either, a lookup by name and, any number of mints later, a
      lookup by its ordinal give the same address, and that address dispatches to it. */
  lemma NameThenOrdinal(s: Thunks, pages: set<nat>, m: Module, x: Exports, name: string, ordinal: nat,
      offered: Option<nat>, calls: seq<Call>, later: Option<nat>)
    requires Inv(s, pages) && FreshPage(pages, offered) && Registered(m, x, name, ordinal)
    requires (m.library, name) !in x.variableNames && (m.library, ordinal) !in x.variables
    ensures var (s1, first) := ByName(s, m, x, name, offered);
      && (first.Found? <==> ByOrdinal(s, m, x, ordinal, offered).1.Found?)
      && (first.Found? ==>
            && ByOrdinal(s, m, x, ordinal, offered) == (s1, first)
            && ByOrdinal(After(s1, calls), m, x, ordinal, later).1 == first
            && first.address in s1.byAddress && s1.byAddress[first.address] == Target(m.library, ordinal))
  {
    hide ExportKey, Inv, After;
    var t := Target(m.library, ordinal);
    MintedInv(s, pages, t, offered);
    var (s1, a) := Minted(s, t, offered);
    if a.Some? {
      MintedIs(s, t, offered);
      AddressesStay(s1, calls, t);
      DispatchesTo(s1, PagesAfter(pages, s, t, offered), t);
    }
  }

  lemma MintedIs(s: Thunks, t: Target, offered: Option<nat>)
    requires Minted(s, t, offered).1.Some?
    ensures var (s', a) := Minted(s, t, offered);
      ExportKey(t) in s'.byExport && Some(s'.byExport[ExportKey(t)]) == a
  {
    hide ExportKey;
  }

  lemma DispatchesTo(s: Thunks, pages: set<nat>, t: Target)
    requires Inv(s, pages) && ExportKey(t) in s.byExport
    ensures s.byExport[ExportKey(t)] in s.byAddress && s.byAddress[s.byExport[ExportKey(t)]] == t
  {
    hide ExportKey, Placed;
    KeyInjective(s.byAddress[s.byExport[ExportKey(t)]], t);
  }

  /** A variable that shadows only the ordinal parts the two lookups, unless it happens to
      stand at the thunk's own address. */
  lemma ShadowParts(s: Thunks, m: Module, x: Exports, name: string, ordinal: nat, offered: Option<nat>)
    requires Registered(m, x, name, ordinal)
    requires (m.library, name) !in x.variableNames && (m.library, ordinal) in x.variables
    ensures ByName(s, m, x, name, offered).1 == ByOrdinal(s, m, x, ordinal, offered).1
        <==> Minted(s, Target(m.library, ordinal), offered).1 == Some(x.variables[(m.library, ordinal)])
  {
    hide Minted;
  }

  // ----------------------------------------------------------------- the registry

  const RECORD_SIZE: nat := 0x1000
  const FULL_NAME: nat := 0x24
  const BASE_NAME: nat := 0x2C
  const LOAD_COUNT: nat := 0x40
  const NAME_BUFFER: nat := 0x80

  function SystemModules(): seq<(string, string)> {
    [("xboxkrnl.exe", "xboxkrnl"), ("xam.xex", "xam"), ("xbdm.xex", "xbdm")]
  }

  /** The system library a name stands for, by its full name or its alias. */
  function SystemLibrary(wanted: string): Option<string> {
    if wanted == "xboxkrnl.exe" || wanted == "xboxkrnl" then Some("xboxkrnl.exe")
    else if wanted == "xam.xex" || wanted == "xam" then Some("xam.xex")
    else if wanted == "xbdm.xex" || wanted == "xbdm" then Some("xbdm.xex")
    else None
  }

  function LowerChar(c: char): char {
    if 'A' <= c <= 'Z' then c - 'A' + 'a' else c
  }

  function Lower(s: string): (r: string)
    ensures |r| == |s|
  {
    seq(|s|, i requires 0 <= i < |s| => LowerChar(s[i]))
  }

  predicate IsSeparator(c: char) {
    c == '\\' || c == '/' || c == ':'
  }

  /** What follows the last separator. */
  function BaseName(s: string): string {
    if s == [] then []
    else if IsSeparator(s[|s| - 1]) then []
    else BaseName(s[..|s| - 1]) + [s[|s| - 1]]
  }

  /** The name as it is looked up. */
  function Wanted(name: string): string {
    Lower(BaseName(name))
  }

  lemma {:induction false} BaseNameOf(path: string, base: string)
    requires forall i :: 0 <= i < |base| ==> base[i] != '/' && base[i] != '\\' && base[i] != ':'
    requires path == [] || path[|path| - 1] == '/' || path[|path| - 1] == '\\' || path[|path| - 1] == ':'
    ensures BaseName(path + base) == base
  {
    if base == [] {
      assert path + base == path;
    } else {
      var all := path + base;
      assert all[..|all| - 1] == path + base[..|base| - 1];
      BaseNameOf(path, base[..|base| - 1]);
    }
  }

  /** A module is looked up by its name behind the last separator, its letters A to Z made
      small: whatever the path, and whatever the case. */
  lemma WantedOf(path: string, base: string)
    requires forall i :: 0 <= i < |base| ==> base[i] != '/' && base[i] != '\\' && base[i] != ':'
    requires path == [] || path[|path| - 1] == '/' || path[|path| - 1] == '\\' || path[|path| - 1] == ':'
    ensures var wanted := Wanted(path + base);
      && |wanted| == |base|
      && forall i :: 0 <= i < |base| ==>
           wanted[i] as int == base[i] as int + (if 'A' <= base[i] <= 'Z' then 32 else 0)
  {
    BaseNameOf(path, base);
  }

  /** The four words every thunk holds. */
  function Returns(): (w: seq<nat>)
    ensures |w| == 4
  {
    [BLR, BLR, BLR, BLR]
  }

  predicate Written(m: Memory, addresses: set<nat>) {
    forall a :: a in addresses ==> Words(m, a, 4) == Returns()
  }

  /** A region apart from every thunk page. */
  predicate ApartFrom(pages: set<nat>, from: nat, size: nat) {
    forall p :: p in pages ==> from + size <= p || p + PAGE_BYTES <= from
  }

  lemma WrittenKept(m: Memory, m': Memory, s: Thunks, pages: set<nat>, from: nat, to: nat)
    requires Placed(s, pages) && Written(m, s.byAddress.Keys) && OnlyInside(m, m', from, to)
    requires forall a :: a in s.byAddress ==> a + THUNK_SIZE <= from || to <= a
    ensures Written(m', s.byAddress.Keys)
  {
    hide Words, Read8, PageOf;
    forall a | a in s.byAddress ensures Words(m', a, 4) == Returns() {
      assert InPage(a, pages);
      WithinPage(a);
      assert a + THUNK_SIZE <= TWO_32;
      SameWords(m, m', a, 4);
    }
  }

  /** What the record of a system module holds. */
  predicate RecordOk(m: Memory, record: nat, display: string) {
    && NameAt(m, record + FULL_NAME, record + NAME_BUFFER, 2 * |display|)
    && NameAt(m, record + BASE_NAME, record + NAME_BUFFER, 2 * |display|)
    && Read16(m, record + LOAD_COUNT) == 1
    && UnitsAt(m, record + NAME_BUFFER, display, |display|)
    && Read16(m, record + NAME_BUFFER + 2 * |display|) == 0
  }

  /** A string descriptor: its length, its length with the terminator, its buffer. */
  predicate NameAt(m: Memory, at: nat, buffer: nat, bytes: nat) {
    Read16(m, at) == bytes && Read16(m, at + 2) == bytes + 2 && Read32(m, at + 4) == buffer
  }

  predicate UnitsAt(m: Memory, at: nat, display: string, n: nat)
    requires n <= |display|
  {
    forall i :: 0 <= i < n ==> Read16(m, at + 2 * i) == display[i] as nat
  }

  /** The fields of a record, at the offsets of its structure. */
  lemma RecordFields(m: Memory, record: nat, display: string)
    requires RecordOk(m, record, display)
    ensures Read16(m, record + 0x24) == Read16(m, record + 0x2C) == 2 * |display|
    ensures Read16(m, record + 0x26) == Read16(m, record + 0x2E) == 2 * |display| + 2
    ensures Read32(m, record + 0x28) == Read32(m, record + 0x30) == record + 0x80
    ensures Read16(m, record + 0x40) == 1
    ensures forall i :: 0 <= i < |display| ==> Read16(m, record + 0x80 + 2 * i) == display[i] as nat
    ensures Read16(m, record + 0x80 + 2 * |display|) == 0
  {
    hide Read16, Read32;
  }

  lemma NameKept(m: Memory, m': Memory, at: nat, buffer: nat, bytes: nat)
    requires NameAt(m, at, buffer, bytes) && Same(m, m', at, at + 8)
    ensures NameAt(m', at, buffer, bytes)
  {
    hide Read8, Read16, Read32;
    SameRead16(m, m', at);
    SameRead16(m, m', at + 2);
    SameRead32(m, m', at + 4);
  }

  lemma UnitsKept(m: Memory, m': Memory, at: nat, display: string, n: nat)
    requires n <= |display| && UnitsAt(m, at, display, n) && Same(m, m', at, at + 2 * n)
    ensures UnitsAt(m', at, display, n)
  {
    hide Read8, Read16;
    forall i | 0 <= i < n ensures Read16(m', at + 2 * i) == display[i] as nat { SameRead16(m, m', at + 2 * i); }
  }

  predicate PlainName(display: string) {
    |display| < 0x400 && forall i :: 0 <= i < |display| ==> display[i] as nat < 0x80
  }

  method WriteUnits(guest: Guest, at: nat, display: string)
    requires PlainName(display) && at + 2 * |display| + 2 <= TWO_32
    modifies guest
    ensures UnitsAt(guest.bytes, at, display, |display|) && Read16(guest.bytes, at + 2 * |display|) == 0
    ensures OnlyInside(old(guest.bytes), guest.bytes, at, at + 2 * |display| + 2)
  {
    hide Read8, Read16, Write16;
    var i := 0;
    while i < |display|
      invariant 0 <= i <= |display| && UnitsAt(guest.bytes, at, display, i)
      invariant OnlyInside(old(guest.bytes), guest.bytes, at, at + 2 * |display| + 2)
    {
      ghost var m := guest.bytes;
      guest.bytes := Write16(guest.bytes, at + 2 * i, display[i] as nat);
      Written16(m, at + 2 * i, display[i] as nat);
      Frame16(m, at + 2 * i, display[i] as nat);
      UnitsKept(m, guest.bytes, at, display, i);
      i := i + 1;
    }
    ghost var m := guest.bytes;
    guest.bytes := Write16(guest.bytes, at + 2 * |display|, 0);
    Written16(m, at + 2 * |display|, 0);
    Frame16(m, at + 2 * |display|, 0);
    UnitsKept(m, guest.bytes, at, display, |display|);
  }

  method WriteName(guest: Guest, at: nat, buffer: nat, bytes: nat)
    requires at + 8 <= TWO_32 && buffer < TWO_32 && bytes + 2 < TWO_16
    modifies guest
    ensures NameAt(guest.bytes, at, buffer, bytes)
    ensures OnlyInside(old(guest.bytes), guest.bytes, at, at + 8)
  {
    hide Read8, Read16, Read32, Write16, Write32;
    ghost var m0 := guest.bytes;
    guest.bytes := Write16(guest.bytes, at, bytes);
    Written16(m0, at, bytes);
    Frame16(m0, at, bytes);
    ghost var m1 := guest.bytes;
    guest.bytes := Write16(guest.bytes, at + 2, bytes + 2);
    Written16(m1, at + 2, bytes + 2);
    Frame16(m1, at + 2, bytes + 2);
    SameRead16(m1, guest.bytes, at);
    ghost var m2 := guest.bytes;
    guest.bytes := Write32(guest.bytes, at + 4, buffer);
    Written32(m2, at + 4, buffer);
    Frame32(m2, at + 4, buffer);
    SameRead16(m2, guest.bytes, at);
    SameRead16(m2, guest.bytes, at + 2);
  }

  method WriteRecord(guest: Guest, record: nat, display: string)
    requires PlainName(display) && record + RECORD_SIZE <= TWO_32
    modifies guest
    ensures RecordOk(guest.bytes, record, display)
    ensures OnlyInside(old(guest.bytes), guest.bytes, record, record + RECORD_SIZE)
  {
    hide Read8, Read16, Write16, UnitsAt, NameAt;
    var buffer, bytes := record + NAME_BUFFER, 2 * |display|;
    WriteUnits(guest, buffer, display);
    ghost var m1 := guest.bytes;
    WriteName(guest, record + FULL_NAME, buffer, bytes);
    UnitsKept(m1, guest.bytes, buffer, display, |display|);
    SameRead16(m1, guest.bytes, buffer + bytes);
    ghost var m2 := guest.bytes;
    WriteName(guest, record + BASE_NAME, buffer, bytes);
    UnitsKept(m2, guest.bytes, buffer, display, |display|);
    SameRead16(m2, guest.bytes, buffer + bytes);
    NameKept(m2, guest.bytes, record + FULL_NAME, buffer, bytes);
    ghost var m3 := guest.bytes;
    guest.bytes := Write16(guest.bytes, record + LOAD_COUNT, 1);
    Written16(m3, record + LOAD_COUNT, 1);
    Frame16(m3, record + LOAD_COUNT, 1);
    UnitsKept(m3, guest.bytes, buffer, display, |display|);
    SameRead16(m3, guest.bytes, buffer + bytes);
    NameKept(m3, guest.bytes, record + FULL_NAME, buffer, bytes);
    NameKept(m3, guest.bytes, record + BASE_NAME, buffer, bytes);
  }

  predicate SameLibrary(a: Module, b: Module) {
    !a.executable && !b.executable && a.library == b.library
  }

  class Registry {
    const guest: Guest
    const exports: Exports
    var modules: map<nat, Module>
    var executableNames: seq<string>
    var executableRecord: nat
    var thunkByAddress: map<nat, Target>
    var thunkByExport: map<string, nat>
    var thunkPage: nat
    var thunkPageUsed: nat
    ghost var pages: set<nat>

    function View(): Thunks
      reads this
    {
      Thunks(thunkByAddress, thunkByExport, thunkPage, thunkPageUsed)
    }

    /** One record for each system library; maps, pages and thunk code in order. */
    ghost predicate Valid()
      reads this, guest
    {
      && Inv(View(), pages) && Written(guest.bytes, thunkByAddress.Keys)
      && (forall r, q :: r in modules && q in modules && SameLibrary(modules[r], modules[q]) ==> r == q)
    }

    constructor (guest: Guest, exports: Exports)
      ensures Valid() && View() == NO_THUNKS && modules == map[] && executableRecord == 0 && executableNames == []
      ensures this.guest == guest && this.exports == exports
    {
      this.guest, this.exports := guest, exports;
      modules, executableNames, executableRecord := map[], [], 0;
      thunkByAddress, thunkByExport, thunkPage, thunkPageUsed, pages := map[], map[], 0, 0, {};
    }

    method WriteThunk(address: nat)
      requires address + THUNK_SIZE <= TWO_32
      modifies guest
      ensures Words(guest.bytes, address, 4) == Returns()
      ensures OnlyInside(old(guest.bytes), guest.bytes, address, address + THUNK_SIZE)
    {
      hide Words, Read8, Write32, OnlyInside;
      ghost var was := guest.bytes;
      InsideSelf(was, address, address + THUNK_SIZE);
      var word := 0;
      while word < THUNK_SIZE
        invariant 0 <= word <= THUNK_SIZE && word % 4 == 0
        invariant forall j :: 0 <= j < word / 4 ==> Words(guest.bytes, address, 4)[j] == BLR
        invariant OnlyInside(was, guest.bytes, address, address + THUNK_SIZE)
      {
        ghost var m := guest.bytes;
        WriteWord(m, address, 4, word / 4, BLR);
        WordInside(m, address, 4, word / 4, BLR);
        guest.bytes := Write32(guest.bytes, address + word, BLR);
        InsideJoin(was, m, guest.bytes, address, address + THUNK_SIZE);
        word := word + 4;
      }
      assert Words(guest.bytes, address, 4) == Returns();
    }

    /** The thunk of an export: always the same one, minted with its code when there is none
        yet, in a new page when the last is full. */
    method MintThunk(target: Target, offered: Option<nat>) returns (address: Option<nat>)
      requires Valid() && FreshPage(pages, offered)
      modifies guest, `thunkByAddress, `thunkByExport, `thunkPage, `thunkPageUsed, `pages
      ensures Valid()
      ensures (View(), address) == Minted(old(View()), target, offered)
      ensures pages == PagesAfter(old(pages), old(View()), target, offered)
    {
      hide Words, Read8, ExportKey, Inverse, PageOf, OnlyInside, Returns, InPage;
      ghost var was, wasPages := View(), pages;
      MintedInv(was, pages, target, offered);
      var key := ExportKey(target);
      if key in thunkByExport {
        return Some(thunkByExport[key]);
      }
      if thunkPage == 0 || thunkPageUsed + THUNK_SIZE > PAGE_BYTES {
        if offered.None? {
          return None;
        }
        thunkPage := offered.value;
        thunkPageUsed := 0;
        pages := pages + {offered.value};
        FreshPlaced(was, wasPages, offered.value);
      }
      var at := thunkPage + thunkPageUsed;
      ghost var before := View();
      PageOfWithin(thunkPage, thunkPageUsed);
      WithinPage(at);
      BeforeOrElsewhere(before, pages);
      thunkPageUsed := thunkPageUsed + THUNK_SIZE;
      ghost var m := guest.bytes;
      WriteThunk(at);
      WrittenKept(m, guest.bytes, before, pages, at, at + THUNK_SIZE);
      thunkByAddress := thunkByAddress[at := target];
      thunkByExport := thunkByExport[key := at];
      address := Some(at);
    }

    method ProcedureAddress(handle: nat, ordinal: nat, offered: Option<nat>) returns (outcome: Outcome)
      requires Valid() && FreshPage(pages, offered)
      modifies guest, `thunkByAddress, `thunkByExport, `thunkPage, `thunkPageUsed, `pages
      ensures Valid()
      ensures var h := if handle != 0 then handle else executableRecord;
        if h !in modules then View() == old(View()) && outcome == InvalidHandle
        else (View(), outcome) == ByOrdinal(old(View()), modules[h], exports, ordinal, offered)
    {
      hide Valid, Minted;
      var h := if handle != 0 then handle else executableRecord;
      if h !in modules {
        return InvalidHandle;
      }
      var m := modules[h];
      if m.executable {
        var i := 0;
        assert m.exports[0..] == m.exports;
        while i < |m.exports|
          invariant 0 <= i <= |m.exports|
                    && FirstByOrdinal(m.exports, ordinal) == FirstByOrdinal(m.exports[i..], ordinal)
        {
          if m.exports[i].ordinal == ordinal && m.exports[i].address != 0 {
            return Found(m.exports[i].address);
          }
          assert m.exports[i..][1..] == m.exports[i + 1..];
          i := i + 1;
        }
        return OrdinalNotFound;
      }
      if (m.library, ordinal) in exports.variables {
        return Found(exports.variables[(m.library, ordinal)]);
      }
      if (m.library, ordinal) !in exports.ordinals {
        return OrdinalNotFound;
      }
      var address := MintThunk(Target(m.library, ordinal), offered);
      outcome := if address.Some? then Found(address.value) else OrdinalNotFound;
    }

    method ProcedureAddressByName(handle: nat, name: string, offered: Option<nat>) returns (outcome: Outcome)
      requires Valid() && FreshPage(pages, offered)
      modifies guest, `thunkByAddress, `thunkByExport, `thunkPage, `thunkPageUsed, `pages
      ensures Valid()
      ensures var h := if handle != 0 then handle else executableRecord;
        if h !in modules then View() == old(View()) && outcome == InvalidHandle
        else (View(), outcome) == ByName(old(View()), modules[h], exports, name, offered)
    {
      hide Valid, Minted;
      var h := if handle != 0 then handle else executableRecord;
      if h !in modules {
        return InvalidHandle;
      }
      var m := modules[h];
      if m.executable {
        var i := 0;
        assert m.exports[0..] == m.exports;
        while i < |m.exports|
          invariant 0 <= i <= |m.exports| && FirstByName(m.exports, name) == FirstByName(m.exports[i..], name)
        {
          if m.exports[i].name == name && m.exports[i].address != 0 {
            return Found(m.exports[i].address);
          }
          assert m.exports[i..][1..] == m.exports[i + 1..];
          i := i + 1;
        }
        return EntryPointNotFound;
      }
      if (m.library, name) in exports.variableNames {
        return Found(exports.variableNames[(m.library, name)]);
      }
      if (m.library, name) !in exports.names {
        return EntryPointNotFound;
      }
      var address := MintThunk(Target(m.library, exports.names[(m.library, name)]), offered);
      outcome := if address.Some? then Found(address.value) else EntryPointNotFound;
    }

    /** The record of a system library: the one it has, or a new one written at the place
        offered; nothing minted before is disturbed. */
    method SystemModule(library: string, offered: Option<nat>) returns (record: Option<nat>)
      requires Valid() && PlainName(library)
      requires offered.Some? ==> offered.value !in modules && offered.value + RECORD_SIZE <= TWO_32
                                 && ApartFrom(pages, offered.value, RECORD_SIZE)
      modifies guest, `modules
      ensures Valid()
      ensures record.Some? ==> record.value in modules && SameLibrary(modules[record.value], Module(library, false, []))
      ensures forall r ::
        (r in old(modules) && SameLibrary(old(modules)[r], Module(library, false, [])))
        ==> record == Some(r) && modules == old(modules) && guest.bytes == old(guest.bytes)
      ensures (forall r :: r in old(modules) ==> !SameLibrary(old(modules)[r], Module(library, false, [])))
        ==> record == offered
            && (offered.Some? ==> modules == old(modules)[offered.value := Module(library, false, [])]
                                  && RecordOk(guest.bytes, offered.value, library))
    {
      hide Inv, Read8, Words, RecordOk;
      var left := modules.Keys;
      while left != {}
        invariant left <= modules.Keys
        invariant forall r :: r in modules && r !in left ==> !SameLibrary(modules[r], Module(library, false, []))
        decreases |left|
      {
        var r :| r in left;
        if SameLibrary(modules[r], Module(library, false, [])) {
          return Some(r);
        }
        left := left - {r};
      }
      if offered.None? {
        return None;
      }
      ghost var m := guest.bytes;
      WriteRecord(guest, offered.value, library);
      ThunksApart(View(), pages, offered.value);
      WrittenKept(m, guest.bytes, View(), pages, offered.value, offered.value + RECORD_SIZE);
      modules := modules[offered.value := Module(library, false, [])];
      record := offered;
    }

    /** A new executable replaces the last; system records and thunks stay. */
    method SetExecutable(record: nat, ownExports: seq<Export>, names: seq<string>)
      requires Valid()
      modifies `modules, `executableRecord, `executableNames
      ensures Valid() && executableRecord == record && |executableNames| == |names|
      ensures forall i :: 0 <= i < |names| ==> executableNames[i] == Wanted(names[i])
      ensures modules == (if old(executableRecord) != 0 then old(modules) - {old(executableRecord)} else old(modules))
                         [record := Module("", true, ownExports)]
    {
      hide Inv, Written, Wanted;
      var wanted: seq<string> := [];
      var i := 0;
      while i < |names|
        invariant 0 <= i <= |names| && |wanted| == i
        invariant forall j :: 0 <= j < i ==> wanted[j] == Wanted(names[j])
      {
        wanted := wanted + [Wanted(names[i])];
        i := i + 1;
      }
      if executableRecord != 0 { modules := modules - {executableRecord}; }
      modules := modules[record := Module("", true, ownExports)];
      executableRecord := record;
      executableNames := wanted;
    }

    method ClearExecutable()
      requires Valid()
      modifies `modules, `executableRecord, `executableNames
      ensures Valid() && executableRecord == 0 && executableNames == []
      ensures modules == if old(executableRecord) != 0 then old(modules) - {old(executableRecord)} else old(modules)
    {
      hide Inv, Written;
      if executableRecord != 0 { modules := modules - {executableRecord}; }
      executableRecord := 0;
      executableNames := [];
    }

    /** The names the executable answers to: its own and the empty one. */
    predicate NamesExecutable(name: string)
      reads this
    {
      name == "" || (executableRecord != 0 && Wanted(name) in executableNames)
    }

    /** A module's handle by name: the executable, else the record of the system library the
        name stands for, written at the place offered when it has none yet, else nothing. */
    method ModuleHandle(name: string, offered: Option<nat>) returns (handle: Option<nat>)
      requires Valid()
      requires offered.Some? ==> offered.value !in modules && offered.value + RECORD_SIZE <= TWO_32
                                 && ApartFrom(pages, offered.value, RECORD_SIZE)
      modifies guest, `modules
      ensures Valid()
      ensures NamesExecutable(name) ==>
        handle == (if executableRecord == 0 then None else Some(executableRecord))
        && modules == old(modules) && guest.bytes == old(guest.bytes)
      ensures var library := SystemLibrary(Wanted(name));
        !NamesExecutable(name) && library.None? ==>
          handle == None && modules == old(modules) && guest.bytes == old(guest.bytes)
      ensures var library := SystemLibrary(Wanted(name));
        !NamesExecutable(name) && library.Some? ==>
          && (forall r :: r in old(modules) && SameLibrary(old(modules)[r], Module(library.value, false, [])) ==>
                handle == Some(r) && modules == old(modules) && guest.bytes == old(guest.bytes))
          && ((forall r :: r in old(modules) ==>
                 !SameLibrary(old(modules)[r], Module(library.value, false, []))) ==>
                handle == offered
                && (offered.Some? ==>
                      modules == old(modules)[offered.value := Module(library.value, false, [])]
                      && RecordOk(guest.bytes, offered.value, library.value)))
    {
      hide Inv, Wanted, SameLibrary, RecordOk;
      if name == "" {
        return if executableRecord == 0 then None else Some(executableRecord);
      }
      var wanted := Wanted(name);
      if executableRecord != 0 && wanted in executableNames {
        return Some(executableRecord);
      }
      var specs := SystemModules();
      var i := 0;
      while i < |specs|
        invariant 0 <= i <= |specs| && modules == old(modules) && guest.bytes == old(guest.bytes)
        invariant forall j :: 0 <= j < i ==> wanted != specs[j].0 && wanted != specs[j].1
      {
        if wanted == specs[i].0 || wanted == specs[i].1 {
          SystemNamesPlain(i);
          SystemLibraryIs(wanted, i);
          handle := SystemModule(specs[i].0, offered);
          return;
        }
        i := i + 1;
      }
      NoSystemLibrary(wanted);
      handle := None;
    }

    /** An address dispatches to an export exactly when it is the address minted for it. */
    method ThunkTarget(address: nat) returns (target: Option<Target>)
      requires Valid()
      ensures forall t :: target == Some(t) <==>
        ExportKey(t) in thunkByExport && thunkByExport[ExportKey(t)] == address
    {
      hide ExportKey, Written;
      ghost var s := View();
      forall t ensures
        (address in s.byAddress && s.byAddress[address] == t)
        <==> (ExportKey(t) in s.byExport && s.byExport[ExportKey(t)] == address)
      {
        TargetOf(s, address, t);
      }
      if address !in thunkByAddress {
        return None;
      }
      target := Some(thunkByAddress[address]);
    }
  }

  lemma ThunksApart(s: Thunks, pages: set<nat>, record: nat)
    requires Inv(s, pages) && ApartFrom(pages, record, RECORD_SIZE)
    ensures forall a :: a in s.byAddress ==> a + THUNK_SIZE <= record || record + RECORD_SIZE <= a
    ensures Placed(s, pages)
  {
    hide PageOf;
    forall a | a in s.byAddress ensures a + THUNK_SIZE <= record || record + RECORD_SIZE <= a {
      assert InPage(a, pages);
      WithinPage(a);
    }
  }

  lemma SystemLibraryIs(wanted: string, i: nat)
    requires i < 3 && (wanted == SystemModules()[i].0 || wanted == SystemModules()[i].1)
    ensures SystemLibrary(wanted) == Some(SystemModules()[i].0)
  {
  }

  lemma NoSystemLibrary(wanted: string)
    requires forall j :: 0 <= j < 3 ==> wanted != SystemModules()[j].0 && wanted != SystemModules()[j].1
    ensures SystemLibrary(wanted) == None
  {
    assert wanted != SystemModules()[0].0 && wanted != SystemModules()[1].0 && wanted != SystemModules()[2].0;
  }

  lemma SystemNamesPlain(i: nat)
    requires i < 3
    ensures PlainName(SystemModules()[i].0)
  {
  }

  lemma WordInside(m: Memory, a: nat, n: nat, k: nat, v: nat)
    requires k < n && a + 4 * n <= TWO_32
    ensures OnlyInside(m, Write32(m, a + 4 * k, v), a, a + 4 * n)
  {
    hide Read8, Write32;
    Frame32(m, a + 4 * k, v);
  }

  /** Every thunk ends at or before the next free place, or lies in another page. */
  lemma BeforeOrElsewhere(s: Thunks, pages: set<nat>)
    requires Placed(s, pages) && s.page != 0 && s.used + THUNK_SIZE <= PAGE_BYTES
    ensures forall a :: a in s.byAddress ==> a + THUNK_SIZE <= s.page + s.used || s.page + s.used + THUNK_SIZE <= a
  {
    hide PageOf;
    forall a | a in s.byAddress ensures a + THUNK_SIZE <= s.page + s.used || s.page + s.used + THUNK_SIZE <= a {
      assert InPage(a, pages);
      WithinPage(a);
      PageOfWithin(s.page, s.used);
      if PageOf(a) == s.page { NextSlot(a, s.page + s.used); } else { OtherPage(PageOf(a), s.page); }
    }
  }

  lemma OtherPage(p: nat, q: nat)
    requires p != q && p % PAGE_BYTES == 0 && q % PAGE_BYTES == 0
    ensures p + PAGE_BYTES <= q || q + PAGE_BYTES <= p
  {
  }
}
