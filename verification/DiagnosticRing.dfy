/**
  The lock-free diagnostic event ring as a state machine.

  Every atomic load, store, fetch-add and compare-exchange of `record`,
  `snapshot` and `clear` is one step, so a run is an arbitrary interleaving of
  any number of concurrent calls.  Thread-local computation between two atomic
  operations belongs to the step before it.
  */
module DiagnosticRing {
  import opened DiagnosticEvents

  const CAPACITY := 0x1_0000

  datatype Slot = Slot(version: nat, words: Words)

  /** Where a `record` call is: about to load the version, about to compare-exchange
      against `current`, or owning the slot with `stored` words written. */
  datatype WriterPc = Loading | Claiming(current: nat) | Storing(stored: nat)

  datatype Writer = Writer(event: Event, pc: WriterPc)

  datatype Phase = LoadBase | LoadVersion | LoadWords

  /** A `snapshot` call.  `quiet` is a history variable: no `record` call has been
      in progress at any moment since this snapshot loaded `end`. */
  datatype Reader = Reader(
    end: nat, begin: nat, cursor: nat, phase: Phase, words: seq<U64>,
    events: seq<Event>, quiet: bool)

  /** `log` is a history variable: the event drawn with each sequence number.
      Writers are keyed by the sequence they drew, readers and clears by caller. */
  datatype Ring = Ring(
    next: nat, base: nat, slots: seq<Slot>, writers: map<nat, Writer>,
    readers: map<nat, Reader>, clears: map<nat, nat>, log: seq<Event>)

  datatype Step =
    | Draw(event: Event)
    | Load(s: nat)
    | Claim(s: nat, spurious: bool)
    | Store(s: nat)
    | Publish(s: nat)
    | ReadEnd(r: nat)
    | ReadBase(r: nat)
    | ReadVersion(r: nat)
    | ReadWord(r: nat)
    | Recheck(r: nat)
    | ClearLoad(c: nat)
    | ClearStore(c: nat)

  function Init(): Ring {
    Ring(0, 0, seq(CAPACITY, _ => Slot(0, [0, 0, 0, 0, 0, 0])), map[], map[], map[], [])
  }

  function SlotOf(s: nat): (k: nat)
    ensures k < CAPACITY
  {
    s % CAPACITY
  }

  predicate Shaped(g: Ring) {
    && |g.slots| == CAPACITY
    && (forall s :: s in g.writers && g.writers[s].pc.Storing? ==> g.writers[s].pc.stored <= WORDS)
    && (forall r :: r in g.readers ==> |g.readers[r].words| <= WORDS)
  }

  predicate Enabled(g: Ring, step: Step)
    requires Shaped(g)
  {
    match step
    case Draw(_) => true
    case Load(s) => s in g.writers && g.writers[s].pc.Loading?
    case Claim(s, _) => s in g.writers && g.writers[s].pc.Claiming?
    case Store(s) => s in g.writers && g.writers[s].pc.Storing? && g.writers[s].pc.stored < WORDS
    case Publish(s) => s in g.writers && g.writers[s].pc.Storing? && g.writers[s].pc.stored == WORDS
    case ReadEnd(r) => r !in g.readers
    case ReadBase(r) => r in g.readers && g.readers[r].phase.LoadBase?
    case ReadVersion(r) =>
      r in g.readers && g.readers[r].phase.LoadVersion? && g.readers[r].cursor < g.readers[r].end
    case ReadWord(r) =>
      r in g.readers && g.readers[r].phase.LoadWords? && |g.readers[r].words| < WORDS
    case Recheck(r) =>
      r in g.readers && g.readers[r].phase.LoadWords? && |g.readers[r].words| == WORDS
    case ClearLoad(c) => c !in g.clears
    case ClearStore(c) => c in g.clears
  }

  /** The loop head of `record` once `current` is known: give up, wait, or try to claim. */
  function Branch(g: Ring, s: nat, current: nat): Ring
    requires s in g.writers
  {
    if current >= 2 * s + 1 then
      g.(writers := g.writers - {s})
    else if current % 2 == 1 then
      g.(writers := g.writers[s := g.writers[s].(pc := Loading)])
    else
      g.(writers := g.writers[s := g.writers[s].(pc := Claiming(current))])
  }

  function Begin(base: nat, end: nat): nat {
    if end > CAPACITY && end - CAPACITY > base then end - CAPACITY else base
  }

  function Disturb(readers: map<nat, Reader>): map<nat, Reader> {
    map r | r in readers :: readers[r].(quiet := false)
  }

  function AfterDraw(g: Ring, event: Event): Ring {
    var e := event.(sequence := g.next);
    g.(next := g.next + 1, writers := g.writers[g.next := Writer(e, Loading)],
       readers := Disturb(g.readers), log := g.log + [e])
  }

  function AfterClaim(g: Ring, s: nat, spurious: bool): Ring
    requires Shaped(g) && Enabled(g, Claim(s, spurious))
  {
    var slot := g.slots[SlotOf(s)];
    if slot.version == g.writers[s].pc.current && !spurious then
      g.(slots := g.slots[SlotOf(s) := slot.(version := 2 * s + 1)],
         writers := g.writers[s := g.writers[s].(pc := Storing(0))])
    else
      Branch(g, s, slot.version)
  }

  function AfterStore(g: Ring, s: nat): Ring
    requires Shaped(g) && Enabled(g, Store(s))
  {
    var slot, i := g.slots[SlotOf(s)], g.writers[s].pc.stored;
    var words := slot.words[i := Encode(g.writers[s].event)[i]];
    g.(slots := g.slots[SlotOf(s) := slot.(words := words)],
       writers := g.writers[s := g.writers[s].(pc := Storing(i + 1))])
  }

  function AfterPublish(g: Ring, s: nat): Ring
    requires Shaped(g) && Enabled(g, Publish(s))
  {
    g.(slots := g.slots[SlotOf(s) := g.slots[SlotOf(s)].(version := 2 * s + 2)],
       writers := g.writers - {s})
  }

  /** The next state of a reader that takes a step; `end` is loaded by `ReadEnd`. */
  function ReaderAfter(g: Ring, step: Step): Reader
    requires Shaped(g) && Enabled(g, step)
    requires step.ReadBase? || step.ReadVersion? || step.ReadWord? || step.Recheck?
  {
    var d := g.readers[step.r];
    var slot := g.slots[SlotOf(d.cursor)];
    match step
    case ReadBase(_) =>
      var begin := Begin(g.base, d.end);
      d.(begin := begin, cursor := begin, phase := LoadVersion)
    case ReadVersion(_) =>
      if slot.version == 2 * d.cursor + 2
      then d.(phase := LoadWords, words := [])
      else d.(cursor := d.cursor + 1)
    case ReadWord(_) => d.(words := d.words + [slot.words[|d.words|]])
    case Recheck(_) =>
      d.(phase := LoadVersion, cursor := d.cursor + 1,
         events := if slot.version == 2 * d.cursor + 2
                   then d.events + [Decode(d.cursor, d.words)] else d.events)
  }

  function Apply(g: Ring, step: Step): Ring
    requires Shaped(g) && Enabled(g, step)
  {
    match step
    case Draw(event) => AfterDraw(g, event)
    case Load(s) => Branch(g, s, g.slots[SlotOf(s)].version)
    case Claim(s, spurious) => AfterClaim(g, s, spurious)
    case Store(s) => AfterStore(g, s)
    case Publish(s) => AfterPublish(g, s)
    case ReadEnd(r) =>
      g.(readers := g.readers[r := Reader(g.next, 0, 0, LoadBase, [], [], g.writers == map[])])
    case ReadBase(r) => g.(readers := g.readers[r := ReaderAfter(g, step)])
    case ReadVersion(r) => g.(readers := g.readers[r := ReaderAfter(g, step)])
    case ReadWord(r) => g.(readers := g.readers[r := ReaderAfter(g, step)])
    case Recheck(r) => g.(readers := g.readers[r := ReaderAfter(g, step)])
    case ClearLoad(c) => g.(clears := g.clears[c := g.next])
    case ClearStore(c) => g.(base := g.clears[c], clears := g.clears - {c})
  }

  // ---------------------------------------------------------------- invariant

  predicate SlotOk(g: Ring, k: nat)
    requires |g.slots| == CAPACITY && k < CAPACITY && |g.log| == g.next
  {
    var v := g.slots[k].version;
    if v == 0 then true
    else if v % 2 == 1 then
      var s := (v - 1) / 2;
      SlotOf(s) == k && s in g.writers && g.writers[s].pc.Storing?
    else
      var s := (v - 2) / 2;
      SlotOf(s) == k && s < g.next && g.slots[k].words == Encode(g.log[s])
  }

  predicate WriterOk(g: Ring, s: nat)
    requires |g.slots| == CAPACITY && |g.log| == g.next && s in g.writers
  {
    && s < g.next
    && g.writers[s].event == g.log[s]
    && var slot := g.slots[SlotOf(s)];
       match g.writers[s].pc
       case Loading => true
       case Claiming(current) => current % 2 == 0 && current < 2 * s + 1 && current <= slot.version
       case Storing(i) =>
         i <= WORDS && slot.version == 2 * s + 1 && slot.words[..i] == Encode(g.log[s])[..i]
  }

  /** A sequence whose `record` has returned was published or overtaken. */
  predicate Settled(g: Ring, s: nat)
    requires |g.slots| == CAPACITY
  {
    s in g.writers || g.slots[SlotOf(s)].version >= 2 * s + 2
  }

  predicate Faithful(g: Ring, events: seq<Event>, begin: nat, end: nat)
    requires |g.log| == g.next
  {
    && (forall i :: 0 <= i < |events| ==>
          begin <= events[i].sequence < end && events[i].sequence < g.next && events[i] == g.log[events[i].sequence])
    && (forall i, j :: 0 <= i < j < |events| ==> events[i].sequence < events[j].sequence)
  }

  predicate ReaderOk(g: Ring, d: Reader)
    requires |g.slots| == CAPACITY && |g.log| == g.next
  {
    && d.end <= g.next
    && |d.words| <= WORDS
    && d.begin <= d.cursor
    && (d.cursor == d.begin || d.cursor <= d.end)
    && (d.phase.LoadBase? ==> d.begin == d.cursor == 0 && d.events == [])
    && Faithful(g, d.events, d.begin, d.cursor)
    && (d.phase.LoadWords? ==>
          && d.cursor < d.end
          && g.slots[SlotOf(d.cursor)].version >= 2 * d.cursor + 2
          && (g.slots[SlotOf(d.cursor)].version == 2 * d.cursor + 2 ==>
                d.words == Encode(g.log[d.cursor])[..|d.words|]))
    && (d.quiet ==>
          && g.writers == map[]
          && d.end == g.next
          && (!d.phase.LoadBase? ==> d.end <= d.begin + CAPACITY)
          && d.events == (if d.begin <= d.end then g.log[d.begin..d.cursor] else [])
          && (d.phase.LoadWords? ==> g.slots[SlotOf(d.cursor)].version == 2 * d.cursor + 2))
  }

  predicate Inv(g: Ring) {
    && Shaped(g)
    && |g.log| == g.next
    && g.base <= g.next
    && (forall s :: 0 <= s < g.next ==> g.log[s].sequence == s)
    && (forall c :: c in g.clears ==> g.clears[c] <= g.next)
    && (forall k :: 0 <= k < CAPACITY ==> SlotOk(g, k))
    && (forall s :: s in g.writers ==> WriterOk(g, s))
    && (forall s :: 0 <= s < g.next ==> Settled(g, s))
    && (forall r :: r in g.readers ==> ReaderOk(g, g.readers[r]))
  }

  lemma InitInv()
    ensures Inv(Init())
  {
  }

  lemma WritersChanged(g: Ring, s: nat, writers: map<nat, Writer>)
    requires Inv(g) && s in g.writers && !g.writers[s].pc.Storing?
    requires forall t :: t != s ==> (t in writers <==> t in g.writers)
    requires forall t :: t != s && t in writers ==> writers[t] == g.writers[t]
    requires s in writers ==> WriterOk(g.(writers := writers), s) && !writers[s].pc.Storing?
    requires s in writers || g.slots[SlotOf(s)].version >= 2 * s + 2
    ensures Inv(g.(writers := writers))
  {
    hide Encode, Faithful, SlotOf;
    var g' := g.(writers := writers);
    forall k | 0 <= k < CAPACITY ensures SlotOk(g', k) { assert SlotOk(g, k); }
    forall t | t in writers && t != s ensures WriterOk(g', t) { assert WriterOk(g, t); }
    forall t | 0 <= t < g.next ensures Settled(g', t) { assert Settled(g, t); }
    forall r | r in g'.readers ensures ReaderOk(g', g'.readers[r]) {
      assert ReaderOk(g, g.readers[r]);
      assert !g.readers[r].quiet;
      SameLog(g, g', g.readers[r]);
    }
  }

  lemma BranchInv(g: Ring, s: nat)
    requires Inv(g) && s in g.writers && !g.writers[s].pc.Storing?
    ensures Inv(Branch(g, s, g.slots[SlotOf(s)].version))
  {
    var current := g.slots[SlotOf(s)].version;
    assert WriterOk(g, s);
    if current >= 2 * s + 1 { GivenUp(g, s); }
    WritersChanged(g, s, Branch(g, s, current).writers);
  }

  /** A writer that gives up was overtaken: its own odd version is never in its slot. */
  lemma GivenUp(g: Ring, s: nat)
    requires Inv(g) && s in g.writers && !g.writers[s].pc.Storing?
    requires g.slots[SlotOf(s)].version >= 2 * s + 1
    ensures g.slots[SlotOf(s)].version >= 2 * s + 2
  {
    assert SlotOk(g, SlotOf(s));
  }

  /** A writer that changes only its own slot, to a version no reader can mistake,
      keeps every reader and every settled sequence. */
  lemma OwnSlotFrame(g: Ring, g': Ring, s: nat)
    requires Inv(g) && s in g.writers && |g'.slots| == CAPACITY
    requires g' == g.(slots := g'.slots, writers := g'.writers)
    requires forall k :: 0 <= k < CAPACITY && k != SlotOf(s) ==> g'.slots[k] == g.slots[k]
    requires g'.slots[SlotOf(s)].version >= g.slots[SlotOf(s)].version
    requires g'.slots[SlotOf(s)].version == g.slots[SlotOf(s)].version ==> g.slots[SlotOf(s)].version % 2 == 1
    requires forall t :: t in g.writers && t != s ==> t in g'.writers
    requires s in g'.writers || g'.slots[SlotOf(s)].version >= 2 * s + 2
    ensures forall t :: 0 <= t < g.next ==> Settled(g', t)
    ensures forall r :: r in g.readers ==> ReaderOk(g', g.readers[r])
  {
    forall t | 0 <= t < g.next ensures Settled(g', t) { assert Settled(g, t); }
    forall r | r in g.readers ensures ReaderOk(g', g.readers[r]) {
      assert ReaderOk(g, g.readers[r]);
      assert !g.readers[r].quiet;
    }
  }

  lemma OthersUntouched(g: Ring, g': Ring, s: nat)
    requires Inv(g) && s in g.writers && |g'.slots| == CAPACITY
    requires g' == g.(slots := g'.slots, writers := g'.writers)
    requires forall k :: 0 <= k < CAPACITY && k != SlotOf(s) ==> g'.slots[k] == g.slots[k]
    requires g'.slots[SlotOf(s)].version >= g.slots[SlotOf(s)].version
    requires forall t :: t != s ==> (t in g.writers <==> t in g'.writers)
    requires forall t :: t != s && t in g.writers ==> g.writers[t] == g'.writers[t]
    requires g.writers[s].pc.Storing? || g.slots[SlotOf(s)].version % 2 == 0
    ensures forall k :: 0 <= k < CAPACITY && k != SlotOf(s) ==> SlotOk(g', k)
    ensures forall t :: t in g'.writers && t != s ==> WriterOk(g', t)
  {
    forall k | 0 <= k < CAPACITY && k != SlotOf(s) ensures SlotOk(g', k) { assert SlotOk(g, k); }
    forall t | t in g'.writers && t != s ensures WriterOk(g', t) {
      assert WriterOk(g, t) && WriterOk(g, s) && SlotOk(g, SlotOf(s));
    }
  }

  lemma DrawSlot(g: Ring, event: Event, k: nat)
    requires |g.slots| == CAPACITY && k < CAPACITY && |g.log| == g.next && SlotOk(g, k)
    requires g.next !in g.writers
    ensures SlotOk(AfterDraw(g, event), k)
  {
    hide Encode;
  }

  lemma DrawWriter(g: Ring, event: Event, s: nat)
    requires |g.slots| == CAPACITY && |g.log| == g.next && (s in g.writers ==> WriterOk(g, s))
    requires s in AfterDraw(g, event).writers && g.next !in g.writers
    ensures WriterOk(AfterDraw(g, event), s)
  {
    hide Encode;
  }

  lemma NotDrawnYet(g: Ring)
    requires Inv(g)
    ensures g.next !in g.writers
  {
    assert g.next in g.writers ==> WriterOk(g, g.next);
  }

  lemma DrawInv(g: Ring, event: Event)
    requires Inv(g)
    ensures Inv(Apply(g, Draw(event)))
  {
    hide SlotOk, WriterOk, ReaderOk, Encode;
    var g' := AfterDraw(g, event);
    NotDrawnYet(g);
    forall k | 0 <= k < CAPACITY ensures SlotOk(g', k) { DrawSlot(g, event, k); }
    forall s | s in g'.writers ensures WriterOk(g', s) { DrawWriter(g, event, s); }
    forall s | 0 <= s < g'.next ensures Settled(g', s) { assert s < g.next ==> Settled(g, s); }
    forall r | r in g'.readers ensures ReaderOk(g', g'.readers[r]) {
      assert ReaderOk(g, g.readers[r]);
      DrawReader(g, event, g.readers[r]);
    }
  }

  lemma DrawReader(g: Ring, event: Event, d: Reader)
    requires |g.slots| == CAPACITY && |g.log| == g.next && ReaderOk(g, d)
    ensures ReaderOk(AfterDraw(g, event), d.(quiet := false))
  {
  }

  lemma WriterFacts(g: Ring, s: nat)
    requires Inv(g) && s in g.writers
    ensures Shaped(g) && |g.log| == g.next && WriterOk(g, s)
  {
  }

  lemma ClaimOwn(g: Ring, s: nat)
    requires Shaped(g) && |g.log| == g.next && s in g.writers && WriterOk(g, s) && Enabled(g, Claim(s, false))
    requires g.slots[SlotOf(s)].version == g.writers[s].pc.current
    ensures |AfterClaim(g, s, false).slots| == CAPACITY && s in AfterClaim(g, s, false).writers
    ensures SlotOk(AfterClaim(g, s, false), SlotOf(s)) && WriterOk(AfterClaim(g, s, false), s)
  {
  }

  lemma ClaimInv(g: Ring, s: nat)
    requires Inv(g) && Enabled(g, Claim(s, false))
    requires g.slots[SlotOf(s)].version == g.writers[s].pc.current
    ensures Inv(Apply(g, Claim(s, false)))
  {
    hide WriterOk, SlotOk, ReaderOk, Settled;
    var g' := AfterClaim(g, s, false);
    WriterFacts(g, s);
    ClaimingFacts(g, s);
    OwnSlotFrame(g, g', s);
    OthersUntouched(g, g', s);
    ClaimOwn(g, s);
  }

  lemma ClaimingFacts(g: Ring, s: nat)
    requires |g.slots| == CAPACITY && |g.log| == g.next && s in g.writers && WriterOk(g, s) && g.writers[s].pc.Claiming?
    ensures g.writers[s].pc.current % 2 == 0 && g.writers[s].pc.current < 2 * s + 1
  {
  }

  lemma StoreOwn(g: Ring, s: nat)
    requires Shaped(g) && |g.log| == g.next && s in g.writers && WriterOk(g, s) && Enabled(g, Store(s))
    ensures |AfterStore(g, s).slots| == CAPACITY && s in AfterStore(g, s).writers
    ensures SlotOk(AfterStore(g, s), SlotOf(s)) && WriterOk(AfterStore(g, s), s)
  {
    hide Encode;
    var g', k := AfterStore(g, s), SlotOf(s);
    var i, w := g.writers[s].pc.stored, Encode(g.log[s]);
    assert g'.slots[k].words[..i + 1] == g.slots[k].words[..i] + [w[i]];
    assert w[..i + 1] == w[..i] + [w[i]];
  }

  lemma StoringFacts(g: Ring, s: nat)
    requires |g.slots| == CAPACITY && |g.log| == g.next && s in g.writers && WriterOk(g, s) && g.writers[s].pc.Storing?
    ensures g.slots[SlotOf(s)].version == 2 * s + 1
  {
  }

  /** A stored word leaves the slot's version and every other slot and writer alone. */
  lemma StoreFrame(g: Ring, s: nat)
    requires Shaped(g) && Enabled(g, Store(s))
    ensures var g' := AfterStore(g, s);
      && |g'.slots| == CAPACITY && g' == g.(slots := g'.slots, writers := g'.writers)
      && (forall k :: 0 <= k < CAPACITY && k != SlotOf(s) ==> g'.slots[k] == g.slots[k])
      && g'.slots[SlotOf(s)].version == g.slots[SlotOf(s)].version
      && g'.writers.Keys == g.writers.Keys
      && (forall t :: t != s && t in g.writers ==> g.writers[t] == g'.writers[t])
      && g'.writers[s].pc.Storing? && g'.writers[s].pc.stored <= WORDS
  {
    hide Encode, SlotOf;
  }

  lemma StoreInv(g: Ring, s: nat)
    requires Inv(g) && Enabled(g, Store(s))
    ensures Inv(Apply(g, Store(s)))
  {
    hide SlotOk, WriterOk, ReaderOk, Settled, Encode, AfterStore, SlotOf;
    var g' := AfterStore(g, s);
    WriterFacts(g, s);
    StoringFacts(g, s);
    StoreFrame(g, s);
    OwnSlotFrame(g, g', s);
    OthersUntouched(g, g', s);
    StoreOwn(g, s);
    assert Shaped(g') by { StoredShaped(g, g', s); }
  }

  lemma StoredShaped(g: Ring, g': Ring, s: nat)
    requires Shaped(g) && |g'.slots| == CAPACITY && g' == g.(slots := g'.slots, writers := g'.writers)
    requires g'.writers.Keys == g.writers.Keys && s in g.writers
    requires g'.writers[s].pc.Storing? && g'.writers[s].pc.stored <= WORDS
    requires forall t :: t != s && t in g.writers ==> g.writers[t] == g'.writers[t]
    ensures Shaped(g')
  {
  }

  lemma PublishInv(g: Ring, s: nat)
    requires Inv(g) && Enabled(g, Publish(s))
    ensures Inv(Apply(g, Publish(s)))
  {
    var g', k := Apply(g, Publish(s)), SlotOf(s);
    assert WriterOk(g, s);
    OwnSlotFrame(g, g', s);
    OthersUntouched(g, g', s);
    assert g.slots[k].words == g.slots[k].words[..WORDS];
    assert Encode(g.log[s]) == Encode(g.log[s])[..WORDS];
    assert SlotOk(g', k);
  }

  /** With no writer in progress, a slot the ring still retains holds exactly the
      last event drawn for it. */
  lemma RestingSlot(g: Ring, s: nat)
    requires Inv(g) && g.writers == map[] && s < g.next <= s + CAPACITY
    ensures g.slots[SlotOf(s)] == Slot(2 * s + 2, Encode(g.log[s]))
  {
    hide Encode;
    assert Settled(g, s) && SlotOk(g, SlotOf(s));
    var v := g.slots[SlotOf(s)].version;
    var m := (v - 2) / 2;
    assert v % 2 == 0 && m < g.next && SlotOf(m) == SlotOf(s) && m >= s;
  }

  lemma ReadEndInv(g: Ring, r: nat)
    requires Inv(g) && Enabled(g, ReadEnd(r))
    ensures Inv(Apply(g, ReadEnd(r)))
  {
    hide Inv, ReaderOk;
    FreshReader(g);
    ReaderReplaced(g, r, Reader(g.next, 0, 0, LoadBase, [], [], g.writers == map[]));
  }

  lemma FreshReader(g: Ring)
    requires Inv(g)
    ensures Shaped(g) && |g.log| == g.next
    ensures ReaderOk(g, Reader(g.next, 0, 0, LoadBase, [], [], g.writers == map[]))
  {
  }

  lemma ReaderStepInv(g: Ring, step: Step)
    requires Inv(g) && Enabled(g, step)
    requires step.ReadBase? || step.ReadVersion? || step.ReadWord? || step.Recheck?
    ensures Inv(Apply(g, step))
  {
    hide Inv, ReaderOk;
    FreshReader(g);
    match step
    case ReadBase(r) => ReadBaseOk(g, r); ReaderReplaced(g, r, ReaderAfter(g, step));
    case ReadVersion(r) => ReadVersionOk(g, r); ReaderReplaced(g, r, ReaderAfter(g, step));
    case ReadWord(r) => ReadWordOk(g, r); ReaderReplaced(g, r, ReaderAfter(g, step));
    case Recheck(r) => RecheckOk(g, r); ReaderReplaced(g, r, ReaderAfter(g, step));
  }

  lemma ReadBaseOk(g: Ring, r: nat)
    requires Inv(g) && Enabled(g, ReadBase(r))
    ensures ReaderOk(g, ReaderAfter(g, ReadBase(r)))
  {
    assert ReaderOk(g, g.readers[r]);
  }

  lemma SameLog(g: Ring, g': Ring, d: Reader)
    requires |g.log| == g.next && g'.log == g.log && g'.next == g.next
    ensures Faithful(g, d.events, d.begin, d.cursor) == Faithful(g', d.events, d.begin, d.cursor)
  {
  }

  lemma ReaderReplaced(g: Ring, r: nat, d: Reader)
    requires Inv(g) && ReaderOk(g, d)
    ensures Inv(g.(readers := g.readers[r := d]))
  {
    var g' := g.(readers := g.readers[r := d]);
    hide Encode, Faithful;
    forall k | 0 <= k < CAPACITY ensures SlotOk(g', k) { assert SlotOk(g, k); }
    forall s | s in g'.writers ensures WriterOk(g', s) { assert WriterOk(g, s); }
    forall s | 0 <= s < g'.next ensures Settled(g', s) { assert Settled(g, s); }
    forall q | q in g'.readers ensures ReaderOk(g', g'.readers[q]) {
      assert ReaderOk(g, g'.readers[q]);
      SameLog(g, g', g'.readers[q]);
    }
  }

  lemma ReadVersionOk(g: Ring, r: nat)
    requires Inv(g) && Enabled(g, ReadVersion(r))
    ensures ReaderOk(g, ReaderAfter(g, ReadVersion(r)))
  {
    var d := g.readers[r];
    assert ReaderOk(g, d);
    if d.quiet { RestingSlot(g, d.cursor); }
  }

  lemma ReadWordOk(g: Ring, r: nat)
    requires Inv(g) && Enabled(g, ReadWord(r))
    ensures ReaderOk(g, ReaderAfter(g, ReadWord(r)))
  {
    var d := g.readers[r];
    assert ReaderOk(g, d) && SlotOk(g, SlotOf(d.cursor));
    if g.slots[SlotOf(d.cursor)].version == 2 * d.cursor + 2 {
      var w := Encode(g.log[d.cursor]);
      assert w[..|d.words| + 1] == w[..|d.words|] + [w[|d.words|]];
    }
  }

  lemma FaithfulAppend(g: Ring, events: seq<Event>, begin: nat, s: nat)
    requires Inv(g) && Faithful(g, events, begin, s) && begin <= s < g.next
    ensures Faithful(g, events + [g.log[s]], begin, s + 1)
    ensures Faithful(g, events, begin, s + 1)
  {
  }

  lemma RecheckDecodes(g: Ring, d: Reader)
    requires Inv(g) && ReaderOk(g, d) && d.phase.LoadWords? && |d.words| == WORDS
    requires g.slots[SlotOf(d.cursor)].version == 2 * d.cursor + 2
    ensures Decode(d.cursor, d.words) == g.log[d.cursor]
  {
  }

  lemma Collected(g: Ring, d: Reader)
    requires |g.slots| == CAPACITY && |g.log| == g.next
    requires ReaderOk(g, d) && d.phase.LoadWords?
    requires Faithful(g, d.events + [g.log[d.cursor]], d.begin, d.cursor + 1)
    ensures ReaderOk(g, d.(phase := LoadVersion, cursor := d.cursor + 1, events := d.events + [g.log[d.cursor]]))
  {
  }

  lemma Skipped(g: Ring, d: Reader)
    requires |g.slots| == CAPACITY && |g.log| == g.next
    requires ReaderOk(g, d) && d.phase.LoadWords?
    requires g.slots[SlotOf(d.cursor)].version != 2 * d.cursor + 2
    requires Faithful(g, d.events, d.begin, d.cursor + 1)
    ensures ReaderOk(g, d.(phase := LoadVersion, cursor := d.cursor + 1))
  {
  }

  lemma ReaderFacts(g: Ring, r: nat)
    requires Inv(g) && r in g.readers
    ensures |g.slots| == CAPACITY && |g.log| == g.next && ReaderOk(g, g.readers[r])
  {
  }

  lemma CursorFacts(g: Ring, d: Reader)
    requires |g.slots| == CAPACITY && |g.log| == g.next && ReaderOk(g, d) && d.phase.LoadWords?
    ensures d.begin <= d.cursor < d.end <= g.next && Faithful(g, d.events, d.begin, d.cursor)
  {
  }

  lemma RecheckOk(g: Ring, r: nat)
    requires Inv(g) && Enabled(g, Recheck(r))
    ensures ReaderOk(g, ReaderAfter(g, Recheck(r)))
  {
    hide Inv, Encode, Decode, Faithful, ReaderOk, SlotOf;
    ReaderFacts(g, r);
    var d := g.readers[r];
    CursorFacts(g, d);
    FaithfulAppend(g, d.events, d.begin, d.cursor);
    if g.slots[SlotOf(d.cursor)].version == 2 * d.cursor + 2 {
      RecheckDecodes(g, d);
      Collected(g, d);
    } else {
      Skipped(g, d);
    }
  }

  /** Nothing but the base and the clears in progress changed. */
  lemma ClearInv(g: Ring, base: nat, clears: map<nat, nat>)
    requires Inv(g) && base <= g.next && forall c :: c in clears ==> clears[c] <= g.next
    ensures Inv(g.(base := base, clears := clears))
  {
    var g' := g.(base := base, clears := clears);
    hide Encode, Faithful;
    forall k | 0 <= k < CAPACITY ensures SlotOk(g', k) { assert SlotOk(g, k); }
    forall s | s in g'.writers ensures WriterOk(g', s) { assert WriterOk(g, s); }
    forall s | 0 <= s < g'.next ensures Settled(g', s) { assert Settled(g, s); }
    forall q | q in g'.readers ensures ReaderOk(g', g'.readers[q]) {
      assert ReaderOk(g, g.readers[q]);
      SameLog(g, g', g.readers[q]);
    }
  }

  lemma StepInv(g: Ring, step: Step)
    requires Inv(g) && Enabled(g, step)
    ensures Inv(Apply(g, step))
  {
    match step
    case Draw(event) => DrawInv(g, event);
    case Load(s) => BranchInv(g, s);
    case Claim(s, spurious) =>
      if g.slots[SlotOf(s)].version == g.writers[s].pc.current && !spurious {
        ClaimInv(g, s);
      } else {
        BranchInv(g, s);
      }
    case Store(s) => StoreInv(g, s);
    case Publish(s) => PublishInv(g, s);
    case ReadEnd(r) => ReadEndInv(g, r);
    case ReadBase(_) => ReaderStepInv(g, step);
    case ReadVersion(_) => ReaderStepInv(g, step);
    case ReadWord(_) => ReaderStepInv(g, step);
    case Recheck(_) => ReaderStepInv(g, step);
    case ClearLoad(c) => ClearInv(g, g.base, g.clears[c := g.next]);
    case ClearStore(c) => ClearInv(g, g.clears[c], g.clears - {c});
  }
}
