/**
  The life of render-client registrations and their guest callbacks, over every
  interleaving.  One step is one section under the client lock, one guest callback
  starting or returning, or one allocation or release of a callback argument.
*/
module CallbackProtocol {
  import opened Wrappers
  import opened RenderClients

  /** Who is responsible for releasing a live wrapper. */
  datatype Owner = Slot(index: nat) | Caller(thread: nat) | Pump

  /** A collected callback.  `registration` is a history variable. */
  datatype Pending = Pending(index: nat, callback: U32, wrapper: U32, registration: nat)

  datatype Phase =
    | Ready                                 // before the check that the pump still runs
    | Calling(waitingFor: Option<nat>)      // in the guest callback, or in an unregister it made
    | Back(invoked: bool)                   // returned, lock not yet taken
    | Releasing(wrapper: U32)               // slot freed, wrapper still to be released

  datatype PumpState = Waiting | Delivering(items: seq<Pending>, phase: Phase) | Exited

  /** What happened to the current registration of a slot: history variables. */
  datatype Trace = Trace(registration: nat, sent: seq<Frame>, heard: seq<Stereo>)

  /** `live` maps every allocated wrapper to its owner; the owner is a history variable.
      `ownsPump` tells whether the audio system joins the pump thread itself. */
  datatype State = State(
    clients: seq<Client>, traces: seq<Trace>, live: map<U32, Owner>,
    inserting: map<nat, (U32, U32)>, releasing: map<nat, U32>, waiting: map<nat, nat>,
    pump: PumpState, ownsPump: bool, running: bool, initialized: bool, registrations: nat)

  datatype Step =
    | Allocate(thread: nat, callback: U32, wrapper: U32)
    | Insert(thread: nat)
    | Release(thread: nat)
    | Unregister(thread: nat, handle: U32)
    | WaitOver(thread: nat)
    | Submit(handle: U32, frame: Option<Frame>)
    | SuspendAll(suspend: bool)
    | Render(frames: nat)
    | Collect
    | Invoke
    | CallbackUnregister(thread: nat, handle: U32)
    | CallbackResume
    | CallbackReturn(invoked: bool)
    | Settled
    | PumpRelease
    | PumpExit
    | Deinitialize
    | StopPump
    | Clear

  function Init(ownsPump: bool): State {
    State(seq(MAX_CLIENTS, _ => FREE), seq(MAX_CLIENTS, _ => Trace(0, [], [])), map[],
          map[], map[], map[], Waiting, ownsPump, true, true, 1)
  }

  predicate Shaped(s: State) {
    && |s.clients| == |s.traces| == MAX_CLIENTS
    && (forall i :: 0 <= i < MAX_CLIENTS ==> Positioned(s.clients[i]))
    && (s.pump.Delivering? ==> s.pump.items != [] && forall p :: p in s.pump.items ==> p.index < MAX_CLIENTS)
  }

  predicate Busy(c: Client) {
    c.registered || c.retiring
  }

  predicate Idle(s: State, thread: nat) {
    thread !in s.inserting && thread !in s.releasing && thread !in s.waiting
  }

  predicate InCallback(s: State) {
    s.pump.Delivering? && s.pump.phase.Calling?
  }

  predicate Enabled(s: State, step: Step)
    requires Shaped(s)
  {
    match step
    case Allocate(t, _, wrapper) => s.initialized && Idle(s, t) && wrapper != 0 && wrapper !in s.live
    case Insert(t) => t in s.inserting
    case Release(t) => t in s.releasing
    case Unregister(t, _) => Idle(s, t)
    case WaitOver(t) => t in s.waiting && s.waiting[t] < MAX_CLIENTS && !s.clients[s.waiting[t]].retiring
    case Submit(_, _) => true
    case SuspendAll(_) => true
    case Render(_) => true
    case Collect => s.pump.Waiting? && s.running
    case Invoke => s.pump.Delivering? && s.pump.phase.Ready?
    case CallbackUnregister(t, _) => Idle(s, t) && InCallback(s) && s.pump.phase.waitingFor.None?
    case CallbackResume =>
      InCallback(s) && s.pump.phase.waitingFor.Some? && s.pump.phase.waitingFor.value < MAX_CLIENTS
      && !s.clients[s.pump.phase.waitingFor.value].retiring
    case CallbackReturn(_) => InCallback(s) && s.pump.phase.waitingFor.None?
    case Settled => s.pump.Delivering? && s.pump.phase.Back?
    case PumpRelease => s.pump.Delivering? && s.pump.phase.Releasing?
    case PumpExit => s.pump.Waiting? && !s.running
    case Deinitialize => s.initialized
    case StopPump => s.running
    case Clear => !s.initialized && !s.running && (s.ownsPump ==> s.pump.Exited?)
  }

  function Next(items: seq<Pending>): PumpState
    requires items != []
  {
    if items[1..] == [] then Waiting else Delivering(items[1..], Ready)
  }

  function AfterInsert(s: State, t: nat): (s': State)
    requires Shaped(s) && t in s.inserting
    ensures s'.ownsPump == s.ownsPump
  {
    var (callback, wrapper) := s.inserting[t];
    var rest := s.inserting - {t};
    match FirstFree(s.clients)
    case None => s.(inserting := rest, releasing := s.releasing[t := wrapper])
    case Some(i) =>
      if i < MAX_CLIENTS then
        s.(inserting := rest, clients := s.clients[i := Registered(s.clients[i], callback, wrapper)],
           traces := s.traces[i := Trace(s.registrations, [], [])],
           live := s.live[wrapper := Slot(i)], registrations := s.registrations + 1)
      else s
  }

  /** `unregister_render_client` by a thread other than the pump. */
  function AfterUnregister(s: State, t: nat, handle: U32): (s': State)
    requires Shaped(s)
    ensures s'.ownsPump == s.ownsPump
  {
    match HandleIndex(handle)
    case None => s
    case Some(i) =>
      var (c, outcome) := Retire(s.clients[i]);
      var s1 := s.(clients := s.clients[i := c]);
      match outcome
      case Rejected => s
      case Freed(wrapper) =>
        if wrapper == 0 then s1
        else s1.(releasing := s.releasing[t := wrapper], live := s.live[wrapper := Caller(t)])
      case CallbackOut => s1.(waiting := s.waiting[t := i])
  }

  /** The same call made by the guest callback the pump is running.  Only a pump thread
      owned by the audio system is recognised as such and spared the wait.  A release the
      call still owes is carried out under the name `t`, possibly late. */
  function AfterCallbackUnregister(s: State, t: nat, handle: U32): (s': State)
    requires Shaped(s) && InCallback(s)
    ensures s'.ownsPump == s.ownsPump
  {
    match HandleIndex(handle)
    case None => s
    case Some(i) =>
      var (c, outcome) := Retire(s.clients[i]);
      var s1 := s.(clients := s.clients[i := c]);
      match outcome
      case Rejected => s
      case Freed(wrapper) =>
        if wrapper == 0 then s1
        else s1.(releasing := s.releasing[t := wrapper], live := s.live[wrapper := Caller(t)])
      case CallbackOut =>
        if s.ownsPump then s1 else s1.(pump := Delivering(s.pump.items, Calling(Some(i))))
  }

  function AfterSubmit(s: State, handle: U32, frame: Option<Frame>): (s': State)
    requires Shaped(s)
    ensures s'.ownsPump == s.ownsPump
  {
    match HandleIndex(handle)
    case None => s
    case Some(i) =>
      var c := s.clients[i];
      if !c.registered then s
      else
        var sent := if Accepts(c, frame) then s.traces[i].sent + [frame.value] else s.traces[i].sent;
        s.(clients := s.clients[i := Submitted(c, frame)], traces := s.traces[i := s.traces[i].(sent := sent)])
  }

  function AfterRender(s: State, n: nat): (s': State)
    requires Shaped(s)
    ensures s'.ownsPump == s.ownsPump
  {
    s.(clients := RenderedAll(s.clients, n),
       traces := seq(MAX_CLIENTS, i requires 0 <= i < MAX_CLIENTS =>
         if Active(s.clients[i])
         then s.traces[i].(heard := s.traces[i].heard + Played(s.clients[i], n)) else s.traces[i]))
  }

  function Collected(s: State, indices: seq<nat>): seq<Pending>
    requires Shaped(s) && forall k :: 0 <= k < |indices| ==> indices[k] < MAX_CLIENTS
  {
    seq(|indices|, k requires 0 <= k < |indices| =>
      var i := indices[k];
      Pending(i, s.clients[i].callback, s.clients[i].wrapper, s.traces[i].registration))
  }

  function AfterCollect(s: State): (s': State)
    requires Shaped(s)
    ensures s'.ownsPump == s.ownsPump
  {
    DueIndicesExact(s.clients, MAX_CLIENTS);
    var indices := DueIndices(s.clients, MAX_CLIENTS);
    assert forall k :: 0 <= k < |indices| ==> indices[k] in indices;
    var items := Collected(s, indices);
    s.(clients := IssuedAll(s.clients), pump := if items == [] then Waiting else Delivering(items, Ready))
  }

  function AfterSettled(s: State): (s': State)
    requires Shaped(s) && s.pump.Delivering? && s.pump.phase.Back?
    ensures s'.ownsPump == s.ownsPump
  {
    var i := s.pump.items[0].index;
    var (c, wrapper) := Settle(s.clients[i], s.pump.phase.invoked);
    var s1 := s.(clients := s.clients[i := c]);
    if wrapper.Some? && wrapper.value != 0
    then s1.(pump := Delivering(s.pump.items, Releasing(wrapper.value)), live := s.live[wrapper.value := Pump])
    else s1.(pump := Next(s.pump.items))
  }

  /** The locked section of `shutdown`: every wrapper still in a slot is released. */
  function AfterClear(s: State): (s': State)
    requires Shaped(s)
    ensures s'.ownsPump == s.ownsPump
  {
    s.(clients := seq(MAX_CLIENTS, _ => FREE),
       live := s.live - (set i | 0 <= i < MAX_CLIENTS && s.clients[i].wrapper != 0 :: s.clients[i].wrapper))
  }

  function Apply(s: State, step: Step): State
    requires Shaped(s) && Enabled(s, step)
  {
    match step
    case Allocate(t, callback, wrapper) =>
      s.(live := s.live[wrapper := Caller(t)], inserting := s.inserting[t := (callback, wrapper)])
    case Insert(t) => AfterInsert(s, t)
    case Release(t) => s.(releasing := s.releasing - {t}, live := s.live - {s.releasing[t]})
    case Unregister(t, handle) => AfterUnregister(s, t, handle)
    case WaitOver(t) => s.(waiting := s.waiting - {t})
    case Submit(handle, frame) => AfterSubmit(s, handle, frame)
    case SuspendAll(suspend) => s.(clients := Suspended(s.clients, suspend))
    case Render(n) => AfterRender(s, n)
    case Collect => AfterCollect(s)
    case Invoke =>
      s.(pump := Delivering(s.pump.items, if s.running then Calling(None) else Back(false)))
    case CallbackUnregister(t, handle) => AfterCallbackUnregister(s, t, handle)
    case CallbackResume => s.(pump := Delivering(s.pump.items, Calling(None)))
    case CallbackReturn(invoked) => s.(pump := Delivering(s.pump.items, Back(invoked)))
    case Settled => AfterSettled(s)
    case PumpRelease =>
      s.(live := s.live - {s.pump.phase.wrapper}, pump := Next(s.pump.items))
    case PumpExit => s.(pump := Exited)
    case Deinitialize => s.(initialized := false)
    case StopPump => s.(running := false)
    case Clear => AfterClear(s)
  }

  // ---------------------------------------------------------------- invariant

  /** Callbacks collected and not yet settled. */
  function Open(pump: PumpState): seq<Pending> {
    if pump.Delivering? && pump.items != [] then (if pump.phase.Releasing? then pump.items[1..] else pump.items) else []
  }

  predicate Out(open: seq<Pending>, i: nat) {
    exists k :: 0 <= k < |open| && open[k].index == i
  }

  predicate Account(c: Client) {
    && |c.queue| <= MAX_QUEUED && c.credits <= MAX_QUEUED
    && c.counters.issued + c.credits <= MAX_QUEUED + c.counters.consumed
    && c.counters.submitted == c.counters.consumed + |c.queue|
    && c.counters.issued == c.counters.returned + c.inFlight
  }

  predicate ClientOk(c: Client) {
    && !(c.registered && c.retiring)
    && (if Busy(c) then c.wrapper != 0 else c == FREE)
    && (c.registered ==> Account(c))
  }

  predicate StreamOk(c: Client, tr: Trace) {
    && c.counters.consumed <= |tr.sent| == c.counters.submitted
    && c.queue == tr.sent[c.counters.consumed..]
    && c.counters.consumed * FRAME + c.offset <= |Flat(tr.sent)|
    && tr.heard == Flat(tr.sent)[..c.counters.consumed * FRAME + c.offset]
  }

  predicate Matches(c: Client, tr: Trace, p: Pending) {
    Busy(c) && c.wrapper == p.wrapper && c.callback == p.callback && tr.registration == p.registration
  }

  predicate ClientsOk(s: State)
    requires Shaped(s)
  {
    && (forall i :: 0 <= i < MAX_CLIENTS ==> ClientOk(s.clients[i]))
    && (forall i :: 0 <= i < MAX_CLIENTS && s.clients[i].registered ==> StreamOk(s.clients[i], s.traces[i]))
  }

  predicate PendingFor(open: seq<Pending>, clients: seq<Client>, traces: seq<Trace>)
    requires |clients| == |traces| == MAX_CLIENTS
  {
    && (forall a, b :: 0 <= a < b < |open| ==> open[a].index < open[b].index)
    && (forall k :: 0 <= k < |open| ==>
          open[k].index < MAX_CLIENTS && Matches(clients[open[k].index], traces[open[k].index], open[k]))
    && (forall i :: 0 <= i < MAX_CLIENTS ==> clients[i].inFlight == if Out(open, i) then 1 else 0)
  }

  predicate PendingOk(s: State)
    requires Shaped(s)
  {
    PendingFor(Open(s.pump), s.clients, s.traces)
  }

  predicate Owns(s: State, a: U32, owner: Owner)
    requires Shaped(s)
  {
    match owner
    case Slot(i) => i < MAX_CLIENTS && Busy(s.clients[i]) && s.clients[i].wrapper == a
    case Caller(t) => (t in s.inserting && s.inserting[t].1 == a) || (t in s.releasing && s.releasing[t] == a)
    case Pump => s.pump.Delivering? && s.pump.phase == Releasing(a)
  }

  /** Every live wrapper is held by its owner, and every wrapper held is live. */
  predicate LiveOk(s: State)
    requires Shaped(s)
  {
    && (forall a :: a in s.live ==> a != 0 && Owns(s, a, s.live[a]))
    && (forall i :: 0 <= i < MAX_CLIENTS && Busy(s.clients[i]) ==>
          s.clients[i].wrapper in s.live && s.live[s.clients[i].wrapper] == Slot(i))
    && (forall t :: t in s.inserting ==> s.inserting[t].1 in s.live && s.live[s.inserting[t].1] == Caller(t))
    && (forall t :: t in s.releasing ==> s.releasing[t] in s.live && s.live[s.releasing[t]] == Caller(t))
    && (forall t :: t in s.inserting ==> t !in s.releasing)
    && (s.pump.Delivering? && s.pump.phase.Releasing? ==>
          s.pump.phase.wrapper in s.live && s.live[s.pump.phase.wrapper] == Pump)
  }

  predicate Inv(s: State) {
    Shaped(s) && ClientsOk(s) && PendingOk(s) && LiveOk(s)
  }

  lemma InitInv(ownsPump: bool)
    ensures Inv(Init(ownsPump))
  {
  }

  // ------------------------------------------------ steps that keep registrations

  predicate Similar(c: Client, d: Client) {
    c.registered == d.registered && c.retiring == d.retiring && c.callback == d.callback
    && c.wrapper == d.wrapper && c.inFlight == d.inFlight
  }

  lemma SimilarInv(s: State, s': State)
    requires Inv(s) && Shaped(s') && ClientsOk(s')
    requires s' == s.(clients := s'.clients, traces := s'.traces)
    requires forall i :: 0 <= i < MAX_CLIENTS ==>
      Similar(s.clients[i], s'.clients[i]) && s'.traces[i].registration == s.traces[i].registration
    ensures Inv(s')
  {
    hide ClientOk, StreamOk;
    forall a | a in s'.live ensures a != 0 && Owns(s', a, s'.live[a]) { assert Owns(s, a, s.live[a]); }
  }

  lemma SubmitOk(c: Client, tr: Trace, frame: Option<Frame>)
    requires Positioned(c) && ClientOk(c) && c.registered && StreamOk(c, tr)
    ensures var d := Submitted(c, frame); Positioned(d) && ClientOk(d) && Similar(c, d)
    ensures StreamOk(Submitted(c, frame),
              tr.(sent := if Accepts(c, frame) then tr.sent + [frame.value] else tr.sent))
  {
    hide Flat;
    if Accepts(c, frame) {
      FlatAppend(tr.sent, frame.value);
      var n, sent := c.counters.consumed, tr.sent + [frame.value];
      assert sent[n..] == tr.sent[n..] + [frame.value];
      assert |Flat(sent)| == |Flat(tr.sent)| + FRAME;
      assert Flat(sent)[..n * FRAME + c.offset] == Flat(tr.sent)[..n * FRAME + c.offset];
    }
  }

  lemma SubmitInv(s: State, handle: U32, frame: Option<Frame>)
    requires Inv(s)
    ensures Inv(AfterSubmit(s, handle, frame))
  {
    hide ClientOk, StreamOk, Submitted, Accepts, PendingOk, LiveOk;
    var s', i := AfterSubmit(s, handle, frame), HandleIndex(handle);
    if i.Some? && s.clients[i.value].registered {
      SubmitOk(s.clients[i.value], s.traces[i.value], frame);
      assert ClientsOk(s');
      SimilarInv(s, s');
    }
  }

  lemma RenderOk(c: Client, tr: Trace, n: nat)
    requires Positioned(c) && ClientOk(c) && c.registered && StreamOk(c, tr)
    ensures var d := Rendered(c, n); Positioned(d) && ClientOk(d) && Similar(c, d)
    ensures StreamOk(Rendered(c, n), tr.(heard := tr.heard + Played(c, n)))
  {
    hide Flat, Whole, Part, Filled;
    RenderedPositioned(c, n);
    var d, k := Rendered(c, n), Filled(c, n);
    Split(c.offset + k, 0);
    var used, n0 := Whole(c.offset + k), c.counters.consumed;
    var all := Flat(tr.sent);
    FlatDrop(tr.sent, n0);
    assert tr.sent[n0..][used..] == tr.sent[n0 + used..];
    assert all[n0 * FRAME..][c.offset..c.offset + k] == all[n0 * FRAME + c.offset..n0 * FRAME + c.offset + k];
    assert d.counters.consumed * FRAME + d.offset == n0 * FRAME + c.offset + k;
    assert all[..n0 * FRAME + c.offset] + all[n0 * FRAME + c.offset..n0 * FRAME + c.offset + k]
        == all[..n0 * FRAME + c.offset + k];
  }

  lemma RenderInv(s: State, n: nat)
    requires Inv(s)
    ensures Inv(AfterRender(s, n))
  {
    hide ClientOk, StreamOk, Rendered, Played, PendingOk, LiveOk, Positioned;
    var s' := AfterRender(s, n);
    forall i | 0 <= i < MAX_CLIENTS
      ensures Positioned(s'.clients[i]) && ClientOk(s'.clients[i]) && Similar(s.clients[i], s'.clients[i])
      ensures s'.clients[i].registered ==> StreamOk(s'.clients[i], s'.traces[i])
    {
      if Active(s.clients[i]) { RenderOk(s.clients[i], s.traces[i], n); }
    }
    SimilarInv(s, s');
  }

  lemma SuspendInv(s: State, suspend: bool)
    requires Inv(s)
    ensures Inv(s.(clients := Suspended(s.clients, suspend)))
  {
    hide PendingOk, LiveOk, Flat;
    var s' := s.(clients := Suspended(s.clients, suspend));
    forall i | 0 <= i < MAX_CLIENTS
      ensures ClientOk(s'.clients[i]) && Similar(s.clients[i], s'.clients[i])
      ensures s'.clients[i].registered ==> StreamOk(s'.clients[i], s'.traces[i])
    {
      assert s.clients[i].registered ==> StreamOk(s.clients[i], s.traces[i]);
    }
    SimilarInv(s, s');
  }

  // --------------------------------------- allocation, registration and retirement

  lemma SameRecords(s: State, s': State)
    requires Shaped(s) && Shaped(s') && ClientsOk(s) && PendingOk(s)
    requires s'.clients == s.clients && s'.traces == s.traces && Open(s'.pump) == Open(s.pump)
    ensures ClientsOk(s') && PendingOk(s')
  {
  }

  lemma AllocateLive(s: State, t: nat, callback: U32, wrapper: U32)
    requires Shaped(s) && LiveOk(s) && Enabled(s, Allocate(t, callback, wrapper))
    ensures LiveOk(s.(live := s.live[wrapper := Caller(t)], inserting := s.inserting[t := (callback, wrapper)]))
  {
    hide Positioned;
    var s' := s.(live := s.live[wrapper := Caller(t)], inserting := s.inserting[t := (callback, wrapper)]);
    forall a | a in s'.live ensures a != 0 && Owns(s', a, s'.live[a]) {
      if a != wrapper { assert Owns(s, a, s.live[a]); }
    }
  }

  lemma AllocateInv(s: State, t: nat, callback: U32, wrapper: U32)
    requires Inv(s) && Enabled(s, Allocate(t, callback, wrapper))
    ensures Inv(Apply(s, Allocate(t, callback, wrapper)))
  {
    hide ClientsOk, PendingOk, LiveOk;
    AllocateLive(s, t, callback, wrapper);
    SameRecords(s, Apply(s, Allocate(t, callback, wrapper)));
  }

  lemma ReleaseLive(s: State, t: nat)
    requires Shaped(s) && LiveOk(s) && t in s.releasing
    ensures LiveOk(s.(releasing := s.releasing - {t}, live := s.live - {s.releasing[t]}))
  {
    hide Positioned;
    var s' := s.(releasing := s.releasing - {t}, live := s.live - {s.releasing[t]});
    forall a | a in s'.live ensures a != 0 && Owns(s', a, s'.live[a]) { assert Owns(s, a, s.live[a]); }
  }

  lemma ReleaseInv(s: State, t: nat)
    requires Inv(s) && Enabled(s, Release(t))
    ensures Inv(Apply(s, Release(t)))
  {
    hide ClientsOk, PendingOk, LiveOk;
    ReleaseLive(s, t);
    SameRecords(s, Apply(s, Release(t)));
  }

  lemma {:induction false} FirstFreeIs(clients: seq<Client>, from: nat)
    requires from <= |clients|
    ensures match FirstFree(clients, from)
            case None => true
            case Some(i) => from <= i < |clients| && !Busy(clients[i])
    decreases |clients| - from
  {
    if from < |clients| { FirstFreeIs(clients, from + 1); }
  }

  lemma RegisteredOk(callback: U32, wrapper: U32, registration: nat)
    requires wrapper != 0
    ensures var c := Registered(FREE, callback, wrapper);
      Positioned(c) && ClientOk(c) && StreamOk(c, Trace(registration, [], []))
      && Busy(c) && c.wrapper == wrapper && c.inFlight == 0
  {
  }

  lemma NoSlotLive(s: State, t: nat)
    requires Shaped(s) && LiveOk(s) && t in s.inserting
    ensures LiveOk(s.(inserting := s.inserting - {t}, releasing := s.releasing[t := s.inserting[t].1]))
  {
    hide Positioned;
    var s' := s.(inserting := s.inserting - {t}, releasing := s.releasing[t := s.inserting[t].1]);
    forall a | a in s'.live ensures a != 0 && Owns(s', a, s'.live[a]) { assert Owns(s, a, s.live[a]); }
  }

  lemma InsertInv(s: State, t: nat)
    requires Inv(s) && Enabled(s, Insert(t))
    ensures Inv(Apply(s, Insert(t)))
  {
    hide ClientsOk, PendingOk, LiveOk, Registered, StreamOk, ClientOk;
    FirstFreeIs(s.clients, 0);
    InsertingWrapper(s, t);
    var (callback, wrapper) := s.inserting[t];
    match FirstFree(s.clients)
    case None =>
      NoSlotLive(s, t);
      SameRecords(s, AfterInsert(s, t));
    case Some(i) =>
      FreeSlot(s, i);
      RegisteredOk(callback, wrapper, s.registrations);
      InsertedInv(s, t, i, Registered(FREE, callback, wrapper));
  }

  lemma FreeSlot(s: State, i: nat)
    requires Shaped(s) && ClientsOk(s) && i < MAX_CLIENTS && !Busy(s.clients[i])
    ensures s.clients[i] == FREE
  {
  }

  lemma InsertingWrapper(s: State, t: nat)
    requires Shaped(s) && LiveOk(s) && t in s.inserting
    ensures s.inserting[t].1 != 0
  {
  }

  lemma InsertedPending(s: State, i: nat, c: Client, tr: Trace)
    requires Shaped(s) && PendingOk(s) && i < MAX_CLIENTS && s.clients[i] == FREE && Positioned(c) && c.inFlight == 0
    ensures PendingOk(s.(clients := s.clients[i := c], traces := s.traces[i := tr]))
  {
  }

  lemma InsertedLive(s: State, t: nat, i: nat, c: Client)
    requires Shaped(s) && LiveOk(s) && t in s.inserting && i < MAX_CLIENTS && s.clients[i] == FREE
    requires Positioned(c) && Busy(c) && c.wrapper == s.inserting[t].1
    ensures LiveOk(s.(inserting := s.inserting - {t}, clients := s.clients[i := c],
                     live := s.live[c.wrapper := Slot(i)]))
  {
    hide Positioned;
    var s' := s.(inserting := s.inserting - {t}, clients := s.clients[i := c], live := s.live[c.wrapper := Slot(i)]);
    forall a | a in s'.live ensures a != 0 && Owns(s', a, s'.live[a]) {
      if a != c.wrapper { assert Owns(s, a, s.live[a]); }
    }
  }

  lemma InsertedInv(s: State, t: nat, i: nat, c: Client)
    requires Inv(s) && t in s.inserting && i < MAX_CLIENTS && s.clients[i] == FREE
    requires Positioned(c) && ClientOk(c) && Busy(c) && c.wrapper == s.inserting[t].1 && c.inFlight == 0
    requires StreamOk(c, Trace(s.registrations, [], []))
    ensures Inv(s.(inserting := s.inserting - {t}, clients := s.clients[i := c],
                   traces := s.traces[i := Trace(s.registrations, [], [])],
                   live := s.live[c.wrapper := Slot(i)], registrations := s.registrations + 1))
  {
    hide ClientOk, StreamOk, Matches, Out, Owns;
    var tr := Trace(s.registrations, [], []);
    InsertedPending(s, i, c, tr);
    InsertedLive(s, t, i, c);
    var s1 := s.(inserting := s.inserting - {t}, clients := s.clients[i := c], live := s.live[c.wrapper := Slot(i)]);
    SameHolders(s1, s1.(traces := s.traces[i := tr], registrations := s.registrations + 1));
  }

  lemma SameHolders(s: State, s': State)
    requires Shaped(s) && Shaped(s') && LiveOk(s)
    requires s'.live == s.live && s'.clients == s.clients && s'.pump == s.pump
    requires s'.inserting == s.inserting && s'.releasing == s.releasing
    ensures LiveOk(s')
  {
  }

  /** A registration ends while a callback of it is out: the slot keeps its wrapper. */
  lemma KeptInv(s: State, i: nat)
    requires Inv(s) && i < MAX_CLIENTS && s.clients[i].registered && s.clients[i].inFlight > 0
    ensures Inv(s.(clients := s.clients[i := Retired(s.clients[i])]))
  {
    hide StreamOk, Account;
    assert ClientOk(s.clients[i]);
    var s' := s.(clients := s.clients[i := Retired(s.clients[i])]);
    forall k | 0 <= k < |Open(s.pump)|
      ensures Matches(s'.clients[Open(s.pump)[k].index], s'.traces[Open(s.pump)[k].index], Open(s.pump)[k])
    {
      assert Matches(s.clients[Open(s.pump)[k].index], s.traces[Open(s.pump)[k].index], Open(s.pump)[k]);
    }
    forall a | a in s'.live ensures a != 0 && Owns(s', a, s'.live[a]) { assert Owns(s, a, s.live[a]); }
  }

  lemma FreedPending(open: seq<Pending>, clients: seq<Client>, traces: seq<Trace>, i: nat)
    requires |clients| == |traces| == MAX_CLIENTS && PendingFor(open, clients, traces)
    requires i < MAX_CLIENTS && clients[i].inFlight == 0
    ensures PendingFor(open, clients[i := FREE], traces)
  {
  }

  lemma FreedLive(s: State, i: nat, t: nat)
    requires Shaped(s) && LiveOk(s) && i < MAX_CLIENTS && Busy(s.clients[i]) && Idle(s, t)
    ensures var w := s.clients[i].wrapper;
      LiveOk(s.(clients := s.clients[i := FREE], releasing := s.releasing[t := w], live := s.live[w := Caller(t)]))
  {
    var w := s.clients[i].wrapper;
    var s' := s.(clients := s.clients[i := FREE], releasing := s.releasing[t := w], live := s.live[w := Caller(t)]);
    forall a | a in s'.live ensures a != 0 && Owns(s', a, s'.live[a]) {
      if a != w { assert Owns(s, a, s.live[a]); }
    }
  }

  /** A slot without callbacks out is freed and its wrapper handed to caller `t`. */
  lemma FreedInv(s: State, i: nat, t: nat)
    requires Inv(s) && i < MAX_CLIENTS && Busy(s.clients[i]) && s.clients[i].inFlight == 0
    requires Idle(s, t)
    ensures var w := s.clients[i].wrapper;
      Inv(s.(clients := s.clients[i := FREE], releasing := s.releasing[t := w], live := s.live[w := Caller(t)]))
  {
    hide StreamOk, Account, PendingFor, LiveOk, Open;
    FreedPending(Open(s.pump), s.clients, s.traces, i);
    FreedLive(s, i, t);
  }

  lemma WaitersInv(s: State, waiting: map<nat, nat>)
    requires Inv(s)
    ensures Inv(s.(waiting := waiting))
  {
    hide ClientOk, StreamOk, Matches;
    var s' := s.(waiting := waiting);
    forall a | a in s'.live ensures a != 0 && Owns(s', a, s'.live[a]) { assert Owns(s, a, s.live[a]); }
  }

  lemma UnregisterInv(s: State, t: nat, handle: U32)
    requires Inv(s) && Idle(s, t)
    ensures Inv(AfterUnregister(s, t, handle))
  {
    hide ClientOk, PendingOk, LiveOk, StreamOk;
    match HandleIndex(handle)
    case None =>
    case Some(i) =>
      var c := s.clients[i];
      if c.registered && !c.retiring {
        if c.inFlight == 0 {
          WrapperNonzero(c);
          FreedInv(s, i, t);
        } else {
          KeptInv(s, i);
          WaitersInv(s.(clients := s.clients[i := Retired(c)]), s.waiting[t := i]);
        }
      } else {
        assert s.clients[i := c] == s.clients;
      }
  }

  lemma WrapperNonzero(c: Client)
    requires ClientOk(c) && Busy(c)
    ensures c.wrapper != 0
  {
  }

  // ------------------------------------------------------------------- the pump

  lemma PumpPhaseInv(s: State, pump: PumpState)
    requires Inv(s) && Open(pump) == Open(s.pump)
    requires pump.Delivering? ==>
      pump.items != [] && !pump.phase.Releasing? && forall p :: p in pump.items ==> p.index < MAX_CLIENTS
    requires s.pump.Delivering? ==> !s.pump.phase.Releasing?
    ensures Inv(s.(pump := pump))
  {
    hide ClientOk, StreamOk, Matches;
    var s' := s.(pump := pump);
    forall a | a in s'.live ensures a != 0 && Owns(s', a, s'.live[a]) { assert Owns(s, a, s.live[a]); }
  }

  lemma CallbackUnregisterInv(s: State, t: nat, handle: U32)
    requires Inv(s) && Enabled(s, CallbackUnregister(t, handle))
    ensures Inv(AfterCallbackUnregister(s, t, handle))
  {
    hide ClientOk, PendingOk, LiveOk, StreamOk;
    match HandleIndex(handle)
    case None =>
    case Some(i) =>
      var c := s.clients[i];
      if c.registered && !c.retiring {
        if c.inFlight == 0 {
          WrapperNonzero(c);
          FreedInv(s, i, t);
        } else {
          KeptInv(s, i);
          PumpPhaseInv(s.(clients := s.clients[i := Retired(c)]), Delivering(s.pump.items, Calling(Some(i))));
        }
      } else {
        assert s.clients[i := c] == s.clients;
      }
  }

  lemma CollectClients(s: State)
    requires Shaped(s) && ClientsOk(s)
    ensures var clients := IssuedAll(s.clients);
      && (forall i :: 0 <= i < MAX_CLIENTS ==>
            && Positioned(clients[i]) && ClientOk(clients[i]) && (Busy(clients[i]) <==> Busy(s.clients[i]))
            && clients[i].wrapper == s.clients[i].wrapper
            && (clients[i].registered ==> StreamOk(clients[i], s.traces[i])))
  {
  }

  lemma CollectFlights(clients: seq<Client>, items: seq<Pending>, i: nat)
    requires |clients| == MAX_CLIENTS && i < MAX_CLIENTS && clients[i].inFlight == 0
    requires var indices := DueIndices(clients, MAX_CLIENTS);
      |items| == |indices| && forall k :: 0 <= k < |items| ==> items[k].index == indices[k]
    ensures IssuedAll(clients)[i].inFlight == if Out(items, i) then 1 else 0
  {
    var indices := DueIndices(clients, MAX_CLIENTS);
    DueIndicesExact(clients, MAX_CLIENTS);
    if Due(clients[i]) {
      var k :| 0 <= k < |indices| && indices[k] == i;
      assert items[k].index == i;
    }
  }

  lemma CollectPending(s: State)
    requires Shaped(s) && PendingOk(s) && s.pump.Waiting? && Shaped(AfterCollect(s))
    ensures PendingOk(AfterCollect(s))
  {
    hide Positioned, Out, Matches, DueIndices;
    var s', indices := AfterCollect(s), DueIndices(s.clients, MAX_CLIENTS);
    DueIndicesExact(s.clients, MAX_CLIENTS);
    assert forall k :: 0 <= k < |indices| ==> indices[k] in indices;
    var items := Collected(s, indices);
    assert Open(s'.pump) == items;
    NothingOut(s);
    forall i | 0 <= i < MAX_CLIENTS ensures s'.clients[i].inFlight == if Out(items, i) then 1 else 0 {
      CollectFlights(s.clients, items, i);
    }
    CollectedPending(s, items, indices);
  }

  lemma NothingOut(s: State)
    requires Shaped(s) && PendingOk(s) && s.pump.Waiting?
    ensures forall i :: 0 <= i < MAX_CLIENTS ==> s.clients[i].inFlight == 0
  {
  }

  lemma CollectShaped(s: State)
    requires Shaped(s) && ClientsOk(s)
    ensures Shaped(AfterCollect(s))
  {
    hide ClientOk, StreamOk;
    CollectClients(s);
    var indices := DueIndices(s.clients, MAX_CLIENTS);
    DueIndicesExact(s.clients, MAX_CLIENTS);
    assert forall k :: 0 <= k < |indices| ==> indices[k] in indices;
  }

  lemma CollectInv(s: State)
    requires Inv(s) && s.pump.Waiting?
    ensures Inv(AfterCollect(s))
  {
    hide ClientOk, StreamOk, PendingOk, Collected, DueIndices;
    CollectClients(s);
    CollectShaped(s);
    CollectPending(s);
    var s' := AfterCollect(s);
    forall a | a in s'.live ensures a != 0 && Owns(s', a, s'.live[a]) { assert Owns(s, a, s.live[a]); }
  }

  lemma CollectedPending(s: State, items: seq<Pending>, indices: seq<nat>)
    requires Shaped(s) && indices == DueIndices(s.clients, MAX_CLIENTS)
    requires (forall k :: 0 <= k < |indices| ==> indices[k] < MAX_CLIENTS) && items == Collected(s, indices)
    requires forall k :: 0 <= k < |indices| ==> Due(s.clients[indices[k]])
    ensures forall k :: 0 <= k < |items| ==>
              Matches(IssuedAll(s.clients)[items[k].index], s.traces[items[k].index], items[k])
  {
  }

  lemma SettledOk(c: Client, tr: Trace, invoked: bool)
    requires ClientOk(c) && Busy(c) && Positioned(c) && c.inFlight == 1
    requires c.registered ==> StreamOk(c, tr)
    ensures var (d, wrapper) := Settle(c, invoked);
      && ClientOk(d) && Positioned(d) && d.inFlight == 0
      && (d.registered ==> StreamOk(d, tr))
      && (if c.retiring then d == FREE && wrapper == Some(c.wrapper) && c.wrapper != 0
          else wrapper == None && Busy(d) && d.wrapper == c.wrapper)
  {
  }

  /** Nothing else is out for a slot whose callback settles, and other slots see no change. */
  lemma SettledOpen(s: State)
    requires Inv(s) && s.pump.Delivering? && s.pump.phase.Back?
    ensures var items := s.pump.items; var i := items[0].index;
      && Busy(s.clients[i]) && s.clients[i].inFlight == 1
      && (forall k :: 0 <= k < |items[1..]| ==> items[1..][k].index != i)
      && (forall j :: 0 <= j < MAX_CLIENTS && j != i ==> (Out(items, j) <==> Out(items[1..], j)))
      && !Out(items[1..], i)
  {
  }

  lemma SettledSlot(s: State)
    requires Inv(s) && s.pump.Delivering? && s.pump.phase.Back?
    ensures var i := s.pump.items[0].index;
      var c := s.clients[i];
      var (d, wrapper) := Settle(c, s.pump.phase.invoked);
      && Busy(c) && ClientOk(d) && Positioned(d) && d.inFlight == 0
      && (d.registered ==> StreamOk(d, s.traces[i]))
      && (if c.retiring then d == FREE && wrapper == Some(c.wrapper) && c.wrapper != 0
          else wrapper == None && Busy(d) && d.wrapper == c.wrapper)
  {
    hide ClientOk, StreamOk, Settle, LiveOk;
    SettledOpen(s);
    var i := s.pump.items[0].index;
    SettledOk(s.clients[i], s.traces[i], s.pump.phase.invoked);
  }

  lemma SettledShaped(s: State)
    requires Inv(s) && s.pump.Delivering? && s.pump.phase.Back?
    ensures Shaped(AfterSettled(s)) && Open(AfterSettled(s).pump) == s.pump.items[1..]
  {
    hide ClientsOk, PendingOk, LiveOk, Settle, ClientOk, StreamOk, Positioned;
    SettledSlot(s);
    assert forall q :: q in s.pump.items[1..] ==> q in s.pump.items;
  }

  lemma SettledPending(items: seq<Pending>, clients: seq<Client>, traces: seq<Trace>, d: Client)
    requires |clients| == |traces| == MAX_CLIENTS && items != [] && PendingFor(items, clients, traces)
    requires items[0].index < MAX_CLIENTS && d.inFlight == 0
    ensures PendingFor(items[1..], clients[items[0].index := d], traces)
  {
  }

  lemma SettledKept(s: State, d: Client, pump: PumpState)
    requires Shaped(s) && LiveOk(s) && s.pump.Delivering? && s.pump.phase.Back?
    requires var c := s.clients[s.pump.items[0].index]; Busy(c) && Busy(d) && d.wrapper == c.wrapper
    requires Shaped(s.(clients := s.clients[s.pump.items[0].index := d], pump := pump))
    requires pump.Delivering? ==> pump.phase.Ready?
    ensures LiveOk(s.(clients := s.clients[s.pump.items[0].index := d], pump := pump))
  {
    hide Positioned;
    var s' := s.(clients := s.clients[s.pump.items[0].index := d], pump := pump);
    forall a | a in s'.live ensures a != 0 && Owns(s', a, s'.live[a]) { assert Owns(s, a, s.live[a]); }
  }

  lemma SettledFreed(s: State)
    requires Shaped(s) && LiveOk(s) && s.pump.Delivering? && s.pump.phase.Back?
    requires Busy(s.clients[s.pump.items[0].index])
    ensures var i := s.pump.items[0].index; var w := s.clients[i].wrapper;
      LiveOk(s.(clients := s.clients[i := FREE], pump := Delivering(s.pump.items, Releasing(w)),
                live := s.live[w := Pump]))
  {
    var i := s.pump.items[0].index;
    var w := s.clients[i].wrapper;
    var s' := s.(clients := s.clients[i := FREE], pump := Delivering(s.pump.items, Releasing(w)),
                 live := s.live[w := Pump]);
    forall a | a in s'.live ensures a != 0 && Owns(s', a, s'.live[a]) {
      if a != w { assert Owns(s, a, s.live[a]); }
    }
  }

  /** What settling makes of the state, by whether the client was retiring. */
  lemma SettledIs(s: State)
    requires Inv(s) && s.pump.Delivering? && s.pump.phase.Back?
    ensures var items := s.pump.items; var i := items[0].index;
      var c, d := s.clients[i], Settle(s.clients[i], s.pump.phase.invoked).0;
      && Busy(c) && ClientOk(d) && Positioned(d) && d.inFlight == 0 && (d.registered ==> StreamOk(d, s.traces[i]))
      && (if c.retiring then
            AfterSettled(s) == s.(clients := s.clients[i := d], pump := Delivering(items, Releasing(c.wrapper)),
                                  live := s.live[c.wrapper := Pump]) && d == FREE
          else
            AfterSettled(s) == s.(clients := s.clients[i := d], pump := Next(items))
            && Busy(d) && d.wrapper == c.wrapper)
  {
    hide ClientsOk, PendingOk, LiveOk, Settle, ClientOk, StreamOk, Positioned, Next;
    SettledSlot(s);
  }

  lemma SettledLive(s: State)
    requires Inv(s) && s.pump.Delivering? && s.pump.phase.Back? && Shaped(AfterSettled(s))
    ensures LiveOk(AfterSettled(s))
  {
    hide AfterSettled, ClientsOk, PendingOk, LiveOk, Settle, ClientOk, StreamOk, Positioned, Next;
    SettledIs(s);
    if s.clients[s.pump.items[0].index].retiring {
      SettledFreed(s);
    } else {
      NextReady(s.pump.items);
      SettledKept(s, Settle(s.clients[s.pump.items[0].index], s.pump.phase.invoked).0, Next(s.pump.items));
    }
  }

  lemma SettledInv(s: State)
    requires Inv(s) && s.pump.Delivering? && s.pump.phase.Back?
    ensures Inv(AfterSettled(s))
  {
    hide AfterSettled, PendingFor, LiveOk, Settle, ClientOk, StreamOk, Positioned, Next, Open;
    SettledShaped(s);
    SettledIs(s);
    SettledLive(s);
    OpenBack(s.pump);
    var i := s.pump.items[0].index;
    SettledPending(s.pump.items, s.clients, s.traces, Settle(s.clients[i], s.pump.phase.invoked).0);
  }

  lemma OpenBack(pump: PumpState)
    requires pump.Delivering? && pump.phase.Back?
    ensures Open(pump) == pump.items
  {
  }

  lemma NextReady(items: seq<Pending>)
    requires items != []
    ensures Next(items).Delivering? ==> Next(items).phase.Ready?
  {
  }

  lemma PumpReleaseLive(s: State, pump: PumpState)
    requires Shaped(s) && LiveOk(s) && s.pump.Delivering? && s.pump.phase.Releasing?
    requires Shaped(s.(pump := pump)) && (pump.Delivering? ==> pump.phase.Ready?)
    ensures LiveOk(s.(live := s.live - {s.pump.phase.wrapper}, pump := pump))
  {
  }

  lemma PumpReleaseInv(s: State)
    requires Inv(s) && Enabled(s, PumpRelease)
    ensures Inv(Apply(s, PumpRelease))
  {
    hide ClientsOk, PendingOk, LiveOk, Positioned;
    var s', items := Apply(s, PumpRelease), s.pump.items;
    assert Open(s'.pump) == items[1..] == Open(s.pump);
    assert forall q :: q in items[1..] ==> q in items;
    NextReady(items);
    PumpReleaseLive(s, Next(items));
    SameRecords(s, s');
  }

  lemma FlagsInv(s: State, running: bool, initialized: bool)
    requires Inv(s)
    ensures Inv(s.(running := running, initialized := initialized))
  {
  }

  lemma ClearInv(s: State)
    requires Inv(s) && !s.pump.Delivering?
    ensures Inv(AfterClear(s))
  {
    hide StreamOk, Account;
    var s' := AfterClear(s);
    forall a | a in s'.live ensures a != 0 && Owns(s', a, s'.live[a]) { assert Owns(s, a, s.live[a]); }
    forall i | 0 <= i < MAX_CLIENTS && s.clients[i].wrapper != 0
      ensures s.clients[i].wrapper in s.live && s.live[s.clients[i].wrapper] == Slot(i)
    {
      assert ClientOk(s.clients[i]);
    }
    assert Open(s'.pump) == [];
  }

  /** The owner of an external pump must have joined it before `shutdown` frees the
      clients; a pump the audio system owns is joined by `shutdown` itself. */
  predicate Disciplined(s: State, step: Step) {
    step.Clear? ==> !s.pump.Delivering?
  }

  lemma StepInv(s: State, step: Step)
    requires Inv(s) && Enabled(s, step) && Disciplined(s, step)
    ensures Inv(Apply(s, step))
  {
    hide ClientsOk, PendingOk, LiveOk;
    match step
    case Allocate(t, callback, wrapper) => AllocateInv(s, t, callback, wrapper);
    case Insert(t) => InsertInv(s, t);
    case Release(t) => ReleaseInv(s, t);
    case Unregister(t, handle) => UnregisterInv(s, t, handle);
    case WaitOver(t) => WaitersInv(s, s.waiting - {t});
    case Submit(handle, frame) => SubmitInv(s, handle, frame);
    case SuspendAll(suspend) => SuspendInv(s, suspend);
    case Render(n) => RenderInv(s, n);
    case Collect => CollectInv(s);
    case Invoke => PumpPhaseInv(s, Apply(s, step).pump);
    case CallbackUnregister(t, handle) => CallbackUnregisterInv(s, t, handle);
    case CallbackResume => PumpPhaseInv(s, Apply(s, step).pump);
    case CallbackReturn(invoked) => PumpPhaseInv(s, Apply(s, step).pump);
    case Settled => SettledInv(s);
    case PumpRelease => PumpReleaseInv(s);
    case PumpExit => PumpPhaseInv(s, Exited);
    case Deinitialize => FlagsInv(s, s.running, false);
    case StopPump => FlagsInv(s, false, s.initialized);
    case Clear => ClearInv(s);
  }

  // --------------------------------------------------------------------- runs

  predicate Legal(s: State, steps: seq<Step>)
    decreases |steps|
  {
    steps == [] || (Shaped(s) && Enabled(s, steps[0]) && Legal(Apply(s, steps[0]), steps[1..]))
  }

  function After(s: State, steps: seq<Step>): State
    requires Legal(s, steps)
    decreases |steps|
  {
    if steps == [] then s else After(Apply(s, steps[0]), steps[1..])
  }

  predicate Orderly(s: State, steps: seq<Step>)
    requires Legal(s, steps)
    decreases |steps|
  {
    steps == [] || (Disciplined(s, steps[0]) && Orderly(Apply(s, steps[0]), steps[1..]))
  }

  lemma KeepsPumpOwner(s: State, step: Step)
    requires Shaped(s) && Enabled(s, step)
    ensures Apply(s, step).ownsPump == s.ownsPump
  {
    hide AfterInsert, AfterUnregister, AfterCallbackUnregister, AfterSubmit, AfterRender, AfterCollect,
      AfterSettled, AfterClear, Shaped;
  }

  /** Every run is orderly when the audio system owns the pump thread. */
  lemma {:induction false} OwnedOrderly(s: State, steps: seq<Step>)
    requires Legal(s, steps) && s.ownsPump
    ensures Orderly(s, steps)
    decreases |steps|
  {
    hide Apply;
    if steps != [] {
      KeepsPumpOwner(s, steps[0]);
      OwnedOrderly(Apply(s, steps[0]), steps[1..]);
    }
  }

  lemma {:induction false} RunInv(s: State, steps: seq<Step>)
    requires Inv(s) && Legal(s, steps) && Orderly(s, steps)
    ensures Inv(After(s, steps))
    decreases |steps|
  {
    hide Apply, Inv, Enabled, Shaped;
    if steps != [] {
      StepInv(s, steps[0]);
      RunInv(Apply(s, steps[0]), steps[1..]);
    }
  }

  /** Argument lifetime: in every orderly run, every callback that is out (the running
      one included) still refers to the registration it was collected for, and its
      wrapper is still allocated and held by that slot. */
  lemma ArgumentAlive(ownsPump: bool, steps: seq<Step>, k: nat)
    requires Legal(Init(ownsPump), steps) && Orderly(Init(ownsPump), steps)
    requires k < |Open(After(Init(ownsPump), steps).pump)|
    ensures var s := After(Init(ownsPump), steps);
      var p := Open(s.pump)[k];
      && |s.clients| == |s.traces| == MAX_CLIENTS && p.index < MAX_CLIENTS
      && s.traces[p.index].registration == p.registration
      && Busy(s.clients[p.index])
      && s.clients[p.index].callback == p.callback && s.clients[p.index].wrapper == p.wrapper
      && p.wrapper in s.live && s.live[p.wrapper] == Slot(p.index)
  {
    hide ClientOk, StreamOk, Apply, Enabled, Init;
    InitInv(ownsPump);
    RunInv(Init(ownsPump), steps);
    var s := After(Init(ownsPump), steps);
    assert Matches(s.clients[Open(s.pump)[k].index], s.traces[Open(s.pump)[k].index], Open(s.pump)[k]);
  }

  function Releases(s: State, step: Step): set<U32>
    requires Shaped(s) && Enabled(s, step)
  {
    match step
    case Release(t) => {s.releasing[t]}
    case PumpRelease => {s.pump.phase.wrapper}
    case Clear => set i | 0 <= i < MAX_CLIENTS && s.clients[i].wrapper != 0 :: s.clients[i].wrapper
    case _ => {}
  }

  /** A wrapper has exactly one holder while it is allocated and none otherwise. */
  lemma OneHolder(s: State, a: U32, owner: Owner)
    requires Inv(s)
    ensures Owns(s, a, owner) <==> a in s.live && s.live[a] == owner
  {
  }

  /** Each release hits an allocated wrapper, and afterwards nobody holds it, so it
      cannot be released a second time. */
  lemma ReleasedOnce(s: State, step: Step, a: U32, owner: Owner)
    requires Inv(s) && Enabled(s, step) && Disciplined(s, step) && a in Releases(s, step)
    ensures a in s.live
    ensures Shaped(Apply(s, step)) && a !in Apply(s, step).live && !Owns(Apply(s, step), a, owner)
  {
    hide StreamOk, PendingFor, Owns, Account;
    StepInv(s, step);
    OneHolder(Apply(s, step), a, owner);
    if step.Clear? {
      var i :| 0 <= i < MAX_CLIENTS && s.clients[i].wrapper == a;
      assert ClientOk(s.clients[i]);
    }
  }

  /** `shutdown`'s clear leaves exactly the wrappers some call is still holding. */
  lemma ClearLeaves(s: State, a: U32)
    requires Inv(s) && Enabled(s, Clear) && !s.pump.Delivering?
    ensures a in AfterClear(s).live <==> exists t :: Owns(s, a, Caller(t))
  {
    hide StreamOk, Account, PendingOk;
    if a in s.live {
      assert Owns(s, a, s.live[a]);
      if s.live[a].Slot? { assert ClientOk(s.clients[s.live[a].index]); }
    }
  }

  /** At rest nothing leaks: once no call and no pump pass holds a wrapper, every one that
      is allocated is in the slot of a registered or retiring client. */
  lemma NothingLeaks(s: State, a: U32)
    requires Inv(s) && s.inserting == map[] && s.releasing == map[]
    requires s.pump.Delivering? ==> !s.pump.phase.Releasing?
    ensures a in s.live <==> exists i :: 0 <= i < MAX_CLIENTS && Busy(s.clients[i]) && s.clients[i].wrapper == a
  {
    hide ClientsOk, PendingOk;
    if a in s.live { assert Owns(s, a, s.live[a]); }
  }

  /** Credits and stream: for every registered client of every orderly run, callbacks
      never outrun the credit limit plus the frames consumed, the counters balance, and
      what was heard is a prefix of what was submitted. */
  lemma CreditsAndStream(ownsPump: bool, steps: seq<Step>, i: nat)
    requires Legal(Init(ownsPump), steps) && Orderly(Init(ownsPump), steps) && i < MAX_CLIENTS
    requires var s := After(Init(ownsPump), steps); |s.clients| == MAX_CLIENTS && s.clients[i].registered
    ensures var s := After(Init(ownsPump), steps);
      && |s.traces| == MAX_CLIENTS
      && var c, tr := s.clients[i], s.traces[i];
      && c.counters.issued + c.credits <= MAX_QUEUED + c.counters.consumed
      && c.counters.submitted == c.counters.consumed + |c.queue| == |tr.sent|
      && c.counters.issued == c.counters.returned + c.inFlight
      && c.inFlight <= 1
      && c.counters.consumed * FRAME + c.offset <= |Flat(tr.sent)|
      && tr.heard == Flat(tr.sent)[..c.counters.consumed * FRAME + c.offset]
      && (c.counters.submitted == 0 ==> c.counters.issued <= MAX_QUEUED)
  {
    hide Apply, Enabled, Init, Flat, LiveOk;
    InitInv(ownsPump);
    RunInv(Init(ownsPump), steps);
    var s := After(Init(ownsPump), steps);
    assert ClientOk(s.clients[i]) && StreamOk(s.clients[i], s.traces[i]);
  }

  // --------------------------------------------------- a pump thread owned elsewhere

  predicate Dangling(s: State) {
    InCallback(s) && s.pump.items != [] && s.pump.items[0].wrapper !in s.live
  }

  /** `shutdown` takes the argument away from a running callback exactly when a callback
      is running at that moment. */
  lemma ClearDangles(s: State)
    requires Inv(s) && Enabled(s, Clear)
    ensures Dangling(AfterClear(s)) <==> InCallback(s)
  {
  }

  lemma FirstRegistration(ownsPump: bool)
    ensures var s0 := Init(ownsPump);
      && Enabled(s0, Allocate(0, 4, 8))
      && var s1 := Apply(s0, Allocate(0, 4, 8));
      && Shaped(s1) && Enabled(s1, Insert(0))
      && var s2 := Apply(s1, Insert(0));
      && Inv(s2) && Due(s2.clients[0]) && s2.pump.Waiting? && s2.running && s2.initialized
      && s2.ownsPump == ownsPump && Idle(s2, 0)
  {
    hide ClientsOk, PendingOk, LiveOk;
    InitInv(ownsPump);
    StepInv(Init(ownsPump), Allocate(0, 4, 8));
    StepInv(Apply(Init(ownsPump), Allocate(0, 4, 8)), Insert(0));
  }

  predicate Exposed(s: State) {
    Inv(s) && InCallback(s) && !s.ownsPump && s.initialized && s.running
  }

  /** With a pump thread the audio system does not join, `shutdown` takes the argument
      away from whatever callback is running. */
  lemma ExternalShutdownDangles(s: State)
    requires Exposed(s)
    ensures Legal(s, [Deinitialize, StopPump, Clear]) && Dangling(After(s, [Deinitialize, StopPump, Clear]))
  {
    hide ClientsOk, PendingOk, LiveOk;
    var s1 := Apply(s, Deinitialize);
    StepInv(s, Deinitialize);
    var s2 := Apply(s1, StopPump);
    StepInv(s1, StopPump);
    ClearDangles(s2);
    Chain(s, [Deinitialize, StopPump, Clear], [s, s1, s2, Apply(s2, Clear)]);
  }

  /** A callback is running and its client, still registered, is the one `handle` names. */
  predicate CallsOwn(s: State, handle: U32) {
    && Inv(s) && InCallback(s) && s.pump.phase.waitingFor.None?
    && HandleIndex(handle) == Some(s.pump.items[0].index) && s.clients[s.pump.items[0].index].registered
  }

  const FIRST_HANDLE: U32 := 0x4155_0000

  /** Such states are reached, whoever owns the pump thread: the first callback of the first
      registration. */
  lemma CallbackHappens(ownsPump: bool)
    ensures exists steps :: Legal(Init(ownsPump), steps) && FirstCallback(After(Init(ownsPump), steps), ownsPump)
  {
    hide ClientsOk, PendingOk, LiveOk, AfterInsert, AfterCollect, Init, Due;
    FirstRegistration(ownsPump);
    var s0 := Init(ownsPump);
    var s1 := Apply(s0, Allocate(0, 4, 8));
    var s2 := Apply(s1, Insert(0));
    var s3 := Apply(s2, Collect);
    StepInv(s2, Collect);
    CollectsFirst(s2);
    StepInv(s3, Invoke);
    Chain(s0, [Allocate(0, 4, 8), Insert(0), Collect, Invoke], [s0, s1, s2, s3, Apply(s3, Invoke)]);
  }

  predicate FirstCallback(s: State, ownsPump: bool) {
    && CallsOwn(s, FIRST_HANDLE) && Idle(s, 0) && s.ownsPump == ownsPump && s.initialized && s.running
  }

  lemma CollectsFirst(s: State)
    requires Shaped(s) && Due(s.clients[0])
    ensures var s' := AfterCollect(s);
      && s'.pump.Delivering? && s'.pump.phase.Ready? && s'.pump.items != [] && s'.pump.items[0].index == 0
      && |s'.clients| == MAX_CLIENTS && s'.clients[0].registered
      && s'.running == s.running && s'.initialized == s.initialized
      && s'.inserting == s.inserting && s'.releasing == s.releasing && s'.waiting == s.waiting
  {
    var indices := DueIndices(s.clients, MAX_CLIENTS);
    DueIndicesExact(s.clients, MAX_CLIENTS);
    assert 0 in indices;
    var k :| 0 <= k < |indices| && indices[k] == 0;
    assert indices[0] in indices;
    assert k == 0;
  }

  lemma {:induction false} Chain(s: State, steps: seq<Step>, states: seq<State>)
    requires |states| == |steps| + 1 && states[0] == s
    requires forall k :: 0 <= k < |steps| ==>
      Shaped(states[k]) && Enabled(states[k], steps[k]) && states[k + 1] == Apply(states[k], steps[k])
    ensures Legal(s, steps) && After(s, steps) == states[|steps|]
    decreases |steps|
  {
    hide Apply, Enabled, Shaped;
    if steps != [] {
      assert forall k :: 0 <= k < |steps[1..]| ==> steps[1..][k] == steps[k + 1] && states[1..][k] == states[k + 1];
      Chain(states[1], steps[1..], states[1..]);
    }
  }

  /** The guest callback waits for a retirement only the pump running it could finish. */
  predicate Stuck(s: State, i: nat) {
    && Shaped(s) && i < MAX_CLIENTS
    && s.pump.Delivering? && s.pump.phase == Calling(Some(i)) && s.clients[i].retiring
  }

  /** A callback that unregisters its own client comes back at once when the audio
      system owns the pump thread, and is stuck when it does not. */
  lemma SelfUnregister(s: State, t: nat, handle: U32)
    requires CallsOwn(s, handle) && Idle(s, t)
    ensures Enabled(s, CallbackUnregister(t, handle))
    ensures var s' := Apply(s, CallbackUnregister(t, handle));
      if s.ownsPump then InCallback(s') && s'.pump.phase.waitingFor.None?
      else Stuck(s', s.pump.items[0].index)
  {
    hide ClientsOk, PendingOk, LiveOk;
    RunningIsOut(s);
  }

  /** The running callback is counted as the one its client has out. */
  lemma RunningIsOut(s: State)
    requires Inv(s) && InCallback(s)
    ensures var c := s.clients[s.pump.items[0].index]; Busy(c) && c.inFlight == 1 && !(c.registered && c.retiring)
  {
    hide StreamOk, Account, LiveOk, Positioned;
    var p := s.pump.items[0];
    assert Open(s.pump)[0] == p && Out(Open(s.pump), p.index);
    assert ClientOk(s.clients[p.index]);
  }

  /** A registration under way while the system is shut down, and then done. */
  function Allocated(): State {
    Init(true).(live := map[8 := Caller(0)], inserting := map[0 := (4, 8)])
  }

  function ShutDown(): State {
    Allocated().(initialized := false, running := false, pump := Exited)
  }

  lemma LateInsert()
    ensures var s := AfterInsert(ShutDown(), 0);
      && !s.initialized && !s.running && s.pump.Exited? && s.inserting == map[] && s.releasing == map[]
      && s.live == map[8 := Slot(0)]
    ensures StepTo(ShutDown(), Insert(0), AfterInsert(ShutDown(), 0))
  {
  }

  lemma NothingToClear()
    ensures AfterClear(ShutDown()) == ShutDown()
  {
    assert AfterClear(ShutDown()).clients == ShutDown().clients;
  }

  predicate StepTo(s: State, step: Step, s': State) {
    Shaped(s) && Enabled(s, step) && s' == Apply(s, step)
  }

  lemma ShuttingDown(s: State)
    requires Shaped(s) && s.initialized && s.running && s.pump.Waiting?
    ensures var down := s.(initialized := false, running := false, pump := Exited);
      && StepTo(s, Deinitialize, s.(initialized := false))
      && StepTo(s.(initialized := false), StopPump, s.(initialized := false, running := false))
      && StepTo(s.(initialized := false, running := false), PumpExit, down)
      && StepTo(down, Clear, AfterClear(down))
  {
    hide AfterClear, Positioned;
  }

  lemma FirstAllocation()
    ensures StepTo(Init(true), Allocate(0, 4, 8), Allocated()) && Shaped(Allocated())
    ensures var s := Allocated(); s.initialized && s.running && s.pump.Waiting?
  {
  }

  /** A registration that passed its check before `shutdown` and takes its slot after the
      clear: the audio system is down and the wrapper stays allocated. */
  lemma LateRegistrationStays()
    ensures var steps := [Allocate(0, 4, 8), Deinitialize, StopPump, PumpExit, Clear, Insert(0)];
      && Legal(Init(true), steps)
      && var s := After(Init(true), steps);
         && !s.initialized && !s.running && s.pump.Exited? && s.inserting == map[] && s.releasing == map[]
         && 8 in s.live && s.live[8] == Slot(0)
  {
    hide Legal, After, AfterInsert, Apply, Enabled, Shaped, Init;
    var s0, s1, s4 := Init(true), Allocated(), ShutDown();
    var s2, s3 := s1.(initialized := false), s1.(initialized := false, running := false);
    FirstAllocation();
    ShuttingDown(s1);
    NothingToClear();
    LateInsert();
    Chain(s0, [Allocate(0, 4, 8), Deinitialize, StopPump, PumpExit, Clear, Insert(0)],
          [s0, s1, s2, s3, s4, s4, AfterInsert(s4, 0)]);
  }

  /** No locked section but the pump's own and `shutdown`'s ends a retirement. */
  predicate KeepsRetiring(s: State, s': State) {
    |s.clients| == |s'.clients| && forall i :: 0 <= i < |s.clients| && s.clients[i].retiring ==> s'.clients[i].retiring
  }

  lemma InsertKeeps(s: State, t: nat)
    requires Shaped(s) && t in s.inserting
    ensures KeepsRetiring(s, AfterInsert(s, t)) && AfterInsert(s, t).pump == s.pump
  {
    FirstFreeIs(s.clients, 0);
  }

  lemma UnregisterKeeps(s: State, t: nat, handle: U32)
    requires Shaped(s)
    ensures KeepsRetiring(s, AfterUnregister(s, t, handle)) && AfterUnregister(s, t, handle).pump == s.pump
  {
    hide Positioned, Retired;
    match HandleIndex(handle)
    case None =>
    case Some(i) => if s.clients[i].retiring { assert AfterUnregister(s, t, handle) == s; }
  }

  lemma SubmitKeeps(s: State, handle: U32, frame: Option<Frame>)
    requires Shaped(s)
    ensures KeepsRetiring(s, AfterSubmit(s, handle, frame)) && AfterSubmit(s, handle, frame).pump == s.pump
  {
  }

  lemma RenderKeeps(s: State, n: nat)
    requires Shaped(s)
    ensures KeepsRetiring(s, AfterRender(s, n)) && AfterRender(s, n).pump == s.pump
  {
  }

  lemma StuckStep(s: State, step: Step, i: nat)
    requires Stuck(s, i) && Enabled(s, step) && !step.Clear? && Shaped(Apply(s, step))
    ensures Stuck(Apply(s, step), i)
  {
    hide AfterInsert, AfterUnregister, AfterCallbackUnregister, AfterSubmit, AfterRender, AfterCollect,
      AfterSettled, AfterClear;
    match step
    case Insert(t) => InsertKeeps(s, t);
    case Unregister(t, handle) => UnregisterKeeps(s, t, handle);
    case Submit(handle, frame) => SubmitKeeps(s, handle, frame);
    case Render(n) => RenderKeeps(s, n);
    case _ =>
  }

  /** Short of a shutdown, a stuck callback never returns, whatever else happens. */
  lemma {:induction false} StuckForever(s: State, steps: seq<Step>, i: nat)
    requires Inv(s) && Stuck(s, i) && Legal(s, steps)
    requires forall k :: 0 <= k < |steps| ==> !steps[k].Clear?
    ensures Stuck(After(s, steps), i)
    decreases |steps|
  {
    hide Apply, Enabled, ClientsOk, PendingOk, LiveOk;
    if steps != [] {
      StepInv(s, steps[0]);
      StuckStep(s, steps[0], i);
      StuckForever(Apply(s, steps[0]), steps[1..], i);
    }
  }
}
