/**
  The realtime reconnect controller.

  Each section its mutex guards is a function on the guarded fields; `Controller` holds
  the fields and its methods are proved against those functions, and the run machine takes
  the sections, the channel's callbacks and the timers in any order from any threads.
*/
module Realtime {
  import Unicode

  const MAX_IDENTIFIER: nat := 256
  const MAX_CREDENTIAL: nat := 8192
  const MAX_ENDPOINT: nat := 2048

  type Bytes = seq<Unicode.Byte>

  datatype Phase = Disconnected | Connecting | Connected | Reconnecting | Unavailable | Error

  datatype Failure = NoFailure | Retryable | Fatal

  datatype Event = Event(id: Bytes, kind: Bytes, payload: Bytes)

  /** The fields the mutex guards. */
  datatype Core = Core(
    phase: Phase, retries: nat, reconnects: nat, generation: nat, stopped: bool,
    cancelled: bool, endpoint: Bytes, token: Bytes)

  const FRESH: Core := Core(Disconnected, 0, 0, 0, true, false, [], [])

  // ------------------------------------------------------------------ validation

  predicate Printable(text: Bytes) {
    forall i :: 0 <= i < |text| ==> 0x21 <= text[i] <= 0x7E
  }

  predicate IdentifierByte(b: Unicode.Byte) {
    0x30 <= b <= 0x39 || 0x41 <= b <= 0x5A || 0x61 <= b <= 0x7A || b == 0x2D || b == 0x5F || b == 0x2E || b == 0x3A
  }

  predicate ValidIdentifier(text: Bytes) {
    text != [] && |text| <= MAX_IDENTIFIER && forall i :: 0 <= i < |text| ==> IdentifierByte(text[i])
  }

  predicate ValidConfiguration(endpoint: Bytes, token: Bytes) {
    endpoint != [] && |endpoint| <= MAX_ENDPOINT && Unicode.Valid(endpoint) && Printable(endpoint)
    && (token == [] || (|token| <= MAX_CREDENTIAL && Printable(token)))
  }

  predicate ValidEvent(e: Event, maximum: nat) {
    ValidIdentifier(e.id) && ValidIdentifier(e.kind) && |e.payload| <= maximum && Unicode.Valid(e.payload)
  }

  /** Letters, digits and four marks. */
  predicate NameCharacter(c: int) {
    'a' as int <= c <= 'z' as int || 'A' as int <= c <= 'Z' as int || '0' as int <= c <= '9' as int
    || c == '-' as int || c == '_' as int || c == '.' as int || c == ':' as int
  }

  predicate Named(text: Bytes) {
    1 <= |text| <= 256 && forall i :: 0 <= i < |text| ==> NameCharacter(text[i] as int)
  }

  lemma CharacterIs(b: Unicode.Byte)
    ensures IdentifierByte(b) <==> NameCharacter(b as int)
  {
  }

  lemma IdentifierIs(text: Bytes)
    ensures ValidIdentifier(text) <==> Named(text)
  {
    hide IdentifierByte, NameCharacter;
    forall i | 0 <= i < |text| ensures IdentifierByte(text[i]) <==> NameCharacter(text[i] as int) {
      CharacterIs(text[i]);
    }
  }

  /** What an event may be: two names, and a payload of UTF-8 within the configured size. */
  lemma EventIs(e: Event, maximum: nat)
    ensures ValidEvent(e, maximum)
       <==> Named(e.id) && Named(e.kind) && |e.payload| <= maximum && Unicode.IsUtf8(e.payload)
  {
    hide ValidIdentifier, Named, Unicode.Valid, Unicode.IsUtf8;
    IdentifierIs(e.id);
    IdentifierIs(e.kind);
    Unicode.ValidIsUtf8(e.payload);
  }

  /** Printable characters are one-byte forms, so the test for UTF-8 refuses nothing more. */
  lemma {:induction false} PrintableIsUtf8(text: Bytes)
    requires Printable(text)
    ensures Unicode.Valid(text)
    decreases |text|
  {
    if text != [] { PrintableIsUtf8(text[1..]); }
  }

  lemma ConfigurationIs(endpoint: Bytes, token: Bytes)
    ensures ValidConfiguration(endpoint, token)
       <==> 1 <= |endpoint| <= 2048 && |token| <= 8192
            && forall b :: b in endpoint + token ==> 0x21 <= b <= 0x7E
  {
    hide Unicode.Valid;
    if Printable(endpoint) { PrintableIsUtf8(endpoint); }
    var all := endpoint + token;
    if forall b :: b in all ==> 0x21 <= b <= 0x7E {
      forall i | 0 <= i < |endpoint| ensures 0x21 <= endpoint[i] <= 0x7E {
        assert all[i] == endpoint[i] && all[i] in all;
      }
      forall i | 0 <= i < |token| ensures 0x21 <= token[i] <= 0x7E {
        assert all[|endpoint| + i] == token[i] && all[|endpoint| + i] in all;
      }
    }
  }

  // -------------------------------------------------------------- guarded sections

  /** The callbacks of a generation are heeded while it runs and nothing later began. */
  predicate Current(c: Core, generation: nat) {
    !c.stopped && generation == c.generation
  }

  function Begun(c: Core, endpoint: Bytes, token: Bytes): Core {
    c.(generation := c.generation + 1, cancelled := false, endpoint := endpoint, token := token,
       retries := 0, reconnects := 0, stopped := false)
  }

  function Refused(c: Core): Core {
    c.(phase := Unavailable)
  }

  function Halted(c: Core): Core {
    if c.stopped then c
    else c.(stopped := true, generation := c.generation + 1, cancelled := true,
            phase := Disconnected, endpoint := [], token := [])
  }

  function Dialling(c: Core, reconnecting: bool, generation: nat): Core {
    if Current(c, generation) then c.(phase := if reconnecting then Reconnecting else Connecting) else c
  }

  /** A channel that drops without a reason counts as a connection failure. */
  function Reason(next: Phase, failure: Failure): Failure {
    if next.Disconnected? && failure.NoFailure? then Retryable else failure
  }

  predicate Reconnects(c: Core, generation: nat, next: Phase, failure: Failure, maximum: nat) {
    Current(c, generation) && (next.Disconnected? || next.Error?)
    && Reason(next, failure).Retryable? && c.retries < maximum
  }

  function Noted(c: Core, generation: nat, next: Phase, failure: Failure, maximum: nat): Core {
    if !Current(c, generation) then c
    else if next.Connected? then c.(phase := next, retries := 0)
    else if Reconnects(c, generation, next, failure, maximum) then
      c.(phase := next, retries := c.retries + 1, reconnects := c.reconnects + 1)
    else if next.Disconnected? || next.Error? then c.(phase := Unavailable)
    else c.(phase := next)
  }

  predicate Heeds(c: Core, generation: nat) {
    Current(c, generation) && c.phase.Connected?
  }

  function AfterEvent(c: Core, generation: nat, valid: bool): Core {
    if Heeds(c, generation) && !valid then
      c.(stopped := true, cancelled := true, phase := Unavailable, endpoint := [], token := [])
    else c
  }

  // ------------------------------------------------------------------ the controller

  /** What a call leaves to be done once the mutex is released. */
  datatype Outcome = Nothing | Connect(endpoint: Bytes, token: Bytes) | Schedule | Deliver | Disconnect

  class Controller {
    const maximumRetries: nat
    const maximumEventBytes: nat
    var phase: Phase
    var retryCount: nat
    var reconnectCount: nat
    var generation: nat
    var stopped: bool
    var cancelled: bool
    var endpoint: Bytes
    var accessToken: Bytes

    function View(): Core
      reads this
    {
      Core(phase, retryCount, reconnectCount, generation, stopped, cancelled, endpoint, accessToken)
    }

    constructor (maximumRetries: nat, maximumEventBytes: nat)
      ensures View() == FRESH && this.maximumRetries == maximumRetries
      ensures 1 <= this.maximumEventBytes <= 1024 * 1024
      ensures 1 <= maximumEventBytes <= 1024 * 1024 ==> this.maximumEventBytes == maximumEventBytes
    {
      this.maximumRetries := maximumRetries;
      this.maximumEventBytes :=
        if maximumEventBytes < 1 then 1 else if maximumEventBytes > 1024 * 1024 then 1024 * 1024 else maximumEventBytes;
      phase, retryCount, reconnectCount, generation := Disconnected, 0, 0, 0;
      stopped, cancelled, endpoint, accessToken := true, false, [], [];
    }

    method Stop() returns (outcome: Outcome)
      modifies this
      ensures View() == Halted(old(View()))
      ensures outcome == if old(stopped) then Nothing else Disconnect
      ensures stopped && retryCount == old(retryCount) && reconnectCount == old(reconnectCount)
      ensures if old(stopped) then View() == old(View())
              else cancelled && generation == old(generation) + 1 && phase == Disconnected && endpoint == []
                   && accessToken == []
    {
      if stopped {
        return Nothing;
      }
      stopped := true;
      generation := generation + 1;
      cancelled := true;
      phase := Disconnected;
      accessToken := [];
      endpoint := [];
      outcome := Disconnect;
    }

    /** Starting stops whatever ran before; a bad configuration starts nothing. */
    method Start(newEndpoint: Bytes, newToken: Bytes) returns (started: bool, outcome: Outcome)
      modifies this
      ensures started <==>
        && 1 <= |newEndpoint| <= 2048 && |newToken| <= 8192
        && forall b :: b in newEndpoint + newToken ==> 0x21 <= b <= 0x7E
      ensures !started ==> View() == Refused(Halted(old(View()))) && outcome == Nothing
      ensures started ==>
        var begun := Begun(Halted(old(View())), newEndpoint, newToken);
        View() == Dialling(begun, false, begun.generation) && outcome == Connect(newEndpoint, newToken)
      ensures started ==>
        && phase == Connecting && !stopped && !cancelled && retryCount == reconnectCount == 0
        && endpoint == newEndpoint && accessToken == newToken
        && generation == old(generation) + (if old(stopped) then 1 else 2)
      ensures !started ==>
        && phase == Unavailable && stopped && retryCount == old(retryCount) && reconnectCount == old(reconnectCount)
        && generation == old(generation) + (if old(stopped) then 0 else 1)
    {
      var _ := Stop();
      started := ValidConfiguration(newEndpoint, newToken);
      ConfigurationIs(newEndpoint, newToken);
      if !started {
        phase := Unavailable;
        return false, Nothing;
      }
      generation := generation + 1;
      cancelled := false;
      endpoint := newEndpoint;
      accessToken := newToken;
      retryCount := 0;
      reconnectCount := 0;
      stopped := false;
      outcome := ConnectOnce(false, generation);
    }

    method ConnectOnce(reconnecting: bool, forGeneration: nat) returns (outcome: Outcome)
      modifies this
      ensures View() == Dialling(old(View()), reconnecting, forGeneration)
      ensures outcome == if old(stopped) || forGeneration != old(generation) then Nothing
                         else Connect(old(endpoint), old(accessToken))
      ensures View() == old(View()).(phase := if outcome == Nothing then old(phase)
                                              else if reconnecting then Reconnecting else Connecting)
    {
      if stopped || forGeneration != generation {
        return Nothing;
      }
      phase := if reconnecting then Reconnecting else Connecting;
      outcome := Connect(endpoint, accessToken);
    }

    method HandleState(forGeneration: nat, next: Phase, failure: Failure) returns (outcome: Outcome)
      modifies this
      ensures View() == Noted(old(View()), forGeneration, next, failure, maximumRetries)
      ensures outcome == Nothing || outcome == Schedule
      ensures outcome == Schedule <==>
        && !old(stopped) && forGeneration == old(generation) && (next == Disconnected || next == Error)
        && (failure == Retryable || (next == Disconnected && failure == NoFailure))
        && old(retryCount) < maximumRetries
      ensures old(stopped) || forGeneration != old(generation) ==> View() == old(View())
      ensures !old(stopped) && forGeneration == old(generation) ==>
        && phase == (if (next == Disconnected || next == Error) && outcome == Nothing then Unavailable else next)
        && retryCount == (if outcome == Schedule then old(retryCount) + 1
                          else if next == Connected then 0 else old(retryCount))
        && reconnectCount == old(reconnectCount) + (if outcome == Schedule then 1 else 0)
      ensures stopped == old(stopped) && generation == old(generation) && cancelled == old(cancelled)
              && endpoint == old(endpoint) && accessToken == old(accessToken)
    {
      var reason := if next.Disconnected? && failure.NoFailure? then Retryable else failure;
      outcome := Nothing;
      if stopped || forGeneration != generation {
        return;
      }
      phase := next;
      if next.Connected? {
        retryCount := 0;
      } else if (next.Disconnected? || next.Error?) && reason.Retryable? && retryCount < maximumRetries {
        retryCount := retryCount + 1;
        reconnectCount := reconnectCount + 1;
        outcome := Schedule;
      } else if next.Disconnected? || next.Error? {
        phase := Unavailable;
      }
    }

    method HandleEvent(forGeneration: nat, event: Event) returns (outcome: Outcome)
      modifies this
      ensures View() == AfterEvent(old(View()), forGeneration, ValidEvent(event, maximumEventBytes))
      ensures outcome == if old(stopped) || forGeneration != old(generation) || old(phase) != Connected then Nothing
                         else if ValidEvent(event, maximumEventBytes) then Deliver else Disconnect
      ensures outcome == Deliver ==>
        && Named(event.id) && Named(event.kind) && |event.payload| <= maximumEventBytes
        && Unicode.IsUtf8(event.payload)
      ensures outcome == Disconnect ==>
        !(Named(event.id) && Named(event.kind) && |event.payload| <= maximumEventBytes && Unicode.IsUtf8(event.payload))
      ensures outcome == Disconnect ==>
        && stopped && cancelled && phase == Unavailable && endpoint == accessToken == []
        && generation == old(generation) && retryCount == old(retryCount) && reconnectCount == old(reconnectCount)
      ensures outcome != Disconnect ==> View() == old(View())
    {
      if stopped || forGeneration != generation || phase != Connected {
        return Nothing;
      }
      EventIs(event, maximumEventBytes);
      var invalid := !ValidIdentifier(event.id) || !ValidIdentifier(event.kind)
                     || |event.payload| > maximumEventBytes || !Unicode.Valid(event.payload);
      if invalid {
        stopped := true;
        cancelled := true;
        phase := Unavailable;
        accessToken := [];
        endpoint := [];
        return Disconnect;
      }
      outcome := Deliver;
    }
  }

  // ------------------------------------------------------------------------- runs

  /** Work left between sections, and history: `pending` reconnects are decided and not
      yet scheduled, `timers` are scheduled and not yet fired, `scheduled` is every
      reconnect ever scheduled, by generation; `begun` is the generation of the latest
      start and `since` counts the reconnects decided since it or since the channel last
      connected; `dialled` are the generations whose callbacks the channel was given. */
  datatype State = State(
    core: Core, maximum: nat, dials: multiset<nat>, pending: multiset<nat>, timers: multiset<nat>,
    scheduled: multiset<nat>, begun: nat, since: nat, calls: seq<(Bytes, Bytes)>, dialled: set<nat>)

  datatype Step =
    | HaltStep
    | BeginStep(endpoint: Bytes, token: Bytes)
    | RefuseStep
    | DialStep(generation: nat, reconnecting: bool)
    | StateStep(generation: nat, next: Phase, failure: Failure)
    | EventStep(generation: nat, valid: bool)
    | ScheduleStep(generation: nat)
    | FireStep(generation: nat)

  function Init(maximum: nat): State {
    State(FRESH, maximum, multiset{}, multiset{}, multiset{}, multiset{}, 0, 0, [], {})
  }

  /** The channel may call back, at any time, with any generation it was ever dialled for; a
      start's own section follows a stop's, but other threads may come between them. */
  predicate Enabled(s: State, step: Step) {
    match step
    case HaltStep => true
    case BeginStep(_, _) => true
    case RefuseStep => true
    case DialStep(g, _) => g in s.dials
    case StateStep(g, _, _) => g in s.dialled
    case EventStep(g, _) => g in s.dialled
    case ScheduleStep(g) => g in s.pending
    case FireStep(g) => g in s.timers
  }

  function Apply(s: State, step: Step): State
    requires Enabled(s, step)
  {
    match step
    case HaltStep => s.(core := Halted(s.core))
    case BeginStep(endpoint, token) =>
      var c := Begun(s.core, endpoint, token);
      s.(core := c, begun := c.generation, since := 0, dials := s.dials + multiset{c.generation})
    case RefuseStep => s.(core := Refused(s.core))
    case DialStep(g, reconnecting) =>
      s.(core := Dialling(s.core, reconnecting, g), dials := s.dials - multiset{g},
         calls := if Current(s.core, g) then s.calls + [(s.core.endpoint, s.core.token)] else s.calls,
         dialled := if Current(s.core, g) then s.dialled + {g} else s.dialled)
    case StateStep(g, next, failure) =>
      var c := Noted(s.core, g, next, failure, s.maximum);
      if Reconnects(s.core, g, next, failure, s.maximum) then
        s.(core := c, pending := s.pending + multiset{g}, since := s.since + 1)
      else if Current(s.core, g) && next.Connected? then s.(core := c, since := 0)
      else s.(core := c)
    case EventStep(g, valid) => s.(core := AfterEvent(s.core, g, valid))
    case ScheduleStep(g) =>
      s.(pending := s.pending - multiset{g}, timers := s.timers + multiset{g}, scheduled := s.scheduled + multiset{g})
    case FireStep(g) => s.(timers := s.timers - multiset{g}, dials := s.dials + multiset{g})
  }

  predicate CoreOk(s: State) {
    && s.begun <= s.core.generation && (!s.core.stopped ==> s.begun == s.core.generation)
    && s.core.retries == s.since <= s.maximum
    && (s.core.stopped ==> s.core.endpoint == [] && s.core.token == [])
    && (s.core.stopped <==> s.core.cancelled || s.core.generation == 0)
  }

  ghost predicate QueuesOk(s: State) {
    && s.core.reconnects == s.scheduled[s.begun] + s.pending[s.begun]
    && (forall g :: g in s.pending || g in s.scheduled || g in s.timers || g in s.dials ==> g <= s.begun)
  }

  ghost predicate Inv(s: State) {
    CoreOk(s) && QueuesOk(s)
  }

  lemma InitInv(maximum: nat)
    ensures Inv(Init(maximum))
  {
  }

  lemma CoreStep(s: State, step: Step)
    requires CoreOk(s) && Enabled(s, step)
    ensures CoreOk(Apply(s, step))
  {
  }

  lemma QueuesBegin(s: State, endpoint: Bytes, token: Bytes)
    requires CoreOk(s) && QueuesOk(s)
    ensures QueuesOk(Apply(s, BeginStep(endpoint, token)))
  {
  }

  lemma QueuesDecide(s: State, g: nat, next: Phase, failure: Failure)
    requires CoreOk(s) && QueuesOk(s) && Enabled(s, StateStep(g, next, failure))
    ensures QueuesOk(Apply(s, StateStep(g, next, failure)))
  {
    if Reconnects(s.core, g, next, failure, s.maximum) { assert g == s.begun; }
  }

  lemma QueuesSchedule(s: State, g: nat)
    requires QueuesOk(s) && Enabled(s, ScheduleStep(g))
    ensures QueuesOk(Apply(s, ScheduleStep(g)))
  {
  }

  lemma QueuesFire(s: State, g: nat)
    requires QueuesOk(s) && Enabled(s, FireStep(g))
    ensures QueuesOk(Apply(s, FireStep(g)))
  {
  }

  lemma QueuesRest(s: State, step: Step)
    requires QueuesOk(s) && Enabled(s, step)
    requires step.HaltStep? || step.RefuseStep? || step.EventStep? || step.DialStep?
    ensures QueuesOk(Apply(s, step))
  {
  }

  lemma QueuesStep(s: State, step: Step)
    requires CoreOk(s) && QueuesOk(s) && Enabled(s, step)
    ensures QueuesOk(Apply(s, step))
  {
    hide Apply, Enabled, CoreOk, QueuesOk;
    match step
    case BeginStep(endpoint, token) => QueuesBegin(s, endpoint, token);
    case StateStep(g, next, failure) => QueuesDecide(s, g, next, failure);
    case ScheduleStep(g) => QueuesSchedule(s, g);
    case FireStep(g) => QueuesFire(s, g);
    case _ => QueuesRest(s, step);
  }

  lemma StepInv(s: State, step: Step)
    requires Inv(s) && Enabled(s, step)
    ensures Inv(Apply(s, step))
  {
    hide Apply, Enabled, CoreOk, QueuesOk;
    CoreStep(s, step);
    QueuesStep(s, step);
  }

  predicate Legal(s: State, steps: seq<Step>)
    decreases |steps|
  {
    steps == [] || (Enabled(s, steps[0]) && Legal(Apply(s, steps[0]), steps[1..]))
  }

  function After(s: State, steps: seq<Step>): State
    requires Legal(s, steps)
    decreases |steps|
  {
    if steps == [] then s else After(Apply(s, steps[0]), steps[1..])
  }

  lemma {:induction false} RunInv(s: State, steps: seq<Step>)
    requires Inv(s) && Legal(s, steps)
    ensures Inv(After(s, steps)) && After(s, steps).maximum == s.maximum
    decreases |steps|
  {
    hide Inv, Apply, Enabled;
    if steps != [] {
      StepInv(s, steps[0]);
      KeepsMaximum(s, steps[0]);
      RunInv(Apply(s, steps[0]), steps[1..]);
    }
  }

  lemma KeepsMaximum(s: State, step: Step)
    requires Enabled(s, step)
    ensures Apply(s, step).maximum == s.maximum
  {
  }

  /** At every moment of every run: no more reconnects than the configured maximum are
      decided since the last start or connection; the reconnect counter is the number of
      reconnects of the latest started generation scheduled or about to be; and a stopped
      controller keeps no endpoint and no token. */
  lemma RunsAreBounded(maximum: nat, steps: seq<Step>)
    requires Legal(Init(maximum), steps)
    ensures var s := After(Init(maximum), steps);
      && s.since <= maximum
      && s.core.reconnects == s.scheduled[s.begun] + s.pending[s.begun]
      && (s.core.stopped ==> s.core.endpoint == [] && s.core.token == [])
  {
    hide Apply, Enabled;
    InitInv(maximum);
    RunInv(Init(maximum), steps);
  }

  /** A drop below the limit is followed up: undisturbed, its reconnect is scheduled, its
      timer fires, and the channel is dialled again with the same endpoint and token. */
  lemma ReconnectDials(s: State, g: nat, next: Phase, failure: Failure)
    requires g in s.dialled && !s.core.stopped && g == s.core.generation && s.core.retries < s.maximum
    requires next == Disconnected || next == Error
    requires failure == Retryable || (next == Disconnected && failure == NoFailure)
    ensures var steps := [StateStep(g, next, failure), ScheduleStep(g), FireStep(g), DialStep(g, true)];
      && Legal(s, steps)
      && After(s, steps)
         == s.(core := s.core.(phase := Reconnecting, retries := s.core.retries + 1,
                               reconnects := s.core.reconnects + 1),
               since := s.since + 1, scheduled := s.scheduled + multiset{g},
               calls := s.calls + [(s.core.endpoint, s.core.token)])
  {
    hide Legal, After, Apply, Enabled;
    var s1 := Decided(s, g, next, failure);
    assert s.pending + multiset{g} - multiset{g} == s.pending;
    assert s.timers + multiset{g} - multiset{g} == s.timers;
    assert s.dials + multiset{g} - multiset{g} == s.dials;
    assert s.dialled + {g} == s.dialled;
    TimerSteps(s1, g);
    var s2 := s1.(pending := s.pending, timers := s.timers + multiset{g}, scheduled := s.scheduled + multiset{g});
    var s3 := s2.(timers := s.timers, dials := s.dials + multiset{g});
    TimerSteps(s2, g);
    Redials(s3, g);
    FourSteps(s, StateStep(g, next, failure), ScheduleStep(g), FireStep(g), DialStep(g, true));
  }

  lemma Decided(s: State, g: nat, next: Phase, failure: Failure) returns (r: State)
    requires g in s.dialled && !s.core.stopped && g == s.core.generation && s.core.retries < s.maximum
    requires next == Disconnected || next == Error
    requires failure == Retryable || (next == Disconnected && failure == NoFailure)
    ensures Enabled(s, StateStep(g, next, failure)) && r == Apply(s, StateStep(g, next, failure))
    ensures r == s.(core := s.core.(phase := next, retries := s.core.retries + 1, reconnects := s.core.reconnects + 1),
                    pending := s.pending + multiset{g}, since := s.since + 1)
  {
    r := Apply(s, StateStep(g, next, failure));
  }

  lemma TimerSteps(s: State, g: nat)
    ensures g in s.pending ==>
      && Enabled(s, ScheduleStep(g))
      && Apply(s, ScheduleStep(g)) == s.(pending := s.pending - multiset{g}, timers := s.timers + multiset{g},
                                         scheduled := s.scheduled + multiset{g})
    ensures g in s.timers ==>
      && Enabled(s, FireStep(g))
      && Apply(s, FireStep(g)) == s.(timers := s.timers - multiset{g}, dials := s.dials + multiset{g})
  {
  }

  lemma Redials(s: State, g: nat)
    requires g in s.dials && !s.core.stopped && g == s.core.generation
    ensures Enabled(s, DialStep(g, true))
    ensures Apply(s, DialStep(g, true))
         == s.(core := s.core.(phase := Reconnecting), dials := s.dials - multiset{g},
               calls := s.calls + [(s.core.endpoint, s.core.token)], dialled := s.dialled + {g})
  {
  }

  // ------------------------------------------------------------- stale callbacks

  /** Nothing a generation's callbacks say is heeded any more. */
  predicate Dead(s: State, generation: nat) {
    generation < s.core.generation || (generation == s.core.generation && s.core.stopped)
  }

  lemma DeadStep(s: State, step: Step, generation: nat)
    requires Dead(s, generation) && Enabled(s, step)
    ensures Dead(Apply(s, step), generation)
  {
  }

  lemma {:induction false} DeadRun(s: State, steps: seq<Step>, generation: nat)
    requires Dead(s, generation) && Legal(s, steps)
    ensures Dead(After(s, steps), generation)
    decreases |steps|
  {
    hide Apply, Enabled, Dead;
    if steps != [] {
      DeadStep(s, steps[0], generation);
      DeadRun(Apply(s, steps[0]), steps[1..], generation);
    }
  }

  predicate OfGeneration(step: Step, generation: nat) {
    match step
    case DialStep(g, _) => g == generation
    case StateStep(g, _, _) => g == generation
    case EventStep(g, _) => g == generation
    case _ => false
  }

  /** Once a generation was stopped or followed by another start, its channel callbacks and
      timers change nothing in the controller for the rest of any run, schedule nothing and
      dial nothing. */
  lemma StaleForever(maximum: nat, before: seq<Step>, after: seq<Step>, step: Step, generation: nat)
    requires Legal(Init(maximum), before) && Dead(After(Init(maximum), before), generation)
    requires Legal(After(Init(maximum), before), after)
    requires OfGeneration(step, generation) && Enabled(After(After(Init(maximum), before), after), step)
    ensures var s := After(After(Init(maximum), before), after);
      var s' := Apply(s, step);
      && s'.core == s.core && s'.pending == s.pending && s'.timers == s.timers
      && s'.scheduled == s.scheduled && s'.calls == s.calls && s'.since == s.since
  {
    DeadRun(After(Init(maximum), before), after, generation);
  }

  /** Stopping kills every generation begun so far. */
  lemma HaltKills(s: State, generation: nat)
    requires Inv(s) && generation <= s.begun
    ensures Dead(Apply(s, HaltStep), generation)
  {
  }

  /** The channel is only ever dialled with a configuration some start gave. */
  predicate GaveConfiguration(steps: seq<Step>, endpoint: Bytes, token: Bytes) {
    exists i :: 0 <= i < |steps| && steps[i] == BeginStep(endpoint, token)
  }

  ghost predicate CallsGiven(s: State, steps: seq<Step>) {
    && (forall i :: 0 <= i < |s.calls| ==> GaveConfiguration(steps, s.calls[i].0, s.calls[i].1))
    && (!s.core.stopped ==> GaveConfiguration(steps, s.core.endpoint, s.core.token))
  }

  lemma CallsStep(s: State, steps: seq<Step>, step: Step)
    requires Enabled(s, step) && CallsGiven(s, steps)
    ensures CallsGiven(Apply(s, step), steps + [step])
  {
    hide GaveConfiguration;
    forall e, t | GaveConfiguration(steps, e, t) ensures GaveConfiguration(steps + [step], e, t) {
      GivenMore(steps, step, e, t);
    }
    if step.BeginStep? { GivenNow(steps, step); }
  }

  lemma GivenMore(steps: seq<Step>, step: Step, e: Bytes, t: Bytes)
    requires GaveConfiguration(steps, e, t)
    ensures GaveConfiguration(steps + [step], e, t)
  {
    var i :| 0 <= i < |steps| && steps[i] == BeginStep(e, t);
    assert (steps + [step])[i] == BeginStep(e, t);
  }

  lemma GivenNow(steps: seq<Step>, step: Step)
    requires step.BeginStep?
    ensures GaveConfiguration(steps + [step], step.endpoint, step.token)
  {
    assert (steps + [step])[|steps|] == step;
  }

  lemma {:induction false} CallsRun(s: State, done: seq<Step>, steps: seq<Step>)
    requires CallsGiven(s, done) && Legal(s, steps)
    ensures CallsGiven(After(s, steps), done + steps)
    decreases |steps|
  {
    hide Apply, Enabled, CallsGiven;
    if steps == [] {
      assert done + steps == done;
    } else {
      CallsStep(s, done, steps[0]);
      CallsRun(Apply(s, steps[0]), done + [steps[0]], steps[1..]);
      assert done + steps == done + [steps[0]] + steps[1..];
    }
  }

  /** Every call that reaches the channel carries the endpoint and token of one start,
      never a mixture and never erased ones. */
  lemma CallsCarryStarts(maximum: nat, steps: seq<Step>, i: nat)
    requires Legal(Init(maximum), steps) && i < |After(Init(maximum), steps).calls|
    ensures var call := After(Init(maximum), steps).calls[i];
      GaveConfiguration(steps, call.0, call.1)
  {
    hide Apply, Enabled, GaveConfiguration;
    CallsRun(Init(maximum), [], steps);
    assert [] + steps == steps;
  }

  // ----------------------------------------------------------- a start that is refused

  /** An event of this generation would be looked at. */
  predicate Hears(s: State, generation: nat) {
    generation in s.dialled && Heeds(s.core, generation)
  }

  /** The last dial or state callback of a generation reported that it is connected. */
  predicate Connects(steps: seq<Step>, generation: nat) {
    steps != [] &&
    var rest := steps[..|steps| - 1];
    match steps[|steps| - 1]
    case StateStep(g, next, _) => if g == generation then next.Connected? else Connects(rest, generation)
    case DialStep(g, _) => g != generation && Connects(rest, generation)
    case _ => Connects(rest, generation)
  }

  /** Some start was refused since the last dial or state callback of a generation. */
  predicate Muted(steps: seq<Step>, generation: nat) {
    steps != [] &&
    var rest := steps[..|steps| - 1];
    match steps[|steps| - 1]
    case RefuseStep => true
    case StateStep(g, _, _) => g != generation && Muted(rest, generation)
    case DialStep(g, _) => g != generation && Muted(rest, generation)
    case _ => Muted(rest, generation)
  }

  /** The steps so far tell whether a dialled, running generation is heard. */
  predicate Told(s: State, steps: seq<Step>, generation: nat) {
    && (generation in s.dialled ==> generation <= s.core.generation)
    && (Connects(steps, generation) ==> generation in s.dialled)
    && (generation in s.dialled && Current(s.core, generation) ==>
          (s.core.phase.Connected? <==> Connects(steps, generation) && !Muted(steps, generation)))
  }

  lemma ToldStep(s: State, steps: seq<Step>, step: Step, generation: nat)
    requires Told(s, steps, generation) && Enabled(s, step)
    ensures Told(Apply(s, step), steps + [step], generation)
  {
    var longer := steps + [step];
    assert longer[..|longer| - 1] == steps && longer[|longer| - 1] == step;
  }

  lemma {:induction false} ToldRun(s: State, done: seq<Step>, steps: seq<Step>, generation: nat)
    requires Told(s, done, generation) && Legal(s, steps)
    ensures Told(After(s, steps), done + steps, generation)
    decreases |steps|
  {
    hide Apply, Enabled, Told;
    if steps == [] {
      assert done + steps == done;
    } else {
      ToldStep(s, done, steps[0], generation);
      ToldRun(Apply(s, steps[0]), done + [steps[0]], steps[1..], generation);
      assert done + steps == done + [steps[0]] + steps[1..];
    }
  }

  /** In every run a generation is heard exactly when it is the running one, its last dial
      or callback reported that it is connected, and no start was refused since: only a
      refusal keeps a running, connected generation from being heard. */
  lemma HeardExactly(maximum: nat, steps: seq<Step>, generation: nat)
    requires Legal(Init(maximum), steps)
    ensures var s := After(Init(maximum), steps);
      Hears(s, generation) <==>
        Current(s.core, generation) && Connects(steps, generation) && !Muted(steps, generation)
  {
    hide Apply, Enabled, Connects, Muted;
    assert Told(Init(maximum), [], generation) by { ToldStart(maximum, generation); }
    ToldRun(Init(maximum), [], steps, generation);
    assert [] + steps == steps;
  }

  lemma ToldStart(maximum: nat, generation: nat)
    ensures Told(Init(maximum), [], generation)
  {
  }

  predicate ConnectedCallback(step: Step, generation: nat) {
    step.StateStep? && step.generation == generation && step.next.Connected?
  }

  predicate SomeConnected(steps: seq<Step>, generation: nat) {
    exists i :: 0 <= i < |steps| && ConnectedCallback(steps[i], generation)
  }

  lemma {:induction false} StaysMuted(before: seq<Step>, later: seq<Step>, generation: nat)
    requires !SomeConnected(later, generation)
    ensures var steps := before + [RefuseStep] + later; Muted(steps, generation) || !Connects(steps, generation)
    decreases |later|
  {
    var steps := before + [RefuseStep] + later;
    if later == [] {
      assert steps[|steps| - 1] == RefuseStep;
    } else {
      var rest := later[..|later| - 1];
      assert steps[..|steps| - 1] == before + [RefuseStep] + rest;
      assert steps[|steps| - 1] == later[|later| - 1] && !ConnectedCallback(later[|later| - 1], generation);
      forall i | 0 <= i < |rest| ensures !ConnectedCallback(rest[i], generation) { assert rest[i] == later[i]; }
      StaysMuted(before, rest, generation);
    }
  }

  lemma RefusalTells(before: seq<Step>, later: seq<Step>, generation: nat)
    ensures var steps := before + [RefuseStep] + later;
      && (Connects(steps, generation) && !Muted(steps, generation) ==> SomeConnected(later, generation))
      && (later != [] && ConnectedCallback(later[|later| - 1], generation) ==>
            Connects(steps, generation) && !Muted(steps, generation))
  {
    hide SomeConnected;
    var steps := before + [RefuseStep] + later;
    if !SomeConnected(later, generation) { StaysMuted(before, later, generation); }
    if later != [] { assert steps[|steps| - 1] == later[|later| - 1]; }
  }

  /** After a refused start no generation is heard until its next Connected callback, and
      that callback makes the running one heard again. */
  lemma MutedUntilConnected(maximum: nat, before: seq<Step>, later: seq<Step>, generation: nat)
    requires Legal(Init(maximum), before + [RefuseStep] + later)
    ensures var s := After(Init(maximum), before + [RefuseStep] + later);
      && (Hears(s, generation) ==> SomeConnected(later, generation))
      && (later != [] && ConnectedCallback(later[|later| - 1], generation) && Current(s.core, generation) ==>
            Hears(s, generation))
  {
    hide Init, Legal, After, Hears, Current, Connects, Muted, ConnectedCallback, SomeConnected;
    HeardExactly(maximum, before + [RefuseStep] + later, generation);
    RefusalTells(before, later, generation);
  }

  /** The section of a refused start looks at no generation: when another thread's start
      came in between, its connected channel is marked unavailable while it still runs,
      and its events are dropped until it reports again that it is connected. */
  lemma RefusedStartMutes(maximum: nat, endpoint: Bytes, token: Bytes)
    ensures var connected := [HaltStep, BeginStep(endpoint, token), DialStep(1, false),
                              StateStep(1, Connected, NoFailure)];
      && Legal(Init(maximum), connected) && Hears(After(Init(maximum), connected), 1)
      && Legal(Init(maximum), connected + [RefuseStep])
      && var s := After(Init(maximum), connected + [RefuseStep]);
         && Current(s.core, 1) && !Hears(s, 1)
         && Enabled(s, EventStep(1, true)) && Apply(s, EventStep(1, true)) == s
  {
    hide Legal, After;
    var s0 := Init(maximum);
    var s1 := Apply(s0, HaltStep);
    var s2 := Apply(s1, BeginStep(endpoint, token));
    var s3 := Apply(s2, DialStep(1, false));
    var s4 := Apply(s3, StateStep(1, Connected, NoFailure));
    FourSteps(s0, HaltStep, BeginStep(endpoint, token), DialStep(1, false), StateStep(1, Connected, NoFailure));
    OneMore(s0, [HaltStep, BeginStep(endpoint, token), DialStep(1, false), StateStep(1, Connected, NoFailure)],
            RefuseStep);
  }

  lemma FourSteps(s: State, a: Step, b: Step, c: Step, d: Step)
    requires Enabled(s, a) && Enabled(Apply(s, a), b) && Enabled(Apply(Apply(s, a), b), c)
    requires Enabled(Apply(Apply(Apply(s, a), b), c), d)
    ensures Legal(s, [a, b, c, d]) && After(s, [a, b, c, d]) == Apply(Apply(Apply(Apply(s, a), b), c), d)
  {
    hide Apply, Enabled, Legal, After;
    NoSteps(s);
    OneMore(s, [], a);
    assert [] + [a] == [a];
    OneMore(s, [a], b);
    assert [a] + [b] == [a, b];
    OneMore(s, [a, b], c);
    assert [a, b] + [c] == [a, b, c];
    OneMore(s, [a, b, c], d);
    assert [a, b, c] + [d] == [a, b, c, d];
  }

  lemma NoSteps(s: State)
    ensures Legal(s, []) && After(s, []) == s
  {
  }

  lemma {:induction false} OneMore(s: State, steps: seq<Step>, step: Step)
    requires Legal(s, steps) && Enabled(After(s, steps), step)
    ensures Legal(s, steps + [step]) && After(s, steps + [step]) == Apply(After(s, steps), step)
    decreases |steps|
  {
    hide Apply, Enabled;
    if steps == [] {
      assert steps + [step] == [step] && [step][1..] == [];
      NoSteps(Apply(s, step));
    } else {
      assert (steps + [step])[0] == steps[0] && (steps + [step])[1..] == steps[1..] + [step];
      OneMore(Apply(s, steps[0]), steps[1..], step);
    }
  }
}
