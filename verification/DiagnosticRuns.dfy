/** Every run of the diagnostic ring: what snapshots return and who makes progress. */
module DiagnosticRuns {
  import opened DiagnosticEvents
  import opened DiagnosticRing

  // --------------------------------------------------------------------- runs

  predicate Legal(g: Ring, steps: seq<Step>)
    decreases |steps|
  {
    steps == [] || (Shaped(g) && Enabled(g, steps[0]) && Legal(Apply(g, steps[0]), steps[1..]))
  }

  function After(g: Ring, steps: seq<Step>): Ring
    requires Legal(g, steps)
    decreases |steps|
  {
    if steps == [] then g else After(Apply(g, steps[0]), steps[1..])
  }

  lemma {:induction false} RunInv(g: Ring, steps: seq<Step>)
    requires Inv(g) && Legal(g, steps)
    ensures Inv(After(g, steps))
    decreases |steps|
  {
    if steps != [] {
      StepInv(g, steps[0]);
      RunInv(Apply(g, steps[0]), steps[1..]);
    }
  }

  lemma {:induction false} LegalSplit(g: Ring, a: seq<Step>, b: seq<Step>)
    requires Legal(g, a + b)
    ensures Legal(g, a) && Legal(After(g, a), b)
    ensures After(g, a + b) == After(After(g, a), b)
    decreases |a|
  {
    if a == [] {
      assert a + b == b;
    } else {
      assert (a + b)[0] == a[0] && (a + b)[1..] == a[1..] + b;
      LegalSplit(Apply(g, a[0]), a[1..], b);
    }
  }

  lemma {:induction false} LegalJoin(g: Ring, a: seq<Step>, b: seq<Step>)
    requires Legal(g, a) && Legal(After(g, a), b)
    ensures Legal(g, a + b) && After(g, a + b) == After(After(g, a), b)
    decreases |a|
  {
    hide Apply, Enabled, Shaped;
    if a == [] {
      assert a + b == b;
    } else {
      assert (a + b)[0] == a[0] && (a + b)[1..] == a[1..] + b;
      LegalJoin(Apply(g, a[0]), a[1..], b);
    }
  }

  lemma OneStep(g: Ring, step: Step)
    requires Shaped(g) && Enabled(g, step)
    ensures Legal(g, [step]) && After(g, [step]) == Apply(g, step)
  {
    hide Apply, Enabled, Shaped;
    assert [step][1..] == [] && Legal(Apply(g, step), []);
  }

  lemma StepOf(g: Ring, step: Step)
    requires Legal(g, [step])
    ensures Shaped(g) && Enabled(g, step) && After(g, [step]) == Apply(g, step)
  {
    hide Apply, Enabled, Shaped;
    assert [step][1..] == [] && [step][0] == step;
  }

  /** No torn reads: in every interleaving, everything a snapshot has collected so far
      is, field by field, the event recorded with that sequence number, in strictly
      increasing order and inside the range the snapshot set out to read. */
  lemma NoTornReads(steps: seq<Step>, r: nat)
    requires Legal(Init(), steps) && r in After(Init(), steps).readers
    ensures var g := After(Init(), steps); var d := g.readers[r];
      && |g.log| == g.next
      && d.end <= g.next
      && (forall i :: 0 <= i < |d.events| ==>
            && d.begin <= d.events[i].sequence < d.end
            && d.events[i] == g.log[d.events[i].sequence])
      && (forall i, j :: 0 <= i < j < |d.events| ==> d.events[i].sequence < d.events[j].sequence)
  {
    InitInv();
    RunInv(Init(), steps);
    var g := After(Init(), steps);
    assert ReaderOk(g, g.readers[r]);
  }

  /** At most one writer owns a slot at any moment. */
  lemma OneOwner(steps: seq<Step>, s: nat, t: nat)
    requires Legal(Init(), steps)
    requires var w := After(Init(), steps).writers;
      s in w && t in w && w[s].pc.Storing? && w[t].pc.Storing?
    requires SlotOf(s) == SlotOf(t)
    ensures s == t
  {
    InitInv();
    RunInv(Init(), steps);
    var g := After(Init(), steps);
    assert WriterOk(g, s) && WriterOk(g, t);
  }

  /** A slot's version never decreases. */
  lemma VersionsGrow(g: Ring, step: Step, k: nat)
    requires Inv(g) && Enabled(g, step) && k < CAPACITY
    ensures |Apply(g, step).slots| == CAPACITY
    ensures g.slots[k].version <= Apply(g, step).slots[k].version
  {
    if step.Claim? || step.Publish? { assert WriterOk(g, step.s); }
  }

  // ------------------------------------------------------ completeness at rest

  predicate Undisturbed(steps: seq<Step>) {
    forall i :: 0 <= i < |steps| ==> !steps[i].Draw?
  }

  /** No `record` call has been in progress since snapshot `r` loaded `end` in `g0`. */
  predicate Resting(g0: Ring, g: Ring, r: nat) {
    && Inv(g) && g.writers == map[]
    && g.next == g0.next && g.log == g0.log
    && r in g.readers && g.readers[r].quiet && g.readers[r].end == g0.next
  }

  /** Once snapshot `r` has loaded the base it keeps where it began. */
  predicate BeginKept(g: Ring, g': Ring, r: nat) {
    r in g.readers && !g.readers[r].phase.LoadBase? ==>
      r in g'.readers && !g'.readers[r].phase.LoadBase? && g'.readers[r].begin == g.readers[r].begin
  }

  lemma RestingStep(g0: Ring, g: Ring, r: nat, step: Step)
    requires Resting(g0, g, r) && Enabled(g, step) && !step.Draw?
    requires Inv(Apply(g, step))
    ensures Resting(g0, Apply(g, step), r) && BeginKept(g, Apply(g, step), r)
  {
    hide Inv, Encode, Decode, SlotOf;
    ShapedFact(g);
  }

  lemma ShapedFact(g: Ring)
    requires Inv(g)
    ensures Shaped(g)
  {
  }

  lemma {:induction false} RestingRun(g0: Ring, g: Ring, r: nat, steps: seq<Step>)
    requires Resting(g0, g, r) && Legal(g, steps) && Undisturbed(steps)
    ensures Resting(g0, After(g, steps), r) && BeginKept(g, After(g, steps), r)
    decreases |steps|
  {
    hide Inv, Apply, Enabled, Shaped;
    if steps != [] {
      StepInv(g, steps[0]);
      RestingStep(g0, g, r, steps[0]);
      RestingRun(g0, Apply(g, steps[0]), r, steps[1..]);
    }
  }

  /** A snapshot that has read everything up to its `end`. */
  predicate Finished(g: Ring, r: nat) {
    r in g.readers && g.readers[r].phase.LoadVersion? && g.readers[r].cursor >= g.readers[r].end
  }

  /** The events a snapshot is to return: those of the last CAPACITY drawn whose sequence is
      not below the base, in order. */
  predicate Retained(events: seq<Event>, g: Ring) {
    && g.base <= g.next == |g.log|
    && |events| == (if g.next - g.base < CAPACITY then g.next - g.base else CAPACITY)
    && events == g.log[g.next - |events|..]
  }

  /** Completeness at rest: a snapshot taken while no `record` call is in progress returns,
      in order, every event that is among the last CAPACITY drawn and not below the base it
      loaded, and nothing else, whatever earlier writers gave up or waited and whatever other
      snapshots and clears run beside it. */
  lemma CompleteAtRest(before: seq<Step>, r: nat, waiting: seq<Step>, during: seq<Step>)
    requires Legal(Init(), before) && After(Init(), before).writers == map[]
    requires Legal(After(Init(), before), [ReadEnd(r)] + waiting)
    requires Legal(After(After(Init(), before), [ReadEnd(r)] + waiting), [ReadBase(r)] + during)
    requires Undisturbed(waiting) && Undisturbed(during)
    requires Finished(After(After(After(Init(), before), [ReadEnd(r)] + waiting), [ReadBase(r)] + during), r)
    ensures var g := After(After(Init(), before), [ReadEnd(r)] + waiting);
      var done := After(g, [ReadBase(r)] + during);
      && r in done.readers
      && var events := done.readers[r].events;
      && Retained(events, g)
      && (forall s: nat :: s < g.next ==>
            (g.log[s] in events <==> g.base <= s && g.next <= s + CAPACITY))
      && (forall e :: e in events ==> e.sequence < g.next && e == g.log[e.sequence])
  {
    hide Init, Inv, Apply, Enabled, Shaped, Resting, Finished;
    InitInv();
    RunInv(Init(), before);
    var g0 := After(Init(), before);
    FinishedAtRest(g0, r, waiting, during);
    RunInv(g0, [ReadEnd(r)] + waiting);
    var g := After(g0, [ReadEnd(r)] + waiting);
    Sequences(g);
    RetainedExactly(After(g, [ReadBase(r)] + during).readers[r].events, g);
  }

  lemma Sequences(g: Ring)
    requires Inv(g)
    ensures |g.log| == g.next && forall s :: 0 <= s < g.next ==> g.log[s].sequence == s
  {
  }

  lemma RetainedExactly(events: seq<Event>, g: Ring)
    requires Retained(events, g) && forall s :: 0 <= s < g.next ==> g.log[s].sequence == s
    ensures forall s: nat :: s < g.next ==> (g.log[s] in events <==> g.base <= s && g.next <= s + CAPACITY)
    ensures forall e :: e in events ==> e.sequence < g.next && e == g.log[e.sequence]
  {
    var k := g.next - |events|;
    forall i | 0 <= i < |events| ensures events[i].sequence == k + i { assert events[i] == g.log[k + i]; }
    forall s: nat | s < g.next ensures g.log[s] in events <==> g.base <= s && g.next <= s + CAPACITY {
      if s >= k { assert events[s - k] == g.log[s]; }
    }
  }

  lemma FinishedAtRest(g0: Ring, r: nat, waiting: seq<Step>, during: seq<Step>)
    requires Inv(g0) && g0.writers == map[] && Undisturbed(waiting) && Undisturbed(during)
    requires Legal(g0, [ReadEnd(r)] + waiting)
    requires Legal(After(g0, [ReadEnd(r)] + waiting), [ReadBase(r)] + during)
    requires Finished(After(After(g0, [ReadEnd(r)] + waiting), [ReadBase(r)] + during), r)
    ensures var g := After(g0, [ReadEnd(r)] + waiting);
      var done := After(g, [ReadBase(r)] + during);
      r in done.readers && Retained(done.readers[r].events, g)
  {
    hide Inv, Apply, Enabled, Shaped, Resting, Finished;
    assert ([ReadEnd(r)] + waiting)[0] == ReadEnd(r) && ([ReadEnd(r)] + waiting)[1..] == waiting;
    assert ([ReadBase(r)] + during)[0] == ReadBase(r) && ([ReadBase(r)] + during)[1..] == during;
    RestingStart(g0, r);
    RestingRun(g0, Apply(g0, ReadEnd(r)), r, waiting);
    var g := After(Apply(g0, ReadEnd(r)), waiting);
    RestingBase(g0, g, r);
    var g1 := Apply(g, ReadBase(r));
    RestingRun(g0, g1, r, during);
    RestingDone(g0, g, After(g1, during), r);
  }

  lemma RestingStart(g0: Ring, r: nat)
    requires Inv(g0) && g0.writers == map[] && Enabled(g0, ReadEnd(r))
    ensures Resting(g0, Apply(g0, ReadEnd(r)), r)
  {
    hide Inv;
    StepInv(g0, ReadEnd(r));
  }

  lemma RestingBase(g0: Ring, g: Ring, r: nat)
    requires Resting(g0, g, r) && Enabled(g, ReadBase(r))
    ensures Resting(g0, Apply(g, ReadBase(r)), r)
    ensures r in Apply(g, ReadBase(r)).readers
    ensures var d := Apply(g, ReadBase(r)).readers[r]; !d.phase.LoadBase? && d.begin == Begin(g.base, g.next)
  {
    hide Inv;
    ShapedFact(g);
    StepInv(g, ReadBase(r));
  }

  lemma BaseFacts(g: Ring)
    requires Inv(g)
    ensures g.base <= g.next == |g.log|
  {
  }

  lemma RestingDone(g0: Ring, g: Ring, done: Ring, r: nat)
    requires Resting(g0, g, r) && Resting(g0, done, r) && Finished(done, r)
    requires done.readers[r].begin == Begin(g.base, g.next)
    ensures Retained(done.readers[r].events, g)
  {
    hide Inv, Faithful, Encode;
    var d := done.readers[r];
    ReaderFacts(done, r);
    BaseFacts(g);
    assert d.cursor == d.end;
    assert g.log[d.begin..d.end] == g.log[d.begin..];
  }

  // ----------------------------------------------------------------- progress

  predicate Oldest(g: Ring, s: nat) {
    s in g.writers && forall t :: t in g.writers ==> s <= t
  }

  /** How many more effective steps the oldest `record` call needs at most. */
  function Rank(g: Ring, s: nat): nat
    requires |g.slots| == CAPACITY && s in g.writers
  {
    var v := g.slots[SlotOf(s)].version;
    match g.writers[s].pc
    case Loading => if v >= 2 * s + 1 then 1 else 10
    case Claiming(current) => if v >= 2 * s + 1 then 1 else if v != current then 9 else 8
    case Storing(i) => if i <= WORDS then 7 - i else 0
  }

  /** A step of writer `s` other than a compare-exchange that failed for no reason. */
  predicate Effective(step: Step, s: nat) {
    match step
    case Load(t) => t == s
    case Claim(t, spurious) => t == s && !spurious
    case Store(t) => t == s
    case Publish(t) => t == s
    case _ => false
  }

  /** The oldest writer never waits: the event its slot held a lap earlier is complete. */
  lemma OldestNeverWaits(g: Ring, s: nat)
    requires Inv(g) && Oldest(g, s) && !g.writers[s].pc.Storing?
    ensures var v := g.slots[SlotOf(s)].version; v >= 2 * s + 1 || v % 2 == 0
  {
    assert SlotOk(g, SlotOf(s));
  }

  lemma OldestOwnStep(g: Ring, step: Step, s: nat)
    requires Inv(g) && Enabled(g, step) && Oldest(g, s) && Effective(step, s)
    ensures var g' := Apply(g, step);
      |g'.slots| == CAPACITY && (s in g'.writers ==> Oldest(g', s) && Rank(g', s) < Rank(g, s))
  {
    assert WriterOk(g, s);
    if !g.writers[s].pc.Storing? { OldestNeverWaits(g, s); }
  }

  /** A step that leaves writer `s` alone can only raise the version of its slot past `s`. */
  lemma OthersSlot(g: Ring, step: Step, s: nat)
    requires Inv(g) && Enabled(g, step) && Oldest(g, s) && !Effective(step, s)
    requires step.Claim? ==> step.s != s
    ensures var g' := Apply(g, step);
      |g'.slots| == CAPACITY && s in g'.writers && g'.writers[s] == g.writers[s] && Oldest(g', s) &&
      var v, v' := g.slots[SlotOf(s)].version, g'.slots[SlotOf(s)].version;
      v' == v || (v' >= 2 * s + 1 && !g.writers[s].pc.Storing?)
  {
    hide Inv, Encode;
    WriterFacts(g, s);
    if step.Claim? || step.Publish? { WriterFacts(g, step.s); }
  }

  lemma OldestOtherStep(g: Ring, step: Step, s: nat)
    requires Inv(g) && Enabled(g, step) && Oldest(g, s) && !Effective(step, s)
    ensures var g' := Apply(g, step);
      |g'.slots| == CAPACITY && (s in g'.writers ==> Oldest(g', s) && Rank(g', s) <= Rank(g, s))
  {
    if step.Claim? && step.s == s { OldestFailedClaim(g, step, s); } else { OldestLeftAlone(g, step, s); }
  }

  /** A compare-exchange that fails for no reason puts its writer back to the same place. */
  lemma OldestFailedClaim(g: Ring, step: Step, s: nat)
    requires Inv(g) && Enabled(g, step) && Oldest(g, s) && step == Claim(s, true)
    ensures var g' := Apply(g, step);
      |g'.slots| == CAPACITY && (s in g'.writers ==> Oldest(g', s) && Rank(g', s) <= Rank(g, s))
  {
    hide Inv, Encode;
    WriterFacts(g, s);
    OldestNeverWaits(g, s);
  }

  lemma OldestLeftAlone(g: Ring, step: Step, s: nat)
    requires Inv(g) && Enabled(g, step) && Oldest(g, s) && !Effective(step, s) && (step.Claim? ==> step.s != s)
    ensures var g' := Apply(g, step);
      |g'.slots| == CAPACITY && (s in g'.writers ==> Oldest(g', s) && Rank(g', s) <= Rank(g, s))
  {
    hide Inv, Apply, Enabled;
    WriterFacts(g, s);
    OthersSlot(g, step, s);
  }

  function OwnSteps(steps: seq<Step>, s: nat): nat {
    if steps == [] then 0
    else (if Effective(steps[0], s) then 1 else 0) + OwnSteps(steps[1..], s)
  }

  /** `s` left the set of calls in progress somewhere along the run. */
  predicate Returned(g: Ring, steps: seq<Step>, s: nat)
    requires Legal(g, steps)
    decreases |steps|
  {
    s !in g.writers || (steps != [] && Returned(Apply(g, steps[0]), steps[1..], s))
  }

  /** Progress: whatever the other threads do, the oldest `record` call in progress
      returns within ten of its own effective steps, so some call always can finish. */
  lemma {:induction false} OldestFinishes(g: Ring, steps: seq<Step>, s: nat)
    requires Inv(g) && Oldest(g, s) && Legal(g, steps) && !Returned(g, steps, s)
    ensures OwnSteps(steps, s) < Rank(g, s) <= 10
    decreases |steps|
  {
    hide Inv, Apply, Enabled;
    WriterFacts(g, s);
    if steps != [] {
      var g1 := Apply(g, steps[0]);
      StepInv(g, steps[0]);
      if Effective(steps[0], s) { OldestOwnStep(g, steps[0], s); } else { OldestOtherStep(g, steps[0], s); }
      OldestFinishes(g1, steps[1..], s);
    }
  }

  /** The next step of `record` call `s`. */
  function Due(g: Ring, s: nat): Step
    requires s in g.writers
  {
    match g.writers[s].pc
    case Loading => Load(s)
    case Claiming(_) => Claim(s, false)
    case Storing(i) => if i < WORDS then Store(s) else Publish(s)
  }

  predicate OnlyWriter(g: Ring, g': Ring, s: nat) {
    && g'.next == g.next && g'.base == g.base && g'.log == g.log
    && g'.readers == g.readers && g'.clears == g.clears
    && g'.writers.Keys <= {s}
  }

  lemma DueStep(g: Ring, s: nat)
    requires Inv(g) && g.writers.Keys == {s}
    ensures Shaped(g) && Enabled(g, Due(g, s)) && Effective(Due(g, s), s)
    ensures OnlyWriter(g, Apply(g, Due(g, s)), s)
  {
    hide Inv, Encode;
    WriterFacts(g, s);
    ShapedFact(g);
  }

  /** Alone, a `record` call can always be run to its end. */
  lemma {:induction false} RecordReturns(g: Ring, s: nat) returns (steps: seq<Step>)
    requires Inv(g) && g.writers.Keys == {s}
    ensures Legal(g, steps) && Inv(After(g, steps)) && After(g, steps).writers == map[]
    ensures OnlyWriter(g, After(g, steps), s)
    ensures forall i :: 0 <= i < |steps| ==> Effective(steps[i], s)
    decreases if |g.slots| == CAPACITY then Rank(g, s) else 0
  {
    hide Inv, Apply, Enabled, Shaped, Rank, Effective;
    WriterFacts(g, s);
    DueStep(g, s);
    var step := Due(g, s);
    var g' := Apply(g, step);
    StepInv(g, step);
    OldestOwnStep(g, step, s);
    if s in g'.writers {
      assert g'.writers.Keys == {s};
      var rest := RecordReturns(g', s);
      OneStep(g, step);
      LegalJoin(g, [step], rest);
      steps := [step] + rest;
    } else {
      assert g'.writers.Keys == {};
      OneStep(g, step);
      steps := [step];
    }
  }

  /** How many steps a snapshot still takes at most. */
  function Remaining(d: Reader): int {
    if d.phase.LoadBase? then 8 * d.end + 1
    else 8 * (d.end - d.cursor) - (if d.phase.LoadWords? then 1 + |d.words| else 0)
  }

  /** The next step of snapshot `r`. */
  function DueRead(d: Reader, r: nat): Step {
    match d.phase
    case LoadBase => ReadBase(r)
    case LoadVersion => ReadVersion(r)
    case LoadWords => if |d.words| < WORDS then ReadWord(r) else Recheck(r)
  }

  predicate ReadsOf(step: Step, r: nat) {
    step == ReadBase(r) || step == ReadVersion(r) || step == ReadWord(r) || step == Recheck(r)
  }

  predicate OnlyReader(g: Ring, g': Ring, r: nat) {
    && r in g'.readers
    && g' == g.(readers := g.readers[r := g'.readers[r]])
  }

  lemma DueReadStep(g: Ring, r: nat)
    requires Inv(g) && r in g.readers && !Finished(g, r)
    ensures var step := DueRead(g.readers[r], r);
      && Shaped(g) && Enabled(g, step) && ReadsOf(step, r)
      && var g' := Apply(g, step);
         && OnlyReader(g, g', r)
         && !g'.readers[r].phase.LoadBase?
         && Remaining(g.readers[r]) > Remaining(g'.readers[r])
         && Remaining(g.readers[r]) > 0
  {
    hide Inv, Encode, Decode, Faithful;
    ReaderFacts(g, r);
    ShapedFact(g);
  }

  /** A snapshot never waits: it can always be run to its end, which changes nothing else. */
  lemma {:induction false} SnapshotReturns(g: Ring, r: nat) returns (steps: seq<Step>)
    requires Inv(g) && r in g.readers
    ensures Legal(g, steps) && Finished(After(g, steps), r) && OnlyReader(g, After(g, steps), r)
    ensures forall i :: 0 <= i < |steps| ==> ReadsOf(steps[i], r)
    ensures g.readers[r].phase.LoadBase? ==> steps != [] && steps[0] == ReadBase(r)
    decreases if Finished(g, r) then -1 else Remaining(g.readers[r])
  {
    hide Inv, Apply, Enabled, Shaped, Remaining, ReadsOf;
    if Finished(g, r) {
      steps := [];
    } else {
      DueReadStep(g, r);
      var step := DueRead(g.readers[r], r);
      StepInv(g, step);
      var rest := SnapshotReturns(Apply(g, step), r);
      OneStep(g, step);
      LegalJoin(g, [step], rest);
      steps := [step] + rest;
    }
  }

  // ----------------------------------------------------------------- recorded

  lemma {:induction false} NextGrows(g: Ring, steps: seq<Step>)
    requires Legal(g, steps)
    ensures g.next <= After(g, steps).next
    decreases |steps|
  {
    if steps != [] { NextGrows(Apply(g, steps[0]), steps[1..]); }
  }

  /** `recorded` loads the base first and the end later: their difference never wraps
      below zero, in whatever interleaving the two loads fall. */
  lemma RecordedNeverWraps(before: seq<Step>, between: seq<Step>)
    requires Legal(Init(), before + between)
    ensures Legal(Init(), before)
    ensures After(Init(), before).base <= After(Init(), before + between).next
  {
    LegalSplit(Init(), before, between);
    InitInv();
    RunInv(Init(), before);
    NextGrows(After(Init(), before), between);
  }
}
