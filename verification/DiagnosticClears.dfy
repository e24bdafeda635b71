/** Every run of `clear`: when the base goes back down and cleared events return. */
module DiagnosticClears {
  import opened DiagnosticEvents
  import opened DiagnosticRing
  import opened DiagnosticRuns

  // ------------------------------------------------- what the steps alone say

  /** Some event is drawn among the steps. */
  predicate Drawn(steps: seq<Step>) {
    steps != [] && (steps[|steps| - 1].Draw? || Drawn(steps[..|steps| - 1]))
  }

  /** Clear `d` loads its value among the steps after an event is drawn among them. */
  predicate Late(steps: seq<Step>, d: nat) {
    steps != [] &&
    var rest := steps[..|steps| - 1];
    (steps[|steps| - 1] == ClearLoad(d) && Drawn(rest)) || Late(rest, d)
  }

  /** There is a store among the steps, and the last one is that of such a late clear. */
  predicate Overtaken(steps: seq<Step>) {
    steps != [] &&
    var rest := steps[..|steps| - 1];
    if steps[|steps| - 1].ClearStore? then Late(rest, steps[|steps| - 1].c) else Overtaken(rest)
  }

  /** The steps since a moment at which `limit` was the end tell what has passed it. */
  predicate Told(g: Ring, limit: nat, steps: seq<Step>) {
    && limit <= g.next
    && (Drawn(steps) <==> limit < g.next)
    && (forall d :: d in g.clears ==> (Late(steps, d) <==> limit < g.clears[d]))
    && (Overtaken(steps) <==> limit < g.base)
  }

  lemma {:induction false} LateIsDrawn(steps: seq<Step>, d: nat)
    requires Late(steps, d)
    ensures Drawn(steps)
    decreases |steps|
  {
    var rest := steps[..|steps| - 1];
    if Late(rest, d) { LateIsDrawn(rest, d); }
  }

  lemma OneMore(steps: seq<Step>, step: Step, d: nat)
    ensures Drawn(steps + [step]) <==> step.Draw? || Drawn(steps)
    ensures Late(steps + [step], d) <==> (step == ClearLoad(d) && Drawn(steps)) || Late(steps, d)
    ensures Overtaken(steps + [step]) <==> if step.ClearStore? then Late(steps, step.c) else Overtaken(steps)
    ensures Late(steps, d) ==> Drawn(steps)
  {
    var longer := steps + [step];
    assert longer[..|longer| - 1] == steps && longer[|longer| - 1] == step;
    if Late(steps, d) { LateIsDrawn(steps, d); }
  }

  lemma ToldStep(g: Ring, limit: nat, steps: seq<Step>, step: Step)
    requires Told(g, limit, steps) && Shaped(g) && Enabled(g, step)
    ensures Told(Apply(g, step), limit, steps + [step])
  {
    hide Drawn, Late, Overtaken, Apply, Enabled, Shaped;
    ClearsChange(g, step);
    var g' := Apply(g, step);
    OneMore(steps, step, 0);
    forall d | d in g'.clears ensures Late(steps + [step], d) <==> limit < g'.clears[d] {
      OneMore(steps, step, d);
    }
  }

  /** What a step does to the end, the base and the clears in progress. */
  lemma ClearsChange(g: Ring, step: Step)
    requires Shaped(g) && Enabled(g, step)
    ensures var g' := Apply(g, step);
      && g'.next == (if step.Draw? then g.next + 1 else g.next)
      && (step.ClearStore? ==> step.c in g.clears)
      && g'.base == (if step.ClearStore? then g.clears[step.c] else g.base)
      && g'.clears == (match step
                       case ClearLoad(c) => g.clears[c := g.next]
                       case ClearStore(c) => g.clears - {c}
                       case _ => g.clears)
  {
  }

  lemma {:induction false} ToldRun(g: Ring, limit: nat, steps: seq<Step>)
    requires Told(g, limit, []) && Legal(g, steps)
    ensures Told(After(g, steps), limit, steps)
    decreases |steps|
  {
    hide Told, Apply, Enabled, Shaped;
    if steps != [] {
      var rest, step := steps[..|steps| - 1], steps[|steps| - 1];
      assert steps == rest + [step];
      LegalSplit(g, rest, [step]);
      ToldRun(g, limit, rest);
      StepOf(After(g, rest), step);
      ToldStep(After(g, rest), limit, rest, step);
    }
  }

  lemma ToldStart(g: Ring, c: nat)
    requires Inv(g) && Enabled(g, ClearLoad(c))
    ensures Told(Apply(g, ClearLoad(c)), g.next, []) && c in Apply(g, ClearLoad(c)).clears
  {
  }

  lemma {:induction false} ClearKept(g: Ring, c: nat, steps: seq<Step>)
    requires Legal(g, steps) && c in g.clears && ClearStore(c) !in steps
    ensures c in After(g, steps).clears && After(g, steps).clears[c] == g.clears[c]
    decreases |steps|
  {
    if steps != [] { ClearKept(Apply(g, steps[0]), c, steps[1..]); }
  }

  // ------------------------------------------------------------ when it falls

  /** The store of a clear moves the base down exactly when, among the steps since its
      load, the last store was that of a clear that loaded after an event was drawn. */
  lemma FallsExactly(before: seq<Step>, c: nat, between: seq<Step>)
    requires Legal(Init(), before + [ClearLoad(c)] + between + [ClearStore(c)])
    requires ClearStore(c) !in between
    ensures var run := before + [ClearLoad(c)] + between;
      && Legal(Init(), run)
      && (After(Init(), run + [ClearStore(c)]).base < After(Init(), run).base <==> Overtaken(between))
  {
    hide Init, Inv, Apply, Enabled, Shaped, Told;
    var loaded := before + [ClearLoad(c)];
    var run := loaded + between;
    LegalSplit(Init(), run, [ClearStore(c)]);
    LegalSplit(Init(), loaded, between);
    LegalSplit(Init(), before, [ClearLoad(c)]);
    InitInv();
    RunInv(Init(), before);
    var g := After(Init(), before);
    StepOf(g, ClearLoad(c));
    ToldStart(g, c);
    ToldRun(Apply(g, ClearLoad(c)), g.next, between);
    ClearKept(Apply(g, ClearLoad(c)), c, between);
    StepOf(After(Init(), run), ClearStore(c));
    FallsHere(g, After(Init(), run), c, between);
  }

  lemma FallsHere(g: Ring, g': Ring, c: nat, between: seq<Step>)
    requires Shaped(g) && Enabled(g, ClearLoad(c)) && Shaped(g') && Enabled(g', ClearStore(c))
    requires Told(g', g.next, between) && c in Apply(g, ClearLoad(c)).clears
    requires g'.clears[c] == Apply(g, ClearLoad(c)).clears[c]
    ensures Apply(g', ClearStore(c)).base < g'.base <==> Overtaken(between)
  {
    hide Overtaken, Late, Drawn;
  }

  lemma PrefixLegal(steps: seq<Step>, k: nat)
    requires Legal(Init(), steps) && k <= |steps|
    ensures Legal(Init(), steps[..k])
  {
    hide Init, Apply, Enabled, Shaped;
    assert steps == steps[..k] + steps[k..];
    LegalSplit(Init(), steps[..k], steps[k..]);
  }

  /** The state after the first `k` steps of a run. */
  function At(steps: seq<Step>, k: nat): Ring
    requires Legal(Init(), steps) && k <= |steps|
  {
    PrefixLegal(steps, k);
    After(Init(), steps[..k])
  }

  /** No event a clear has hidden ever becomes visible again. */
  predicate ClearedStays(steps: seq<Step>)
    requires Legal(Init(), steps)
  {
    forall k :: 0 <= k < |steps| ==> At(steps, k).base <= At(steps, k + 1).base
  }

  /** Steps `i` and `k` are the load and the store of one `clear` call. */
  predicate OneClear(steps: seq<Step>, i: nat, k: nat) {
    && i < k < |steps| && steps[i].ClearLoad? && steps[k] == ClearStore(steps[i].c)
    && steps[k] !in steps[i + 1..k]
  }

  lemma AtNext(steps: seq<Step>, k: nat)
    requires Legal(Init(), steps) && k < |steps|
    ensures var g := At(steps, k);
      Shaped(g) && Enabled(g, steps[k]) && At(steps, k + 1) == Apply(g, steps[k])
  {
    hide Init, Apply, Enabled, Shaped;
    PrefixLegal(steps, k);
    PrefixLegal(steps, k + 1);
    assert steps[..k + 1] == steps[..k] + [steps[k]];
    LegalSplit(Init(), steps[..k], [steps[k]]);
    StepOf(After(Init(), steps[..k]), steps[k]);
  }

  lemma ClearBefore(g: Ring, step: Step, c: nat)
    requires Shaped(g) && Enabled(g, step) && c in Apply(g, step).clears && step != ClearLoad(c)
    ensures c in g.clears && step != ClearStore(c)
  {
  }

  lemma NoClearYet(steps: seq<Step>, c: nat)
    requires Legal(Init(), steps)
    ensures c !in At(steps, 0).clears
  {
    assert steps[..0] == [];
  }

  /** A clear in progress has loaded its value and not stored it since. */
  lemma {:induction false} LoadOf(steps: seq<Step>, c: nat, k: nat) returns (i: nat)
    requires Legal(Init(), steps) && k <= |steps| && c in At(steps, k).clears
    ensures i < k && steps[i] == ClearLoad(c) && ClearStore(c) !in steps[i + 1..k]
    decreases k
  {
    hide Apply, Enabled, Shaped;
    NoClearYet(steps, c);
    AtNext(steps, k - 1);
    if steps[k - 1] == ClearLoad(c) {
      i := k - 1;
    } else {
      ClearBefore(At(steps, k - 1), steps[k - 1], c);
      i := LoadOf(steps, c, k - 1);
      assert steps[i + 1..k] == steps[i + 1..k - 1] + [steps[k - 1]];
    }
  }

  lemma FallsAt(steps: seq<Step>, i: nat, k: nat)
    requires Legal(Init(), steps) && OneClear(steps, i, k)
    ensures At(steps, k + 1).base < At(steps, k).base <==> Overtaken(steps[i + 1..k])
  {
    hide Init, Apply, Enabled, Shaped, Overtaken;
    var between, c := steps[i + 1..k], steps[i].c;
    PrefixLegal(steps, k);
    PrefixLegal(steps, k + 1);
    assert steps[..k] == steps[..i] + [ClearLoad(c)] + between;
    assert steps[..k + 1] == steps[..i] + [ClearLoad(c)] + between + [ClearStore(c)];
    FallsExactly(steps[..i], c, between);
  }

  lemma OnlyStoresMove(g: Ring, step: Step)
    requires Shaped(g) && Enabled(g, step) && Apply(g, step).base != g.base
    ensures step.ClearStore? && step.c in g.clears
  {
  }

  lemma FallOvertaken(steps: seq<Step>, k: nat) returns (i: nat)
    requires Legal(Init(), steps) && k < |steps| && At(steps, k + 1).base < At(steps, k).base
    ensures OneClear(steps, i, k) && Overtaken(steps[i + 1..k])
  {
    hide Apply, Enabled, Shaped, Overtaken, At;
    AtNext(steps, k);
    OnlyStoresMove(At(steps, k), steps[k]);
    i := LoadOf(steps, steps[k].c, k);
    FallsAt(steps, i, k);
  }

  /** Over a whole run: cleared events stay cleared exactly when no clear is overtaken. */
  lemma ClearedStaysExactly(steps: seq<Step>)
    requires Legal(Init(), steps)
    ensures ClearedStays(steps) <==>
      forall i: nat, k: nat :: OneClear(steps, i, k) ==> !Overtaken(steps[i + 1..k])
  {
    hide Overtaken, At;
    if ClearedStays(steps) {
      forall i: nat, k: nat | OneClear(steps, i, k) ensures !Overtaken(steps[i + 1..k]) {
        assert At(steps, k).base <= At(steps, k + 1).base;
        FallsAt(steps, i, k);
      }
    } else {
      var k :| 0 <= k < |steps| && At(steps, k + 1).base < At(steps, k).base;
      var i := FallOvertaken(steps, k);
      assert OneClear(steps, i, k);
    }
  }

  // ------------------------------------------------------------ serial clears

  predicate NoOverlap(g: Ring, steps: seq<Step>)
    requires Legal(g, steps)
    decreases |steps|
  {
    |g.clears| <= 1 && (steps != [] ==> NoOverlap(Apply(g, steps[0]), steps[1..]))
  }

  lemma SerialClearStep(g: Ring, step: Step)
    requires Inv(g) && Enabled(g, step) && |g.clears| <= 1
    requires forall c :: c in g.clears ==> g.base <= g.clears[c]
    ensures var g' := Apply(g, step); g.base <= g'.base && forall c :: c in g'.clears ==> g'.base <= g'.clears[c]
  {
    if step.ClearStore? {
      var g' := Apply(g, step);
      forall c | c in g'.clears ensures false {
        assert {c, step.c} <= g.clears.Keys && |{c, step.c}| == 2;
        SubsetSize({c, step.c}, g.clears.Keys);
      }
    }
  }

  lemma {:induction false} SerialClears(g: Ring, steps: seq<Step>)
    requires Inv(g) && Legal(g, steps) && NoOverlap(g, steps)
    requires forall c :: c in g.clears ==> g.base <= g.clears[c]
    ensures g.base <= After(g, steps).base
    decreases |steps|
  {
    hide Inv, Apply, Enabled;
    if steps != [] {
      StepInv(g, steps[0]);
      SerialClearStep(g, steps[0]);
      SerialClears(Apply(g, steps[0]), steps[1..]);
    }
  }

  lemma SubsetSize(a: set<nat>, b: set<nat>)
    requires a <= b
    ensures |a| <= |b|
  {
    assert b == a + (b - a);
  }

  /** As long as `clear` calls do not overlap, a cleared event never comes back. */
  lemma SerialClearsStay(before: seq<Step>, later: seq<Step>)
    requires Legal(Init(), before + later) && Legal(Init(), before)
    requires Legal(After(Init(), before), later) && NoOverlap(After(Init(), before), later)
    requires After(Init(), before).clears == map[]
    ensures After(Init(), before).base <= After(Init(), before + later).base
  {
    LegalSplit(Init(), before, later);
    InitInv();
    RunInv(Init(), before);
    SerialClears(After(Init(), before), later);
  }

  // --------------------------------------------------------- an event returns

  /** With no `record` in progress a whole snapshot can be run, and it returns what the
      ring retains above the base. */
  lemma Snapshot(g: Ring, r: nat) returns (steps: seq<Step>)
    requires Inv(g) && g.writers == map[] && r !in g.readers
    ensures forall i :: 0 <= i < |steps| ==> ReadsOf(steps[i], r)
    ensures Legal(g, [ReadEnd(r)] + steps)
    ensures var g' := After(g, [ReadEnd(r)] + steps);
      && Inv(g') && Finished(g', r) && g' == g.(readers := g.readers[r := g'.readers[r]])
      && Retained(g'.readers[r].events, g)
  {
    hide Inv, Apply, Enabled, Shaped, Finished;
    ReadEndStep(g, r);
    StepInv(g, ReadEnd(r));
    OneStep(g, ReadEnd(r));
    var g1 := Apply(g, ReadEnd(r));
    steps := SnapshotReturns(g1, r);
    LegalJoin(g, [ReadEnd(r)], steps);
    RunInv(g, [ReadEnd(r)] + steps);
    var none: seq<Step> := [];
    assert [ReadEnd(r)] + none == [ReadEnd(r)];
    assert [ReadBase(r)] + steps[1..] == steps;
    assert Undisturbed(steps[1..]);
    FinishedAtRest(g, r, none, steps[1..]);
  }

  lemma ReadEndStep(g: Ring, r: nat)
    requires Inv(g) && r !in g.readers
    ensures Shaped(g) && Enabled(g, ReadEnd(r))
    ensures var g' := Apply(g, ReadEnd(r));
      r in g'.readers && g' == g.(readers := g.readers[r := g'.readers[r]]) && g'.readers[r].phase.LoadBase?
  {
  }

  /** An event is drawn after clear 0 has loaded. */
  lemma Recorded(e: Event) returns (recording: seq<Step>)
    ensures forall i :: 0 <= i < |recording| ==> Effective(recording[i], 0)
    ensures Legal(Init(), [ClearLoad(0), Draw(e)] + recording)
    ensures var g := After(Init(), [ClearLoad(0), Draw(e)] + recording);
      && Inv(g) && g.writers == map[] && g.readers == map[] && g.next == 1 && g.base == 0
      && g.clears == map[0 := 0] && g.log == [e.(sequence := 0)]
  {
    InitInv();
    var g1 := Apply(Init(), ClearLoad(0));
    var g2 := Apply(g1, Draw(e));
    OneStep(Init(), ClearLoad(0));
    OneStep(g1, Draw(e));
    assert g2.writers.Keys == {0} && g2.log == [e.(sequence := 0)] && g2.next == 1 && g2.clears == map[0 := 0];
    hide Init, Inv, Apply, Enabled, Shaped;
    LegalJoin(Init(), [ClearLoad(0)], [Draw(e)]);
    assert [ClearLoad(0)] + [Draw(e)] == [ClearLoad(0), Draw(e)];
    RunInv(Init(), [ClearLoad(0), Draw(e)]);
    recording := RecordReturns(g2, 0);
    LegalJoin(Init(), [ClearLoad(0), Draw(e)], recording);
  }

  /** Clear 1 loads and stores, so that everything drawn so far is cleared. */
  lemma Cleared(g: Ring)
    requires Inv(g) && 1 !in g.clears
    ensures Legal(g, [ClearLoad(1), ClearStore(1)])
    ensures After(g, [ClearLoad(1), ClearStore(1)]) == g.(base := g.next)
  {
    var g1 := Apply(g, ClearLoad(1));
    assert g1.clears - {1} == g.clears;
    assert Apply(g1, ClearStore(1)) == g.(base := g.next);
    ShapedFact(g);
    OneStep(g, ClearLoad(1));
    OneStep(g1, ClearStore(1));
    hide Inv, Apply, Enabled, Shaped;
    LegalJoin(g, [ClearLoad(1)], [ClearStore(1)]);
    assert [ClearLoad(1)] + [ClearStore(1)] == [ClearLoad(1), ClearStore(1)];
  }

  lemma StoreStep(g: Ring, c: nat)
    requires Inv(g) && c in g.clears
    ensures Legal(g, [ClearStore(c)]) && Inv(After(g, [ClearStore(c)]))
    ensures After(g, [ClearStore(c)]) == g.(base := g.clears[c], clears := g.clears - {c})
  {
    OneStep(g, ClearStore(c));
    StepInv(g, ClearStore(c));
  }

  /** Two overlapping clears bring a cleared event back: clear 0 loads its value, an
      event is recorded and cleared by clear 1, so that a snapshot no longer returns it;
      then clear 0 stores its value and the next snapshot returns the event again. */
  lemma OverlappingClearsResurrect(e: Event)
    returns (recording: seq<Step>, first: seq<Step>, second: seq<Step>)
    ensures forall i :: 0 <= i < |recording| ==> Effective(recording[i], 0)
    ensures forall i :: 0 <= i < |first| ==> ReadsOf(first[i], 0)
    ensures forall i :: 0 <= i < |second| ==> ReadsOf(second[i], 1)
    ensures var hidden := [ClearLoad(0), Draw(e)] + recording + [ClearLoad(1), ClearStore(1)]
                          + ([ReadEnd(0)] + first);
      var back := hidden + [ClearStore(0)] + ([ReadEnd(1)] + second);
      && Legal(Init(), hidden) && Finished(After(Init(), hidden), 0)
      && After(Init(), hidden).readers[0].events == []
      && Legal(Init(), back) && Finished(After(Init(), back), 1)
      && After(Init(), back).readers[1].events == [e.(sequence := 0)]
  {
    hide Init, Inv, Apply, Enabled, Shaped, Finished;
    recording := Recorded(e);
    var start := [ClearLoad(0), Draw(e)] + recording;
    var g := After(Init(), start);
    Cleared(g);
    LegalJoin(Init(), start, [ClearLoad(1), ClearStore(1)]);
    var cleared := start + [ClearLoad(1), ClearStore(1)];
    var g1 := After(Init(), cleared);
    RunInv(g, [ClearLoad(1), ClearStore(1)]);
    first := Snapshot(g1, 0);
    LegalJoin(Init(), cleared, [ReadEnd(0)] + first);
    var hidden := cleared + ([ReadEnd(0)] + first);
    var g2 := After(Init(), hidden);
    StoreStep(g2, 0);
    LegalJoin(Init(), hidden, [ClearStore(0)]);
    var g3 := After(Init(), hidden + [ClearStore(0)]);
    second := Snapshot(g3, 1);
    LegalJoin(Init(), hidden + [ClearStore(0)], [ReadEnd(1)] + second);
  }
}
