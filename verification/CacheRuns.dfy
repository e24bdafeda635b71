/** Every run of the object cache: what accepted entries hold, when a promotion returns,
    and what a hit copies. */
module CacheRuns {
  import opened Wrappers
  import opened CompilationCache

  // ----------------------------------------------------------------------- runs

  predicate Legal(s: State, steps: seq<Step>)
    decreases |steps|
  {
    steps == [] || (Enabled(s, steps[0]) && Legal(Apply(s, steps[0]), steps[1..]))
  }

  function After(s: State, steps: seq<Step>): State
    requires Legal(s, steps)
    decreases |steps|
  {
    if steps == [] then s else After(Apply(s, steps[0]), steps[1..])
  }

  /** What the run so far tells of each directory. */
  function Told(h: History, s: State, steps: seq<Step>): History
    requires Legal(s, steps)
    decreases |steps|
  {
    if steps == [] then h else Told(Noted(h, s, steps[0]), Apply(s, steps[0]), steps[1..])
  }

  /** The history of a run from the start. */
  function Story(n: nat, steps: seq<Step>): History
    requires Legal(Init(n), steps)
  {
    Told(NoHistory(), Init(n), steps)
  }

  lemma {:induction false} RunInv(s: State, h: History, steps: seq<Step>)
    requires Inv(s, h) && Legal(s, steps)
    ensures Inv(After(s, steps), Told(h, s, steps))
    decreases |steps|
  {
    hide Inv, Apply, Enabled, Noted;
    if steps != [] {
      StepInv(s, h, steps[0]);
      RunInv(Apply(s, steps[0]), Noted(h, s, steps[0]), steps[1..]);
    }
  }

  lemma Reached(n: nat, steps: seq<Step>)
    requires Legal(Init(n), steps)
    ensures Inv(After(Init(n), steps), Story(n, steps))
  {
    hide Inv, Init;
    InitInv(n);
    RunInv(Init(n), NoHistory(), steps);
  }

  /** Soundness: in every run, whatever is damaged and whoever crashes, an entry that
      verifies for a request holds the payload of some promotion of that same request, and
      so does one whose manifest and payload were read at different moments. */
  lemma AcceptedIsPromoted(n: nat, steps: seq<Step>, r: Request)
    requires Legal(Init(n), steps)
    ensures Verified(After(Init(n), steps), r) ==> HoldsPromoted(After(Init(n), steps), r)
    ensures var s := After(Init(n), steps);
      forall p :: 0 <= p < |s.procs| && Enabled(s, ReadPayload(p))
                  && PayloadMatch(s, s.procs[p].request, s.procs[p].digest)
        ==> HoldsPromoted(s, s.procs[p].request)
  {
    Reached(n, steps);
  }

  /** A promotion is bound to return normally. */
  predicate Succeeded(c: Proc) {
    c.Returned? || (c.Cleaning? && c.ok)
  }

  /** The payload last written to a directory is one a promotion of `r` offered: either
      nothing damaged it since it was copied in, or the last damage happened to leave one. */
  predicate LeftPromoted(s: State, h: History, dir: nat, r: Request) {
    dir in h.harm ==> Offered(s, r, h.harm[dir])
  }

  lemma PublishedStage(s: State, h: History, p: nat)
    requires Inv(s, h) && Enabled(s, Rename(p, true))
    ensures var r, dir := s.procs[p].request, s.procs[p].dir; var s' := Apply(s, Rename(p, true));
      && dir in h.hashed
      && (Verified(s', r) <==> dir !in h.lost && (dir in h.harm ==> h.harm[dir] == Some(h.hashed[dir])))
      && (HoldsPromoted(s', r) <==> LeftPromoted(s, h, dir, r))
  {
    hide Sound, ObjectsOk, EntryOk;
    assert StageOk(s, h, s.procs[p]);
    assert s.procs[p].dir in h.harm ==> s.dirs[s.procs[p].dir].payload == h.harm[s.procs[p].dir];
  }

  /** In every run, whatever happens to other directories: the entry a promotion renames
      into place verifies exactly when its own stage has not lost its manifest and the last
      damage to it since the payload was copied in, if any, left the payload it was hashed
      from; and it holds a promoted payload exactly when that damage left one. */
  lemma RenamedVerifies(n: nat, steps: seq<Step>, p: nat)
    requires Legal(Init(n), steps) && Enabled(After(Init(n), steps), Rename(p, true))
    ensures var s, h := After(Init(n), steps), Story(n, steps);
      var r, dir := s.procs[p].request, s.procs[p].dir; var s' := Apply(s, Rename(p, true));
      && dir in h.hashed
      && (Verified(s', r) <==> dir !in h.lost && (dir in h.harm ==> h.harm[dir] == Some(h.hashed[dir])))
      && (HoldsPromoted(s', r) <==> LeftPromoted(s, h, dir, r))
  {
    hide Init, Inv, Verified, HoldsPromoted, LeftPromoted;
    Reached(n, steps);
    PublishedStage(After(Init(n), steps), Story(n, steps), p);
  }

  lemma SuccessStep(s: State, step: Step, p: nat)
    requires Sound(s) && Enabled(s, step) && p < |s.procs|
    requires !Succeeded(s.procs[p]) && Succeeded(Apply(s, step).procs[p])
    ensures step == Rename(p, true) || (step == ReadPayload(p) && HoldsPromoted(Apply(s, step), s.procs[p].request))
  {
    hide ManifestsOk;
  }

  /** In every run a promotion becomes bound to return normally only by its rename or by
      reading an entry that verified, and there is then an entry with a promoted payload
      in place, unless it renamed a stage that the last damage left with another. */
  lemma ReturnsWithEntry(n: nat, steps: seq<Step>, step: Step, p: nat)
    requires Legal(Init(n), steps) && Enabled(After(Init(n), steps), step)
    requires var s := After(Init(n), steps);
      p < |s.procs| && !Succeeded(s.procs[p]) && Succeeded(Apply(s, step).procs[p])
    ensures step == Rename(p, true) || step == ReadPayload(p)
    ensures var s, h := After(Init(n), steps), Story(n, steps); var c := s.procs[p];
      HoldsPromoted(Apply(s, step), c.request) <==> (step.Rename? ==> LeftPromoted(s, h, c.dir, c.request))
  {
    hide Init, Apply, Inv, Sound, Succeeded, HoldsPromoted, Verified, LeftPromoted;
    Reached(n, steps);
    var s := After(Init(n), steps);
    SoundOf(s, Story(n, steps));
    SuccessStep(s, step, p);
    if step.Rename? { RenamedVerifies(n, steps, p); }
  }

  lemma SoundOf(s: State, h: History)
    requires Inv(s, h)
    ensures Sound(s)
  {
  }

  /** One process alone, up to the rename. */
  function Building(r: Request, x: Data): seq<Step> {
    [Begin(0, r), Copy(0, x), HashSource(0, x), CheckStage(0), WriteManifest(0)]
  }

  function Built(r: Request, x: Data): State {
    State(map[0 := Dir(Some(Manifest(r, Digest(x))), Some(x))], map[], [Ready(r, 0)], 1, {(r, x)})
  }

  lemma BuildingBuilds(r: Request, x: Data)
    ensures Legal(Init(1), Building(r, x)) && After(Init(1), Building(r, x)) == Built(r, x)
  {
    hide Legal, After;
    var s0 := Init(1);
    var s1 := Apply(s0, Begin(0, r));
    var s2 := Apply(s1, Copy(0, x));
    var s3 := Apply(s2, HashSource(0, x));
    assert s3.dirs == map[0 := Dir(None, Some(x))] && s3.procs == [Hashed(r, 0, Digest(x))];
    var s4 := Apply(s3, CheckStage(0));
    assert Apply(s4, WriteManifest(0)) == Built(r, x);
    Last(s4, WriteManifest(0));
    OneMore(s3, CheckStage(0), [WriteManifest(0)]);
    assert [CheckStage(0)] + [WriteManifest(0)] == [CheckStage(0), WriteManifest(0)];
    OneMore(s2, HashSource(0, x), [CheckStage(0), WriteManifest(0)]);
    assert [HashSource(0, x)] + [CheckStage(0), WriteManifest(0)]
        == [HashSource(0, x), CheckStage(0), WriteManifest(0)];
    OneMore(s1, Copy(0, x), [HashSource(0, x), CheckStage(0), WriteManifest(0)]);
    assert [Copy(0, x)] + [HashSource(0, x), CheckStage(0), WriteManifest(0)]
        == [Copy(0, x), HashSource(0, x), CheckStage(0), WriteManifest(0)];
    OneMore(s0, Begin(0, r), [Copy(0, x), HashSource(0, x), CheckStage(0), WriteManifest(0)]);
    assert [Begin(0, r)] + [Copy(0, x), HashSource(0, x), CheckStage(0), WriteManifest(0)] == Building(r, x);
  }

  lemma {:induction false} RunJoin(s: State, a: seq<Step>, b: seq<Step>)
    requires Legal(s, a) && Legal(After(s, a), b)
    ensures Legal(s, a + b) && After(s, a + b) == After(After(s, a), b)
    decreases |a|
  {
    hide Apply, Enabled;
    if a == [] {
      assert a + b == b;
    } else {
      assert (a + b)[1..] == a[1..] + b;
      RunJoin(Apply(s, a[0]), a[1..], b);
    }
  }

  /** A stage damaged between the check and the rename: the promotion returns normally and
      no promoted payload is in place. */
  lemma StageDamageReturns(r: Request, x: Data, y: Data)
    requires x != y
    ensures var steps := Building(r, x) + [Damage(0, Some(y)), Rename(0, true)];
      && Legal(Init(1), steps)
      && After(Init(1), steps).procs == [Returned(r)]
      && !HoldsPromoted(After(Init(1), steps), r)
  {
    hide Legal, After;
    var s := Built(r, x);
    var harm, publish := Damage(0, Some(y)), Rename(0, true);
    var s1 := Apply(s, harm);
    BuildingBuilds(r, x);
    Last(s1, publish);
    OneMore(s, harm, [publish]);
    assert [harm] + [publish] == [harm, publish];
    RunJoin(Init(1), Building(r, x), [harm, publish]);
  }

  lemma Last(s: State, step: Step)
    requires Enabled(s, step)
    ensures Legal(s, [step]) && After(s, [step]) == Apply(s, step)
  {
  }

  lemma OneMore(s: State, step: Step, rest: seq<Step>)
    requires Enabled(s, step) && Legal(Apply(s, step), rest)
    ensures Legal(s, [step] + rest) && After(s, [step] + rest) == After(Apply(s, step), rest)
  {
  }

  // ------------------------------------------------------------------ the lookup

  /** The payload that stands under a request's name, if any. */
  function PayloadAt(s: State, r: Request): Option<Data> {
    if r in s.objects && s.objects[r] in s.dirs then s.dirs[s.objects[r]].payload else None
  }

  /** The manifest that stands under it. */
  function ManifestAt(s: State, r: Request): Option<Manifest> {
    if r in s.objects && s.objects[r] in s.dirs then s.dirs[s.objects[r]].manifest else None
  }

  lemma PayloadDecides(s: State, h: History, p: nat)
    requires Inv(s, h) && Enabled(s, ReadPayload(p)) && s.procs[p].LookFound?
    ensures var r, g := s.procs[p].request, s.procs[p].digest;
      var c, x := Apply(s, ReadPayload(p)).procs[p], PayloadAt(s, r);
      && (c == Hit(r) <==> x == Some(g.of))
      && (c == Miss(r) <==> x != Some(g.of))
      && (c == Hit(r) ==> (r, g.of) in s.offered && r in s.objects)
      && (c == Hit(r) && s.objects[r] in h.harm ==> h.harm[s.objects[r]] == Some(g.of))
  {
    hide ObjectsOk, ContentsOk, ManifestsOk;
    var r := s.procs[p].request;
    if r in s.objects && s.objects[r] in s.dirs && s.objects[r] in h.harm {
      assert s.dirs[s.objects[r]].payload == h.harm[s.objects[r]];
    }
  }

  /** The second read of a lookup, in every run whatever is damaged: it hits exactly when the
      payload then in place is the one the remembered digest names, which some promotion of
      this request offered, and misses otherwise.  In particular damage left in place until
      then, however long ago it was done, never leads to a hit unless it left that payload. */
  lemma LookupChecksPayload(n: nat, steps: seq<Step>, p: nat)
    requires Legal(Init(n), steps) && Enabled(After(Init(n), steps), ReadPayload(p))
    requires After(Init(n), steps).procs[p].LookFound?
    ensures var s, h := After(Init(n), steps), Story(n, steps);
      var r, g := s.procs[p].request, s.procs[p].digest;
      var c, x := Apply(s, ReadPayload(p)).procs[p], PayloadAt(s, r);
      && (c == Hit(r) <==> x == Some(g.of))
      && (c == Miss(r) <==> x != Some(g.of))
      && (c == Hit(r) ==> (r, g.of) in s.offered && r in s.objects)
      && (c == Hit(r) && s.objects[r] in h.harm ==> h.harm[s.objects[r]] == Some(g.of))
  {
    hide Init, Apply, Enabled, Inv;
    Reached(n, steps);
    PayloadDecides(After(Init(n), steps), Story(n, steps), p);
  }

  /** The first read of a lookup goes on exactly when the manifest in place names this very
      request, and remembers the digest it names. */
  lemma LookupChecksManifest(s: State, p: nat)
    requires Enabled(s, ReadManifest(p)) && s.procs[p].Looking?
    ensures var r := s.procs[p].request;
      var c, m := Apply(s, ReadManifest(p)).procs[p], ManifestAt(s, r);
      && (c.LookFound? <==> m.Some? && m.value.request == r)
      && (c.LookFound? ==> c == LookFound(r, m.value.digest))
      && (!c.LookFound? ==> c == Miss(r))
  {
  }

  lemma BecomesHit(s: State, step: Step, p: nat)
    requires Sound(s) && Enabled(s, step) && p < |s.procs| && p < |Apply(s, step).procs|
    requires !s.procs[p].Hit? && Apply(s, step).procs[p].Hit?
    ensures step == ReadPayload(p) && s.procs[p].LookFound?
  {
    hide ManifestsOk;
  }

  /** In every run a process becomes a hit only by that second read, at a moment when the
      name leads to a payload that some promotion of this very request offered. */
  lemma HitWhilePromoted(n: nat, steps: seq<Step>, step: Step, p: nat)
    requires Legal(Init(n), steps) && Enabled(After(Init(n), steps), step)
    requires p < |After(Init(n), steps).procs| && p < |Apply(After(Init(n), steps), step).procs|
    requires !After(Init(n), steps).procs[p].Hit? && Apply(After(Init(n), steps), step).procs[p].Hit?
    ensures step == ReadPayload(p)
    ensures var s := After(Init(n), steps); var r := s.procs[p].request;
      && Apply(s, step).procs[p] == Hit(r)
      && PayloadAt(s, r).Some? && (r, PayloadAt(s, r).value) in s.offered
      && HoldsPromoted(s, r)
  {
    hide Init, Apply, Enabled, Inv, Sound;
    Reached(n, steps);
    var s := After(Init(n), steps);
    SoundOf(s, Story(n, steps));
    BecomesHit(s, step, p);
    LookupChecksPayload(n, steps, p);
    OneOutcome(s, p);
  }

  lemma OneOutcome(s: State, p: nat)
    requires Enabled(s, ReadPayload(p)) && s.procs[p].LookFound?
    ensures var r := s.procs[p].request;
      Apply(s, ReadPayload(p)).procs[p] == Hit(r) || Apply(s, ReadPayload(p)).procs[p] == Miss(r)
    ensures EntryOf(s, s.procs[p].request).payload == PayloadAt(s, s.procs[p].request)
  {
  }

  /** An undisturbed lookup hits exactly when both files under the name agree with each other
      and with the request. */
  lemma LookupExactly(s: State, p: nat, r: Request)
    requires p < |s.procs| && AtRest(s.procs[p])
    ensures var m, x := ManifestAt(s, r), PayloadAt(s, r);
      if m.Some? && m.value.request == r then
        && Legal(s, [Look(p, r), ReadManifest(p), ReadPayload(p)])
        && After(s, [Look(p, r), ReadManifest(p), ReadPayload(p)])
           == Move(s, p, if x == Some(m.value.digest.of) then Hit(r) else Miss(r))
      else
        && Legal(s, [Look(p, r), ReadManifest(p)])
        && After(s, [Look(p, r), ReadManifest(p)]) == Move(s, p, Miss(r))
  {
    hide Legal, After;
    var s1 := Apply(s, Look(p, r));
    var s2 := Apply(s1, ReadManifest(p));
    var m := ManifestAt(s, r);
    if m.Some? && m.value.request == r {
      Last(s2, ReadPayload(p));
      OneMore(s1, ReadManifest(p), [ReadPayload(p)]);
      assert [ReadManifest(p)] + [ReadPayload(p)] == [ReadManifest(p), ReadPayload(p)];
      OneMore(s, Look(p, r), [ReadManifest(p), ReadPayload(p)]);
      assert [Look(p, r)] + [ReadManifest(p), ReadPayload(p)] == [Look(p, r), ReadManifest(p), ReadPayload(p)];
    } else {
      Last(s1, ReadManifest(p));
      OneMore(s, Look(p, r), [ReadManifest(p)]);
      assert [Look(p, r)] + [ReadManifest(p)] == [Look(p, r), ReadManifest(p)];
    }
  }

  // ------------------------------------------------------------------ the hit path

  lemma CopiesEntry(s: State, h: History, p: nat)
    requires Inv(s, h) && Enabled(s, CopyOut(p)) && Apply(s, CopyOut(p)).procs[p].Output?
    ensures var c := Apply(s, CopyOut(p)).procs[p];
      && c.request == s.procs[p].request && c.request in s.objects
      && ((c.request, c.data) in s.offered <==> LeftPromoted(s, h, s.objects[c.request], c.request))
  {
    hide Sound, StageOk, StagesOk;
    var r := s.procs[p].request;
    if r in s.objects {
      assert EntryOk(s, h, r);
      assert s.objects[r] in h.harm ==> s.dirs[s.objects[r]].payload == h.harm[s.objects[r]];
    }
  }

  /** The copy is not checked again. In every run the output of a hit is the payload of some
      promotion of its own request exactly when the last damage to the directory under the
      name at the copy, since its payload was copied in, left such a payload. */
  lemma CopyIsUnchecked(n: nat, steps: seq<Step>, p: nat)
    requires Legal(Init(n), steps) && Enabled(After(Init(n), steps), CopyOut(p))
    requires Apply(After(Init(n), steps), CopyOut(p)).procs[p].Output?
    ensures var s, h := After(Init(n), steps), Story(n, steps); var c := Apply(s, CopyOut(p)).procs[p];
      && c.request == s.procs[p].request && c.request in s.objects
      && ((c.request, c.data) in s.offered <==> LeftPromoted(s, h, s.objects[c.request], c.request))
  {
    hide Init, Apply, Enabled, Inv, LeftPromoted;
    Reached(n, steps);
    CopiesEntry(After(Init(n), steps), Story(n, steps), p);
  }

  predicate Unharmed(steps: seq<Step>) {
    forall i :: 0 <= i < |steps| ==> !steps[i].Damage?
  }

  predicate OutputsOk(s: State) {
    forall p :: 0 <= p < |s.procs| && s.procs[p].Output? ==> (s.procs[p].request, s.procs[p].data) in s.offered
  }

  lemma OutputsStep(s: State, h: History, step: Step)
    requires Inv(s, h) && OutputsOk(s) && Enabled(s, step) && h.harm == map[]
    ensures OutputsOk(Apply(s, step))
  {
    hide Inv, ManifestMatch, PayloadMatch;
    if step.CopyOut? && Apply(s, step).procs[step.p].Output? { CopiesEntry(s, h, step.p); }
  }

  lemma {:induction false} UnharmedRun(s: State, h: History, steps: seq<Step>)
    requires Inv(s, h) && OutputsOk(s) && h.harm == map[] && Legal(s, steps) && Unharmed(steps)
    ensures OutputsOk(After(s, steps))
    decreases |steps|
  {
    hide Inv, Apply, Enabled, OutputsOk;
    if steps != [] {
      StepInv(s, h, steps[0]);
      OutputsStep(s, h, steps[0]);
      assert Noted(h, s, steps[0]).harm == map[];
      UnharmedRun(Apply(s, steps[0]), Noted(h, s, steps[0]), steps[1..]);
    }
  }

  /** So while no payload is damaged every output of a hit is a promoted payload, even if
      manifests are lost, processes crash, or the entry was set aside and replaced between
      the check and the copy. */
  lemma HitIsPromoted(n: nat, steps: seq<Step>, p: nat)
    requires Legal(Init(n), steps) && Unharmed(steps)
    requires var s := After(Init(n), steps); p < |s.procs| && s.procs[p].Output?
    ensures var s := After(Init(n), steps); (s.procs[p].request, s.procs[p].data) in s.offered
  {
    hide Apply, Enabled, Inv;
    InitInv(n);
    UnharmedRun(Init(n), NoHistory(), steps);
  }

  function Publishing(r: Request): seq<Step> {
    [Rename(0, true), Look(0, r), ReadManifest(0), ReadPayload(0)]
  }

  /** The published entry with its process at `c`. */
  function AtEntry(r: Request, x: Data, c: Proc): State {
    Built(r, x).(objects := map[r := 0], procs := [c])
  }

  lemma HitSteps(r: Request, x: Data)
    ensures Enabled(Built(r, x), Rename(0, true))
    ensures Apply(Built(r, x), Rename(0, true)) == AtEntry(r, x, Returned(r))
    ensures Enabled(AtEntry(r, x, Returned(r)), Look(0, r))
    ensures Apply(AtEntry(r, x, Returned(r)), Look(0, r)) == AtEntry(r, x, Looking(r))
    ensures Enabled(AtEntry(r, x, Looking(r)), ReadManifest(0))
    ensures Apply(AtEntry(r, x, Looking(r)), ReadManifest(0)) == AtEntry(r, x, LookFound(r, Digest(x)))
    ensures Enabled(AtEntry(r, x, LookFound(r, Digest(x))), ReadPayload(0))
    ensures Apply(AtEntry(r, x, LookFound(r, Digest(x))), ReadPayload(0)) == AtEntry(r, x, Hit(r))
  {
  }

  lemma HitReached(r: Request, x: Data)
    ensures Legal(Built(r, x), Publishing(r)) && After(Built(r, x), Publishing(r)) == AtEntry(r, x, Hit(r))
  {
    hide Legal, After, Apply, Enabled, Built, AtEntry;
    HitSteps(r, x);
    Last(AtEntry(r, x, LookFound(r, Digest(x))), ReadPayload(0));
    OneMore(AtEntry(r, x, Looking(r)), ReadManifest(0), [ReadPayload(0)]);
    assert [ReadManifest(0)] + [ReadPayload(0)] == [ReadManifest(0), ReadPayload(0)];
    OneMore(AtEntry(r, x, Returned(r)), Look(0, r), [ReadManifest(0), ReadPayload(0)]);
    assert [Look(0, r)] + [ReadManifest(0), ReadPayload(0)] == [Look(0, r), ReadManifest(0), ReadPayload(0)];
    OneMore(Built(r, x), Rename(0, true), [Look(0, r), ReadManifest(0), ReadPayload(0)]);
    assert [Rename(0, true)] + [Look(0, r), ReadManifest(0), ReadPayload(0)] == Publishing(r);
  }

  lemma HarmedCopy(r: Request, x: Data, y: Data)
    requires x != y
    ensures Legal(AtEntry(r, x, Hit(r)), [Damage(0, Some(y)), CopyOut(0)])
    ensures var s := After(AtEntry(r, x, Hit(r)), [Damage(0, Some(y)), CopyOut(0)]);
      s.procs == [Output(r, y)] && (r, y) !in s.offered
  {
    hide Legal, After;
    var s := AtEntry(r, x, Hit(r));
    assert s.objects[r] == 0;
    var s1 := Apply(s, Damage(0, Some(y)));
    Last(s1, CopyOut(0));
    OneMore(s, Damage(0, Some(y)), [CopyOut(0)]);
    assert [Damage(0, Some(y))] + [CopyOut(0)] == [Damage(0, Some(y)), CopyOut(0)];
  }

  /** A promotion, then a hit whose payload is damaged between its check and the copy: the
      hit hands out a payload nobody ever promoted. */
  lemma HitCopiesDamage(r: Request, x: Data, y: Data)
    requires x != y
    ensures var steps := Building(r, x) + Publishing(r) + [Damage(0, Some(y)), CopyOut(0)];
      && Legal(Init(1), steps)
      && After(Init(1), steps).procs == [Output(r, y)]
      && (r, y) !in After(Init(1), steps).offered
  {
    hide Legal, After, Apply, Enabled;
    BuildingBuilds(r, x);
    HitReached(r, x);
    RunJoin(Init(1), Building(r, x), Publishing(r));
    HarmedCopy(r, x, y);
    RunJoin(Init(1), Building(r, x) + Publishing(r), [Damage(0, Some(y)), CopyOut(0)]);
  }
}
