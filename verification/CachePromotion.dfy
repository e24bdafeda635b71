/** A promotion that no other process disturbs. */
module CachePromotion {
  import opened Wrappers
  import opened CompilationCache
  import opened CacheRuns

  // ------------------------------------------------------- an undisturbed promotion

  /** The rest of a promotion that nobody disturbs, from a finished stage. */
  function Finishing(s: State, p: nat): seq<Step>
    requires p < |s.procs| && s.procs[p].Ready?
  {
    var r := s.procs[p].request;
    var g := ManifestMatch(s, r);
    if r !in s.objects then [Rename(p, true)]
    else if g.None? then [Rename(p, false), ReadManifest(p)] + Replacing(p)
    else if !PayloadMatch(s, r, g.value) then [Rename(p, false), ReadManifest(p), ReadPayload(p)] + Replacing(p)
    else [Rename(p, false), ReadManifest(p), ReadPayload(p), Clean(p)]
  }

  /** Setting a bad entry aside and taking its place. */
  function Replacing(p: nat): seq<Step> {
    [Exists(p), SetAside(p), Rename(p, true)]
  }

  predicate FinishedWell(s: State, p: nat, r: Request) {
    p < |s.procs| && s.procs[p] == Returned(r) && Verified(s, r)
  }

  /** Taking the place of a bad entry leaves a verified one. */
  lemma ReplacingVerifies(s: State, p: nat, r: Request, dir: nat)
    requires p < |s.procs| && s.procs[p] == Unverified(r, dir) && r in s.objects && Complete(DirOf(s, dir), r)
    ensures Legal(s, Replacing(p)) && FinishedWell(After(s, Replacing(p)), p, r)
  {
    hide Legal, After;
    var s1 := Apply(s, Exists(p));
    var s2 := Apply(s1, SetAside(p));
    Last(s2, Rename(p, true));
    OneMore(s1, SetAside(p), [Rename(p, true)]);
    assert [SetAside(p)] + [Rename(p, true)] == [SetAside(p), Rename(p, true)];
    OneMore(s, Exists(p), [SetAside(p), Rename(p, true)]);
    assert [Exists(p)] + [SetAside(p), Rename(p, true)] == Replacing(p);
  }

  /** The first rename found the name taken. */
  function Refused(s: State, p: nat): State
    requires p < |s.procs| && s.procs[p].Ready?
  {
    Move(s, p, Verifying(AfterFirst, s.procs[p].request, s.procs[p].dir))
  }

  lemma BadManifestReplaced(s: State, p: nat)
    requires p < |s.procs| && s.procs[p].Ready? && Complete(DirOf(s, s.procs[p].dir), s.procs[p].request)
    requires s.procs[p].request in s.objects && ManifestMatch(s, s.procs[p].request).None?
    ensures var steps := [ReadManifest(p)] + Replacing(p);
      Legal(Refused(s, p), steps) && FinishedWell(After(Refused(s, p), steps), p, s.procs[p].request)
  {
    hide Legal, After, FinishedWell;
    var s1 := Refused(s, p);
    ReplacingVerifies(Apply(s1, ReadManifest(p)), p, s.procs[p].request, s.procs[p].dir);
    OneMore(s1, ReadManifest(p), Replacing(p));
  }

  lemma BadPayloadReplaced(s: State, p: nat, g: Digest)
    requires p < |s.procs| && s.procs[p].Ready? && Complete(DirOf(s, s.procs[p].dir), s.procs[p].request)
    requires s.procs[p].request in s.objects && ManifestMatch(s, s.procs[p].request) == Some(g)
    requires !PayloadMatch(s, s.procs[p].request, g)
    ensures var steps := [ReadManifest(p)] + ([ReadPayload(p)] + Replacing(p));
      Legal(Refused(s, p), steps) && FinishedWell(After(Refused(s, p), steps), p, s.procs[p].request)
  {
    hide Legal, After, FinishedWell;
    var s1 := Refused(s, p);
    var s2 := Apply(s1, ReadManifest(p));
    ReplacingVerifies(Apply(s2, ReadPayload(p)), p, s.procs[p].request, s.procs[p].dir);
    OneMore(s2, ReadPayload(p), Replacing(p));
    OneMore(s1, ReadManifest(p), [ReadPayload(p)] + Replacing(p));
  }

  lemma GoodEntryKept(s: State, p: nat, g: Digest)
    requires p < |s.procs| && s.procs[p].Ready? && StagesOk(s) && ObjectsOk(s)
    requires s.procs[p].request in s.objects && ManifestMatch(s, s.procs[p].request) == Some(g)
    requires PayloadMatch(s, s.procs[p].request, g)
    ensures var r, steps := s.procs[p].request, [ReadManifest(p)] + ([ReadPayload(p)] + [Clean(p)]);
      && Legal(Refused(s, p), steps) && FinishedWell(After(Refused(s, p), steps), p, r)
      && EntryOf(After(Refused(s, p), steps), r) == EntryOf(s, r)
  {
    hide Legal, After;
    var s1 := Refused(s, p);
    var s2 := Apply(s1, ReadManifest(p));
    var s3 := Apply(s2, ReadPayload(p));
    Last(s3, Clean(p));
    OneMore(s2, ReadPayload(p), [Clean(p)]);
    OneMore(s1, ReadManifest(p), [ReadPayload(p)] + [Clean(p)]);
  }

  /** Undisturbed, a promotion with a finished, unharmed stage always returns normally with
      a verified entry in place: a good one already there is kept, a bad one replaced, and
      one that has lost both its files is replaced either way its first rename goes. */
  lemma FinishingVerifies(s: State, h: History, p: nat)
    requires p < |s.procs| && s.procs[p].Ready? && Inv(s, h)
    requires s.procs[p].dir !in h.harm && s.procs[p].dir !in h.lost
    ensures Legal(s, Finishing(s, p)) && FinishedWell(After(s, Finishing(s, p)), p, s.procs[p].request)
    ensures Verified(s, s.procs[p].request) ==>
      EntryOf(After(s, Finishing(s, p)), s.procs[p].request) == EntryOf(s, s.procs[p].request)
    ensures EntryOf(s, s.procs[p].request) == EmptyDir() ==>
      Legal(s, [Rename(p, true)]) && FinishedWell(After(s, [Rename(p, true)]), p, s.procs[p].request)
  {
    hide Legal, After, Apply, Enabled, Inv, Refused, FinishedWell, Complete, PayloadMatch, ManifestMatch, EntryOf;
    var r, first := s.procs[p].request, Rename(p, false);
    var g := ManifestMatch(s, r);
    NoEntry(s, r);
    FirstRefused(s, h, p);
    if EntryOf(s, r) == EmptyDir() { FirstRename(s, p); }
    if r !in s.objects {
      assert Finishing(s, p) == [Rename(p, true)];
    } else if g.None? {
      BadManifestReplaced(s, p);
      OneMore(s, first, [ReadManifest(p)] + Replacing(p));
      assert [first] + ([ReadManifest(p)] + Replacing(p)) == Finishing(s, p);
    } else if !PayloadMatch(s, r, g.value) {
      BadPayloadReplaced(s, p, g.value);
      OneMore(s, first, [ReadManifest(p)] + ([ReadPayload(p)] + Replacing(p)));
      assert [first] + ([ReadManifest(p)] + ([ReadPayload(p)] + Replacing(p))) == Finishing(s, p);
    } else {
      GoodEntryKept(s, p, g.value);
      OneMore(s, first, [ReadManifest(p)] + ([ReadPayload(p)] + [Clean(p)]));
      assert [first] + ([ReadManifest(p)] + ([ReadPayload(p)] + [Clean(p)])) == Finishing(s, p);
    }
  }

  lemma FirstRefused(s: State, h: History, p: nat)
    requires p < |s.procs| && s.procs[p].Ready? && Inv(s, h)
    requires s.procs[p].dir !in h.harm && s.procs[p].dir !in h.lost
    ensures StagesOk(s) && ObjectsOk(s)
    ensures Enabled(s, Rename(p, false)) && Apply(s, Rename(p, false)) == Refused(s, p)
    ensures Complete(DirOf(s, s.procs[p].dir), s.procs[p].request)
  {
    hide Sound, StagesOk, ObjectsOk;
    assert StageOk(s, h, s.procs[p]);
  }

  lemma NoEntry(s: State, r: Request)
    ensures r !in s.objects ==> !Verified(s, r) && EntryOf(s, r) == EmptyDir()
  {
  }

  lemma FirstRename(s: State, p: nat)
    requires p < |s.procs| && s.procs[p].Ready? && EntryOf(s, s.procs[p].request) == EmptyDir()
    requires Complete(DirOf(s, s.procs[p].dir), s.procs[p].request)
    ensures Legal(s, [Rename(p, true)]) && FinishedWell(After(s, [Rename(p, true)]), p, s.procs[p].request)
  {
    hide Legal, After;
    Last(s, Rename(p, true));
  }
}
