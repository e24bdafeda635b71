/**
  The content-addressed object cache as a protocol: every file-system operation of a
  promotion or a lookup is one step, and any number of processes take steps in any order,
  fail, crash and leave their stages behind while entries are damaged under them.

  A digest is its contents behind a constructor, which makes hashing injective; an entry's
  name is the digest of its request, so entries are indexed by request.
*/
module CompilationCache {
  import opened Wrappers

  type Request = nat
  type Data = nat

  datatype Digest = Digest(of: Data)
  datatype Manifest = Manifest(request: Request, digest: Digest)

  /** A directory with its two files; a manifest that does not parse is as good as none. */
  datatype Dir = Dir(manifest: Option<Manifest>, payload: Option<Data>)

  datatype Why = AfterFirst | AfterSecond

  /** Where a process is. A stage directory belongs to the process that made it until it is
      renamed into place. */
  datatype Proc =
    | Idle
    | Staged(request: Request, dir: nat)
    | Copied(request: Request, dir: nat)
    | Hashed(request: Request, dir: nat, digest: Digest)
    | Checked(request: Request, dir: nat, digest: Digest)
    | Ready(request: Request, dir: nat)
    | Verifying(why: Why, request: Request, dir: nat)
    | Found(why: Why, request: Request, dir: nat, digest: Digest)
    | Unverified(request: Request, dir: nat)
    | Quarantining(request: Request, dir: nat)
    | Again(request: Request, dir: nat)
    | Cleaning(request: Request, dir: nat, ok: bool)
    | Returned(request: Request)
    | Raised(request: Request)
    | Looking(request: Request)
    | LookFound(request: Request, digest: Digest)
    | Hit(request: Request)
    | Output(request: Request, data: Data)
    | Miss(request: Request)

  /** `offered` is history: what each promotion's source file held when it was hashed. */
  datatype State = State(
    dirs: map<nat, Dir>, objects: map<Request, nat>, procs: seq<Proc>, nextDir: nat, offered: set<(Request, Data)>)

  datatype Step =
    | Begin(p: nat, request: Request)
    | Copy(p: nat, data: Data)
    | HashSource(p: nat, data: Data)
    | CheckStage(p: nat)
    | WriteManifest(p: nat)
    | Rename(p: nat, ok: bool)
    | ReadManifest(p: nat)
    | ReadPayload(p: nat)
    | Exists(p: nat)
    | SetAside(p: nat)
    | Clean(p: nat)
    | Fail(p: nat)
    | Crash(p: nat)
    | Look(p: nat, request: Request)
    | CopyOut(p: nat)
    | Damage(dir: nat, payload: Option<Data>)
    | LoseManifest(dir: nat)

  function Init(n: nat): State {
    State(map[], map[], seq(n, _ => Idle), 0, {})
  }

  predicate HasStage(c: Proc) {
    c.Staged? || c.Copied? || c.Hashed? || c.Checked? || c.Ready? || c.Verifying? || c.Found?
    || c.Unverified? || c.Quarantining? || c.Again? || c.Cleaning?
  }

  predicate AtRest(c: Proc) {
    c.Idle? || c.Returned? || c.Raised? || c.Output? || c.Miss?
  }

  function Actor(step: Step): Option<nat> {
    match step
    case Begin(p, _) => Some(p)
    case Copy(p, _) => Some(p)
    case HashSource(p, _) => Some(p)
    case CheckStage(p) => Some(p)
    case WriteManifest(p) => Some(p)
    case Rename(p, _) => Some(p)
    case ReadManifest(p) => Some(p)
    case ReadPayload(p) => Some(p)
    case Exists(p) => Some(p)
    case SetAside(p) => Some(p)
    case Clean(p) => Some(p)
    case Fail(p) => Some(p)
    case Crash(p) => Some(p)
    case Look(p, _) => Some(p)
    case CopyOut(p) => Some(p)
    case Damage(_, _) => None
    case LoseManifest(_) => None
  }

  function EmptyDir(): Dir {
    Dir(None, None)
  }

  function DirOf(s: State, dir: nat): Dir {
    if dir in s.dirs then s.dirs[dir] else EmptyDir()
  }

  /** The directory a request's name leads to now. */
  function EntryOf(s: State, r: Request): Dir {
    if r in s.objects then DirOf(s, s.objects[r]) else EmptyDir()
  }

  /** A rename into place succeeds only when nothing is there or, on POSIX, an entry that has
      lost both its files; it can fail regardless. */
  predicate Enabled(s: State, step: Step) {
    (Actor(step).Some? ==> Actor(step).value < |s.procs|) &&
    match step
    case Begin(p, _) => AtRest(s.procs[p])
    case Copy(p, _) => s.procs[p].Staged?
    case HashSource(p, _) => s.procs[p].Copied?
    case CheckStage(p) => s.procs[p].Hashed?
    case WriteManifest(p) => s.procs[p].Checked?
    case Rename(p, ok) =>
      (s.procs[p].Ready? || s.procs[p].Again?) && (ok ==> EntryOf(s, s.procs[p].request) == EmptyDir())
    case ReadManifest(p) => s.procs[p].Verifying? || s.procs[p].Looking?
    case ReadPayload(p) => s.procs[p].Found? || s.procs[p].LookFound?
    case Exists(p) => s.procs[p].Unverified?
    case SetAside(p) => s.procs[p].Quarantining?
    case Clean(p) => s.procs[p].Cleaning?
    case Fail(p) => HasStage(s.procs[p]) && !s.procs[p].Cleaning?
    case Crash(p) => true
    case Look(p, _) => AtRest(s.procs[p])
    case CopyOut(p) => s.procs[p].Hit?
    case Damage(dir, _) => dir in s.dirs
    case LoseManifest(dir) => dir in s.dirs
  }

  function Move(s: State, p: nat, c: Proc): State
    requires p < |s.procs|
  {
    s.(procs := s.procs[p := c])
  }

  function ManifestMatch(s: State, r: Request): Option<Digest> {
    var m := EntryOf(s, r).manifest;
    if m.Some? && m.value.request == r then Some(m.value.digest) else None
  }

  predicate PayloadMatch(s: State, r: Request, g: Digest) {
    var x := EntryOf(s, r).payload;
    x.Some? && Digest(x.value) == g
  }

  function Apply(s: State, step: Step): State
    requires Enabled(s, step)
  {
    match step
    case Begin(p, r) =>
      Move(s, p, Staged(r, s.nextDir)).(dirs := s.dirs[s.nextDir := EmptyDir()], nextDir := s.nextDir + 1)
    case Copy(p, x) =>
      var c := s.procs[p];
      Move(s, p, Copied(c.request, c.dir)).(dirs := s.dirs[c.dir := DirOf(s, c.dir).(payload := Some(x))])
    case HashSource(p, x) =>
      var c := s.procs[p];
      Move(s, p, Hashed(c.request, c.dir, Digest(x))).(offered := s.offered + {(c.request, x)})
    case CheckStage(p) =>
      var c := s.procs[p];
      var x := DirOf(s, c.dir).payload;
      if x.Some? && Digest(x.value) == c.digest then Move(s, p, Checked(c.request, c.dir, c.digest))
      else Move(s, p, Cleaning(c.request, c.dir, false))
    case WriteManifest(p) =>
      var c := s.procs[p];
      Move(s, p, Ready(c.request, c.dir)).(
        dirs := s.dirs[c.dir := DirOf(s, c.dir).(manifest := Some(Manifest(c.request, c.digest)))])
    case Rename(p, ok) =>
      var c := s.procs[p];
      if ok then Move(s, p, Returned(c.request)).(objects := s.objects[c.request := c.dir])
      else Move(s, p, Verifying(if c.Ready? then AfterFirst else AfterSecond, c.request, c.dir))
    case ReadManifest(p) =>
      var c := s.procs[p];
      var g := ManifestMatch(s, c.request);
      if c.Looking? then Move(s, p, if g.Some? then LookFound(c.request, g.value) else Miss(c.request))
      else Move(s, p, if g.Some? then Found(c.why, c.request, c.dir, g.value) else Rejected(c.why, c.request, c.dir))
    case ReadPayload(p) =>
      var c := s.procs[p];
      var ok := PayloadMatch(s, c.request, c.digest);
      if c.LookFound? then Move(s, p, if ok then Hit(c.request) else Miss(c.request))
      else Move(s, p, if ok then Cleaning(c.request, c.dir, true) else Rejected(c.why, c.request, c.dir))
    case Exists(p) =>
      var c := s.procs[p];
      Move(s, p, if c.request in s.objects then Quarantining(c.request, c.dir) else Again(c.request, c.dir))
    case SetAside(p) =>
      var c := s.procs[p];
      if c.request in s.objects then Move(s, p, Again(c.request, c.dir)).(objects := s.objects - {c.request})
      else Move(s, p, Cleaning(c.request, c.dir, false))
    case Clean(p) =>
      var c := s.procs[p];
      Move(s, p, if c.ok then Returned(c.request) else Raised(c.request)).(dirs := s.dirs - {c.dir})
    case Fail(p) => Move(s, p, Cleaning(s.procs[p].request, s.procs[p].dir, false))
    case Crash(p) => Move(s, p, Idle)
    case Look(p, r) => Move(s, p, Looking(r))
    case CopyOut(p) =>
      var r := s.procs[p].request;
      var x := EntryOf(s, r).payload;
      Move(s, p, if x.Some? then Output(r, x.value) else Raised(r))
    case Damage(dir, x) => s.(dirs := s.dirs[dir := s.dirs[dir].(payload := x)])
    case LoseManifest(dir) => s.(dirs := s.dirs[dir := s.dirs[dir].(manifest := None)])
  }

  /** A failed verification is retried once and is final the second time. */
  function Rejected(why: Why, r: Request, dir: nat): Proc {
    if why.AfterFirst? then Unverified(r, dir) else Cleaning(r, dir, false)
  }

  // ------------------------------------------------------------------ invariant

  /** A digest of something a promotion of this request offered. */
  predicate Vouched(s: State, r: Request, g: Digest) {
    (r, g.of) in s.offered
  }

  predicate ManifestsOk(s: State) {
    forall d :: d in s.dirs && s.dirs[d].manifest.Some? ==>
      Vouched(s, s.dirs[d].manifest.value.request, s.dirs[d].manifest.value.digest)
  }

  predicate HasDigest(c: Proc) {
    c.Hashed? || c.Checked? || c.Found? || c.LookFound?
  }

  predicate DigestsOk(s: State) {
    forall p :: 0 <= p < |s.procs| && HasDigest(s.procs[p]) ==> Vouched(s, s.procs[p].request, s.procs[p].digest)
  }

  /** What holds whatever is damaged. */
  predicate Sound(s: State) {
    ManifestsOk(s) && DigestsOk(s)
  }

  lemma ManifestsStep(s: State, step: Step)
    requires Sound(s) && Enabled(s, step)
    ensures ManifestsOk(Apply(s, step))
  {
    hide ManifestMatch, PayloadMatch;
  }

  lemma DigestsStep(s: State, step: Step)
    requires Sound(s) && Enabled(s, step)
    ensures DigestsOk(Apply(s, step))
  {
  }

  lemma SoundStep(s: State, step: Step)
    requires Sound(s) && Enabled(s, step)
    ensures Sound(Apply(s, step))
  {
    hide Apply, Enabled, ManifestsOk, DigestsOk;
    ManifestsStep(s, step);
    DigestsStep(s, step);
  }

  /** The entry in place holds the payload of some promotion of this very request. */
  predicate HoldsPromoted(s: State, r: Request) {
    var x := EntryOf(s, r).payload;
    x.Some? && (r, x.value) in s.offered
  }

  /** What one undisturbed verification of an entry checks. */
  predicate Verified(s: State, r: Request) {
    var g := ManifestMatch(s, r);
    g.Some? && PayloadMatch(s, r, g.value)
  }

  // ------------------------------------------------------------------ ownership

  function Stage(c: Proc): nat
    requires HasStage(c)
  {
    c.dir
  }

  predicate StagesOk(s: State) {
    && (forall p :: 0 <= p < |s.procs| && HasStage(s.procs[p]) ==> Stage(s.procs[p]) in s.dirs)
    && (forall p, q :: 0 <= p < |s.procs| && 0 <= q < |s.procs| && p != q
          && HasStage(s.procs[p]) && HasStage(s.procs[q])
          ==> Stage(s.procs[p]) != Stage(s.procs[q]))
    && (forall d :: d in s.dirs ==> d < s.nextDir)
  }

  predicate ObjectsOk(s: State) {
    && (forall r :: r in s.objects ==> s.objects[r] in s.dirs)
    && (forall r, q :: r in s.objects && q in s.objects && r != q ==> s.objects[r] != s.objects[q])
    && (forall r, p :: r in s.objects && 0 <= p < |s.procs| && HasStage(s.procs[p])
          ==> s.objects[r] != Stage(s.procs[p]))
  }

  /** Both files, agreeing with each other and with the request. */
  predicate Complete(d: Dir, r: Request) {
    d.manifest.Some? && d.manifest.value.request == r && d.payload == Some(d.manifest.value.digest.of)
  }

  predicate Finished(c: Proc) {
    c.Ready? || c.Verifying? || c.Found? || c.Unverified? || c.Quarantining? || c.Again?
  }

  // ------------------------------------------------------------------ history

  /** What a run tells of each directory: what the source held when it was hashed, what the
      last damage since the payload was copied in has left there, and which directories have
      lost their manifest since it was written. */
  datatype History = History(hashed: map<nat, Data>, harm: map<nat, Option<Data>>, lost: set<nat>)

  function NoHistory(): History {
    History(map[], map[], {})
  }

  function Noted(h: History, s: State, step: Step): History
    requires Enabled(s, step)
  {
    match step
    case Copy(p, _) => if HasStage(s.procs[p]) then h.(harm := h.harm - {Stage(s.procs[p])}) else h
    case HashSource(p, x) => if HasStage(s.procs[p]) then h.(hashed := h.hashed[Stage(s.procs[p]) := x]) else h
    case Damage(dir, x) => h.(harm := h.harm[dir := x])
    case WriteManifest(p) => if HasStage(s.procs[p]) then h.(lost := h.lost - {Stage(s.procs[p])}) else h
    case LoseManifest(dir) => h.(lost := h.lost + {dir})
    case _ => h
  }

  predicate Offered(s: State, r: Request, x: Option<Data>) {
    x.Some? && (r, x.value) in s.offered
  }

  /** A harmed directory holds what the damage left. */
  predicate HarmOk(s: State, h: History) {
    forall d :: d in h.harm ==> d < s.nextDir && (d in s.dirs ==> s.dirs[d].payload == h.harm[d])
  }

  /** An unharmed stage holds what it was checked for, a finished one its manifest as well. */
  predicate StageOk(s: State, h: History, c: Proc) {
    && (c.Hashed? ==> c.dir in h.hashed && h.hashed[c.dir] == c.digest.of)
    && (c.Checked? ==>
          && c.dir in h.hashed && h.hashed[c.dir] == c.digest.of
          && (c.dir !in h.harm ==> DirOf(s, c.dir).payload == Some(h.hashed[c.dir])))
    && (Finished(c) ==>
          && c.dir in h.hashed && (c.request, h.hashed[c.dir]) in s.offered
          && DirOf(s, c.dir).manifest ==
               (if c.dir in h.lost then None else Some(Manifest(c.request, Digest(h.hashed[c.dir]))))
          && (c.dir !in h.harm ==> DirOf(s, c.dir).payload == Some(h.hashed[c.dir])))
  }

  /** An unharmed entry holds a promoted payload. */
  predicate EntryOk(s: State, h: History, r: Request) {
    r in s.objects && s.objects[r] !in h.harm ==> HoldsPromoted(s, r)
  }

  predicate ContentsOk(s: State, h: History) {
    && (forall p :: 0 <= p < |s.procs| ==> StageOk(s, h, s.procs[p]))
    && (forall r :: r in s.objects ==> EntryOk(s, h, r))
  }

  predicate Inv(s: State, h: History) {
    Sound(s) && StagesOk(s) && ObjectsOk(s) && HarmOk(s, h) && ContentsOk(s, h)
  }

  lemma InitInv(n: nat)
    ensures Inv(Init(n), NoHistory())
  {
  }

  predicate ChangesDirs(step: Step) {
    step.Begin? || step.Copy? || step.WriteManifest? || step.Clean? || step.Damage? || step.LoseManifest?
  }

  lemma StagesDirStep(s: State, step: Step)
    requires StagesOk(s) && ObjectsOk(s) && Enabled(s, step) && ChangesDirs(step)
    ensures StagesOk(Apply(s, step))
  {
    hide ManifestMatch, PayloadMatch, DirOf;
  }

  /** A step that leaves the directories alone moves one process, which keeps its stage or
      gives it up. */
  lemma ProcMoves(s: State, step: Step)
    requires Enabled(s, step) && !ChangesDirs(step)
    ensures var s', p := Apply(s, step), Actor(step);
      && s'.dirs == s.dirs && s'.nextDir == s.nextDir && p.Some? && p.value < |s.procs| == |s'.procs|
      && (forall q :: 0 <= q < |s.procs| && q != p.value ==> s'.procs[q] == s.procs[q])
      && (HasStage(s'.procs[p.value]) ==>
            HasStage(s.procs[p.value]) && Stage(s'.procs[p.value]) == Stage(s.procs[p.value]))
  {
    hide ManifestMatch, PayloadMatch, DirOf, EntryOf;
  }

  lemma StagesProcStep(s: State, step: Step)
    requires StagesOk(s) && Enabled(s, step) && !ChangesDirs(step)
    ensures StagesOk(Apply(s, step))
  {
    hide Apply, Enabled, ChangesDirs, HasStage, Actor;
    ProcMoves(s, step);
  }

  lemma StagesStep(s: State, step: Step)
    requires StagesOk(s) && ObjectsOk(s) && Enabled(s, step)
    ensures StagesOk(Apply(s, step))
  {
    hide Apply, Enabled, StagesOk, ObjectsOk;
    if ChangesDirs(step) { StagesDirStep(s, step); } else { StagesProcStep(s, step); }
  }

  lemma ObjectsDirStep(s: State, step: Step)
    requires StagesOk(s) && ObjectsOk(s) && Enabled(s, step) && ChangesDirs(step)
    ensures ObjectsOk(Apply(s, step))
  {
    hide ManifestMatch, PayloadMatch, DirOf;
  }

  lemma ObjectsProcStep(s: State, step: Step)
    requires StagesOk(s) && ObjectsOk(s) && Enabled(s, step) && !ChangesDirs(step)
    ensures ObjectsOk(Apply(s, step))
  {
    hide ManifestMatch, PayloadMatch, DirOf, EntryOf;
  }

  lemma ObjectsStep(s: State, step: Step)
    requires StagesOk(s) && ObjectsOk(s) && Enabled(s, step)
    ensures ObjectsOk(Apply(s, step))
  {
    hide Apply, Enabled, StagesOk, ObjectsOk;
    if ChangesDirs(step) { ObjectsDirStep(s, step); } else { ObjectsProcStep(s, step); }
  }

  lemma HarmDirStep(s: State, h: History, step: Step)
    requires StagesOk(s) && HarmOk(s, h) && Enabled(s, step) && ChangesDirs(step)
    ensures HarmOk(Apply(s, step), Noted(h, s, step))
  {
    hide ManifestMatch, PayloadMatch, EntryOf;
    if step.Begin? { assert s.nextDir !in s.dirs; }
  }

  lemma HarmStep(s: State, h: History, step: Step)
    requires StagesOk(s) && HarmOk(s, h) && Enabled(s, step)
    ensures HarmOk(Apply(s, step), Noted(h, s, step))
  {
    hide Apply, Enabled, Noted, HarmOk, StagesOk;
    if ChangesDirs(step) {
      HarmDirStep(s, h, step);
    } else {
      HarmKept(s, h, step);
    }
  }

  lemma HarmKept(s: State, h: History, step: Step)
    requires HarmOk(s, h) && Enabled(s, step) && !ChangesDirs(step)
    ensures HarmOk(Apply(s, step), Noted(h, s, step))
  {
    hide Apply, Enabled, HasStage;
    ProcMoves(s, step);
  }

  /** A step of another process leaves a directory alone, except for damage that is noted. */
  predicate Left(s: State, h: History, s': State, h': History, dir: nat) {
    && (dir in h'.harm || dir !in h.harm)
    && (dir !in h'.harm ==> DirOf(s', dir).payload == DirOf(s, dir).payload)
    && (dir in h'.lost || dir !in h.lost)
    && ((dir in h'.lost && DirOf(s', dir).manifest == None)
        || ((dir in h'.lost <==> dir in h.lost) && DirOf(s', dir).manifest == DirOf(s, dir).manifest))
    && (dir in h.hashed ==> dir in h'.hashed && h'.hashed[dir] == h.hashed[dir])
    && s.offered <= s'.offered
  }

  lemma DirLeft(s: State, h: History, step: Step, dir: nat)
    requires StagesOk(s) && Enabled(s, step) && dir in s.dirs
    requires var p := Actor(step);
      p.Some? && HasStage(s.procs[p.value]) ==> Stage(s.procs[p.value]) != dir
    ensures Left(s, h, Apply(s, step), Noted(h, s, step), dir)
  {
    hide ManifestMatch, PayloadMatch, EntryOf;
  }

  lemma OthersStay(s: State, step: Step, q: nat)
    requires Enabled(s, step) && q < |s.procs| && Actor(step) != Some(q)
    ensures q < |Apply(s, step).procs| == |s.procs| && Apply(s, step).procs[q] == s.procs[q]
  {
    hide ManifestMatch, PayloadMatch, EntryOf, DirOf;
  }

  lemma OtherStage(s: State, h: History, step: Step, q: nat)
    requires StagesOk(s) && ObjectsOk(s) && Enabled(s, step) && q < |s.procs| && Actor(step) != Some(q)
    requires StageOk(s, h, s.procs[q])
    ensures StageOk(Apply(s, step), Noted(h, s, step), s.procs[q])
  {
    hide Apply, Noted, DirOf;
    var c := s.procs[q];
    if HasStage(c) {
      assert Stage(c) in s.dirs;
      DirLeft(s, h, step, Stage(c));
    }
  }

  predicate BuildsStage(step: Step) {
    step.Begin? || step.Copy? || step.HashSource? || step.CheckStage? || step.WriteManifest?
  }

  lemma BuiltStage(s: State, h: History, step: Step, p: nat)
    requires DigestsOk(s) && StagesOk(s) && Enabled(s, step) && Actor(step) == Some(p) && StageOk(s, h, s.procs[p])
    requires BuildsStage(step)
    ensures p < |Apply(s, step).procs|
    ensures StageOk(Apply(s, step), Noted(h, s, step), Apply(s, step).procs[p])
  {
    hide ManifestMatch, PayloadMatch, EntryOf;
    assert HasDigest(s.procs[p]) ==> Vouched(s, s.procs[p].request, s.procs[p].digest);
  }

  lemma KeptStage(s: State, h: History, step: Step, p: nat)
    requires StagesOk(s) && Enabled(s, step) && Actor(step) == Some(p) && StageOk(s, h, s.procs[p])
    requires !BuildsStage(step)
    ensures p < |Apply(s, step).procs|
    ensures StageOk(Apply(s, step), Noted(h, s, step), Apply(s, step).procs[p])
  {
    hide ManifestMatch, PayloadMatch, EntryOf;
  }

  lemma OwnStage(s: State, h: History, step: Step, p: nat)
    requires DigestsOk(s) && StagesOk(s) && Enabled(s, step) && Actor(step) == Some(p) && StageOk(s, h, s.procs[p])
    ensures p < |Apply(s, step).procs|
    ensures StageOk(Apply(s, step), Noted(h, s, step), Apply(s, step).procs[p])
  {
    hide Apply, Noted, StageOk, DigestsOk, StagesOk;
    if BuildsStage(step) { BuiltStage(s, h, step, p); } else { KeptStage(s, h, step, p); }
  }

  lemma SameEntry(s: State, h: History, step: Step, r: Request)
    requires StagesOk(s) && ObjectsOk(s) && Enabled(s, step) && EntryOk(s, h, r)
    requires r in s.objects && Apply(s, step).objects == s.objects
    ensures EntryOk(Apply(s, step), Noted(h, s, step), r)
  {
    hide Apply, Noted, DirOf;
    DirLeft(s, h, step, s.objects[r]);
  }

  lemma EntriesStep(s: State, h: History, step: Step, r: Request)
    requires Inv(s, h) && Enabled(s, step) && r in Apply(s, step).objects
    ensures EntryOk(Apply(s, step), Noted(h, s, step), r)
  {
    hide Sound;
    if step.Rename? || step.SetAside? {
      if step.Rename? { assert StageOk(s, h, s.procs[step.p]); }
      if r in s.objects { assert EntryOk(s, h, r); }
    } else {
      assert EntryOk(s, h, r);
      SameEntry(s, h, step, r);
    }
  }

  lemma ContentsStep(s: State, h: History, step: Step)
    requires Inv(s, h) && Enabled(s, step)
    ensures ContentsOk(Apply(s, step), Noted(h, s, step))
  {
    hide Apply, Enabled, Noted, ManifestsOk, DigestsOk, StagesOk, ObjectsOk, HarmOk, StageOk, EntryOk, Actor;
    var s', h' := Apply(s, step), Noted(h, s, step);
    SameCount(s, step);
    forall q | 0 <= q < |s'.procs| ensures StageOk(s', h', s'.procs[q]) {
      if Actor(step) == Some(q) {
        OwnStage(s, h, step, q);
      } else {
        OthersStay(s, step, q);
        OtherStage(s, h, step, q);
      }
    }
    forall r | r in s'.objects ensures EntryOk(s', h', r) { EntriesStep(s, h, step, r); }
  }

  lemma SameCount(s: State, step: Step)
    requires Enabled(s, step)
    ensures |Apply(s, step).procs| == |s.procs|
  {
    hide ManifestMatch, PayloadMatch, EntryOf, DirOf;
  }

  /** The invariant is kept by every step of any process, and by every crash and damage. */
  lemma StepInv(s: State, h: History, step: Step)
    requires Inv(s, h) && Enabled(s, step)
    ensures Inv(Apply(s, step), Noted(h, s, step))
  {
    hide Apply, Enabled, Noted, Sound, StagesOk, ObjectsOk, HarmOk, ContentsOk;
    SoundStep(s, step);
    StagesStep(s, step);
    ObjectsStep(s, step);
    HarmStep(s, h, step);
    ContentsStep(s, h, step);
  }
}
