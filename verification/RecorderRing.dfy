/**
  The output recorder: a single-producer single-consumer ring of samples.

  `RecorderRing` is the protocol, one ring access or position access per step, with
  positions that the other side may load stale.  `OutputRecorder` holds the push,
  drain and stop routines themselves over an array.
*/
module RecorderRing {

  // ---------------------------------------------------------------- conversion

  function Clamp(x: real): real {
    if x < -1.0 then -1.0 else if x > 1.0 then 1.0 else x
  }

  /** Nearest integer, halves away from zero. */
  function Round(x: real): int {
    if x >= 0.0 then (x + 0.5).Floor else -((-x + 0.5).Floor)
  }

  function Pcm(sample: real): int {
    Round(Clamp(sample) * 32767.0)
  }

  function PcmOf(samples: seq<real>): (r: seq<int>)
    ensures |r| == |samples|
  {
    seq(|samples|, i requires 0 <= i < |samples| => Pcm(samples[i]))
  }

  lemma PcmOfJoin(a: seq<real>, b: seq<real>)
    ensures PcmOf(a + b) == PcmOf(a) + PcmOf(b)
  {
  }

  /** Every sample fits a signed 16-bit word. */
  lemma PcmFits(sample: real)
    ensures -32767 <= Pcm(sample) <= 32767
  {
  }

  function Distance(a: real, b: real): (d: real)
    ensures d >= 0.0
  {
    if a < b then b - a else a - b
  }

  /** Inside the range a sample becomes the integer nearest to 32767 times itself, the one
      farther from zero of two; outside it becomes the end of the range. */
  lemma PcmNearest(sample: real, k: int)
    ensures -1.0 <= sample <= 1.0 ==>
      && Distance(Pcm(sample) as real, 32767.0 * sample) <= Distance(k as real, 32767.0 * sample)
      && (k != Pcm(sample) && Distance(k as real, 32767.0 * sample) == Distance(Pcm(sample) as real, 32767.0 * sample)
          ==> (if sample > 0.0 then k < Pcm(sample) else k > Pcm(sample)))
    ensures sample >= 1.0 ==> Pcm(sample) == 32767
    ensures sample <= -1.0 ==> Pcm(sample) == -32767
  {
  }

  lemma PcmMonotone(a: real, b: real)
    requires a <= b
    ensures Pcm(a) <= Pcm(b)
  {
  }

  // ------------------------------------------------------------------- protocol

  datatype Producer =
    | Resting
    | Loaded(data: seq<real>, at: nat)
    | Copying(data: seq<real>, at: nat, copied: nat)

  datatype Consumer =
    | Idle
    | Draining(target: nat, cursor: nat, pcm: seq<int>)
    | Saving(pcm: seq<int>)

  /** `seenRead` and `seenWrite` are the values each side last loaded of the other's
      position; a later load never returns an older one.  The remaining fields after
      `framesDropped` are history variables. */
  datatype State = State(
    ring: seq<real>, write: nat, read: nat, seenRead: nat, seenWrite: nat,
    producer: Producer, consumer: Consumer, file: seq<int>, framesWritten: nat, framesDropped: nat,
    writeStores: set<nat>, readStores: set<nat>, accepted: seq<real>,
    pushed: nat, droppedSamples: nat, oddDrops: nat, oddDrains: nat)

  datatype Step =
    | PushStart(data: seq<real>)
    | PushDecide(read: nat)
    | PushCopy
    | PushPublish
    | DrainStart(write: nat)
    | DrainRead
    | DrainPublish
    | DrainSave

  /** The ring element a position uses. */
  function Slot(position: nat, size: nat): (slot: nat)
    requires size > 0
    ensures slot < size
  {
    position % size
  }

  function Init(size: nat): State {
    State(seq(size, _ => 0.0), 0, 0, 0, 0, Resting, Idle, [], 0, 0, {0}, {0}, [], 0, 0, 0, 0)
  }

  predicate Enabled(s: State, step: Step) {
    match step
    case PushStart(_) => s.producer.Resting?
    case PushDecide(read) => s.producer.Loaded? && read in s.readStores && s.seenRead <= read
    case PushCopy => s.producer.Copying? && s.producer.copied < |s.producer.data| && s.ring != []
    case PushPublish => s.producer.Copying? && s.producer.copied == |s.producer.data|
    case DrainStart(write) => s.consumer.Idle? && write in s.writeStores && s.seenWrite <= write
    case DrainRead => s.consumer.Draining? && s.consumer.cursor < s.consumer.target && s.ring != []
    case DrainPublish => s.consumer.Draining? && s.consumer.cursor == s.consumer.target
    case DrainSave => s.consumer.Saving?
  }

  /** The room `push` computes from what it loaded; the program does this in unsigned
      arithmetic, so it is only meaningful while it stays within the ring size. */
  function Free(size: nat, write: nat, read: nat): int {
    size - (write - read)
  }

  function Apply(s: State, step: Step): State
    requires Enabled(s, step)
  {
    match step
    case PushStart(data) => s.(producer := Loaded(data, s.write))
    case PushDecide(read) =>
      var n := |s.producer.data|;
      var s1 := s.(seenRead := read, pushed := s.pushed + n);
      if n > Free(|s.ring|, s.producer.at, read) then
        s1.(producer := Resting, framesDropped := s.framesDropped + n / 2,
            droppedSamples := s.droppedSamples + n, oddDrops := s.oddDrops + n % 2)
      else
        s1.(producer := Copying(s.producer.data, s.producer.at, 0))
    case PushCopy =>
      var p := s.producer;
      s.(ring := s.ring[Slot(p.at + p.copied, |s.ring|) := p.data[p.copied]],
         producer := p.(copied := p.copied + 1))
    case PushPublish =>
      var write := s.producer.at + |s.producer.data|;
      s.(write := write, writeStores := s.writeStores + {write},
         accepted := s.accepted + s.producer.data, producer := Resting)
    case DrainStart(write) =>
      if write == s.read then s.(seenWrite := write)
      else s.(seenWrite := write, consumer := Draining(write, s.read, []))
    case DrainRead =>
      var c := s.consumer;
      s.(consumer := c.(cursor := c.cursor + 1, pcm := c.pcm + [Pcm(s.ring[Slot(c.cursor, |s.ring|)])]))
    case DrainPublish =>
      s.(read := s.consumer.cursor, readStores := s.readStores + {s.consumer.cursor},
         consumer := Saving(s.consumer.pcm))
    case DrainSave =>
      var n := |s.consumer.pcm|;
      s.(file := s.file + s.consumer.pcm, framesWritten := s.framesWritten + n / 2,
         oddDrains := s.oddDrains + n % 2, consumer := Idle)
  }

  // ------------------------------------------------------------------ invariant

  /** Positions of unread samples hold those samples. */
  predicate Stored(ring: seq<real>, from: nat, samples: seq<real>) {
    ring != [] && |samples| <= |ring| && forall k :: 0 <= k < |samples| ==> ring[Slot(from + k, |ring|)] == samples[k]
  }

  predicate PositionsOk(s: State) {
    && s.ring != []
    && s.seenRead <= s.read <= s.seenWrite <= s.write == |s.accepted|
    && s.write - s.seenRead <= |s.ring|
    && (forall w :: w in s.writeStores ==> w <= s.write)
    && (forall r :: r in s.readStores ==> r <= s.read)
    && s.write in s.writeStores && s.read in s.readStores
  }

  predicate ProducerOk(s: State)
    requires PositionsOk(s)
  {
    match s.producer
    case Resting => true
    case Loaded(data, at) => at == s.write
    case Copying(data, at, copied) =>
      at == s.write && copied <= |data| && at + |data| - s.seenRead <= |s.ring|
      && Stored(s.ring, at, data[..copied])
  }

  predicate ConsumerOk(s: State)
    requires PositionsOk(s)
  {
    && |s.file| <= s.read && s.file == PcmOf(s.accepted[..|s.file|])
    && match s.consumer
       case Idle => |s.file| == s.read
       case Draining(target, cursor, pcm) =>
         |s.file| == s.read && s.read <= cursor <= target <= s.seenWrite && pcm == PcmOf(s.accepted[s.read..cursor])
       case Saving(pcm) => pcm == PcmOf(s.accepted[|s.file|..s.read])
  }

  function InHand(s: State): nat {
    if s.producer.Copying? then |s.producer.data| else 0
  }

  predicate CountsOk(s: State) {
    && s.pushed == |s.accepted| + InHand(s) + s.droppedSamples
    && s.droppedSamples == 2 * s.framesDropped + s.oddDrops
    && |s.file| == 2 * s.framesWritten + s.oddDrains
  }

  predicate Inv(s: State) {
    && PositionsOk(s) && ProducerOk(s) && ConsumerOk(s) && CountsOk(s)
    && Stored(s.ring, s.read, s.accepted[s.read..])
  }

  lemma InitInv(size: nat)
    requires size > 0
    ensures Inv(Init(size))
  {
  }

  /** Two positions less than a ring apart use different elements. */
  lemma Distinct(a: nat, b: nat, size: nat)
    requires a < b < a + size
    ensures Slot(a, size) != Slot(b, size)
  {
    if a % size == b % size {
      var k, m := a / size, b / size;
      assert b - a == (m - k) * size by { assert a == k * size + a % size && b == m * size + b % size; }
      if m - k <= 0 { NonPositive(m - k, size); } else { AtLeastOne(m - k, size); }
      assert false;
    }
  }

  lemma NonPositive(d: int, size: nat)
    requires d <= 0
    ensures d * size <= 0
  {
  }

  lemma AtLeastOne(d: int, size: nat)
    requires d >= 1
    ensures d * size >= size
  {
  }

  /** The producer never writes over a sample the consumer has yet to read. */
  lemma NeverOverwrites(s: State, position: nat)
    requires Inv(s) && Enabled(s, PushCopy) && s.read <= position < s.write
    ensures Slot(position, |s.ring|) != Slot(s.producer.at + s.producer.copied, |s.ring|)
  {
    hide Stored, PcmOf;
    Distinct(position, s.producer.at + s.producer.copied, |s.ring|);
  }

  lemma StoredNothing(ring: seq<real>, from: nat)
    requires ring != []
    ensures Stored(ring, from, [])
  {
  }

  lemma StoredElsewhere(ring: seq<real>, from: nat, samples: seq<real>, at: nat, x: real)
    requires Stored(ring, from, samples) && from + |samples| <= at < from + |ring|
    ensures Stored(ring[Slot(at, |ring|) := x], from, samples)
  {
    hide Slot;
    var after := ring[Slot(at, |ring|) := x];
    forall k | 0 <= k < |samples| ensures after[Slot(from + k, |ring|)] == samples[k] {
      Distinct(from + k, at, |ring|);
    }
  }

  lemma StoredMore(ring: seq<real>, from: nat, samples: seq<real>, x: real)
    requires Stored(ring, from, samples) && |samples| < |ring|
    ensures Stored(ring[Slot(from + |samples|, |ring|) := x], from, samples + [x])
  {
    StoredElsewhere(ring, from, samples, from + |samples|, x);
  }

  lemma StoredJoin(ring: seq<real>, from: nat, a: seq<real>, b: seq<real>)
    requires Stored(ring, from, a) && Stored(ring, from + |a|, b) && |a| + |b| <= |ring|
    ensures Stored(ring, from, a + b)
  {
  }

  lemma CopyInv(s: State)
    requires Inv(s) && Enabled(s, PushCopy)
    ensures Inv(Apply(s, PushCopy))
  {
    hide Stored, PcmOf;
    var p := s.producer;
    var x, s' := p.data[p.copied], Apply(s, PushCopy);
    StoredElsewhere(s.ring, s.read, s.accepted[s.read..], p.at + p.copied, x);
    StoredMore(s.ring, p.at, p.data[..p.copied], x);
    assert p.data[..p.copied + 1] == p.data[..p.copied] + [x];
  }

  lemma PublishInv(s: State)
    requires Inv(s) && Enabled(s, PushPublish)
    ensures Inv(Apply(s, PushPublish))
  {
    hide Stored, PcmOf;
    var p, s' := s.producer, Apply(s, PushPublish);
    assert p.data[..p.copied] == p.data;
    StoredJoin(s.ring, s.read, s.accepted[s.read..], p.data);
    assert s'.accepted[s'.read..] == s.accepted[s.read..] + p.data;
    assert s'.accepted[..|s.file|] == s.accepted[..|s.file|];
    match s.consumer
    case Idle =>
    case Draining(_, cursor, _) => assert s'.accepted[s.read..cursor] == s.accepted[s.read..cursor];
    case Saving(_) => assert s'.accepted[|s.file|..s.read] == s.accepted[|s.file|..s.read];
  }

  lemma DrainReadInv(s: State)
    requires Inv(s) && Enabled(s, DrainRead)
    ensures Inv(Apply(s, DrainRead))
  {
  }

  lemma PcmOfOne(x: real)
    ensures PcmOf([x]) == [Pcm(x)]
  {
  }

  lemma DrainPublishInv(s: State)
    requires Inv(s) && Enabled(s, DrainPublish)
    ensures Inv(Apply(s, DrainPublish))
  {
  }

  lemma DrainSaveInv(s: State)
    requires Inv(s) && Enabled(s, DrainSave)
    ensures Inv(Apply(s, DrainSave))
  {
  }

  lemma DrainStartInv(s: State, write: nat)
    requires Inv(s) && Enabled(s, DrainStart(write))
    ensures Inv(Apply(s, DrainStart(write)))
  {
  }

  lemma PushDecideInv(s: State, read: nat)
    requires Inv(s) && Enabled(s, PushDecide(read))
    ensures Inv(Apply(s, PushDecide(read)))
  {
    hide PcmOf;
    assert s.producer.data[..0] == [];
  }

  lemma PushStartInv(s: State, data: seq<real>)
    requires Inv(s) && Enabled(s, PushStart(data))
    ensures Inv(Apply(s, PushStart(data)))
  {
  }

  lemma StepInv(s: State, step: Step)
    requires Inv(s) && Enabled(s, step)
    ensures Inv(Apply(s, step))
  {
    hide Inv, Apply, Enabled;
    match step
    case PushStart(data) => PushStartInv(s, data);
    case PushDecide(read) => PushDecideInv(s, read);
    case PushCopy => CopyInv(s);
    case PushPublish => PublishInv(s);
    case DrainStart(write) => DrainStartInv(s, write);
    case DrainRead => DrainReadInv(s);
    case DrainPublish => DrainPublishInv(s);
    case DrainSave => DrainSaveInv(s);
  }

  // ----------------------------------------------------------------------- runs

  predicate Legal(s: State, steps: seq<Step>)
    decreases |steps|
  {
    steps == [] || (Enabled(s, steps[0]) && Legal(Apply(s, steps[0]), steps[1..]))
  }

  function After(s: State, steps: seq<Step>): State
    requires Legal(s, steps)
    decreases |steps|
  {
    if steps == [] then s else After(Apply(s, steps[0]), steps[1..])
  }

  lemma {:induction false} RunInv(s: State, steps: seq<Step>)
    requires Inv(s) && Legal(s, steps)
    ensures Inv(After(s, steps))
    decreases |steps|
  {
    hide Inv, Apply, Enabled;
    if steps != [] {
      StepInv(s, steps[0]);
      RunInv(Apply(s, steps[0]), steps[1..]);
    }
  }

  /** However stale the loads, the room computed by a push never wraps and never
      exceeds what is truly free. */
  lemma FreeIsTrue(size: nat, steps: seq<Step>, read: nat)
    requires size > 0 && Legal(Init(size), steps)
    requires Enabled(After(Init(size), steps), PushDecide(read))
    ensures var s := After(Init(size), steps);
      0 <= Free(size, s.producer.at, read) <= size - (s.write - s.read) <= size
  {
    hide Stored, PcmOf, Enabled, Apply;
    InitInv(size);
    RunInv(Init(size), steps);
    KeepsSize(Init(size), steps);
    DecideFacts(After(Init(size), steps), read);
  }

  lemma DecideFacts(s: State, read: nat)
    requires Inv(s) && Enabled(s, PushDecide(read))
    ensures s.seenRead <= read <= s.read <= s.write && s.producer.at == s.write && s.write - s.seenRead <= |s.ring|
  {
  }

  lemma {:induction false} KeepsSize(s: State, steps: seq<Step>)
    requires Legal(s, steps)
    ensures |After(s, steps).ring| == |s.ring|
    decreases |steps|
  {
    if steps != [] { KeepsSize(Apply(s, steps[0]), steps[1..]); }
  }

  /** At every step of every run the file is the conversion of a prefix of the accepted
      samples in order, everything accepted is saved, in the consumer's hands or still
      buffered, and every sample pushed is accepted, in hand or dropped with its push. */
  lemma NothingLost(size: nat, steps: seq<Step>)
    requires size > 0 && Legal(Init(size), steps)
    ensures var s := After(Init(size), steps);
      && |s.file| <= s.read <= s.write == |s.accepted|
      && s.file == PcmOf(s.accepted[..|s.file|])
      && s.pushed == |s.accepted| + InHand(s) + s.droppedSamples
      && s.droppedSamples == 2 * s.framesDropped + s.oddDrops
      && |s.file| == 2 * s.framesWritten + s.oddDrains
      && (s.consumer.Idle? && s.read == s.write ==> s.file == PcmOf(s.accepted))
  {
    hide Stored, PcmOf, Enabled, Apply;
    InitInv(size);
    RunInv(Init(size), steps);
    var s := After(Init(size), steps);
    assert s.accepted[..|s.accepted|] == s.accepted;
  }

  // ----------------------------------------------------------------- what gets done

  function Repeat(step: Step, n: nat): (r: seq<Step>)
    ensures |r| == n
  {
    if n == 0 then [] else [step] + Repeat(step, n - 1)
  }

  lemma First(s: State, step: Step, rest: seq<Step>)
    requires Enabled(s, step) && Legal(Apply(s, step), rest)
    ensures Legal(s, [step] + rest) && After(s, [step] + rest) == After(Apply(s, step), rest)
  {
    var steps := [step] + rest;
    assert steps[0] == step && steps[1..] == rest;
  }

  /** The steps of a drain that finds everything up to the latest position. */
  function DrainSteps(s: State): seq<Step>
    requires Inv(s)
  {
    if s.write == s.read then [DrainStart(s.write)]
    else [DrainStart(s.write)] + (Repeat(DrainRead, s.write - s.read) + [DrainPublish, DrainSave])
  }

  /** The steps of a push that finds the latest room. */
  function PushSteps(s: State, data: seq<real>): seq<Step>
    requires Inv(s)
  {
    if |data| > |s.ring| - (s.write - s.read) then [PushStart(data)] + [PushDecide(s.read)]
    else [PushStart(data)] + ([PushDecide(s.read)] + (Repeat(PushCopy, |data|) + [PushPublish]))
  }

  lemma {:induction false} ReadsOn(s: State)
    requires Inv(s) && s.consumer.Draining? && s.consumer.target == s.write
    ensures var steps := Repeat(DrainRead, s.write - s.consumer.cursor) + [DrainPublish, DrainSave];
      && Legal(s, steps)
      && var t := After(s, steps);
         && t.consumer.Idle? && t.file == PcmOf(s.accepted)
         && t.framesWritten == s.framesWritten + (s.write - s.read) / 2
         && (t.read, t.write, t.accepted, t.producer) == (s.write, s.write, s.accepted, s.producer)
    decreases s.write - s.consumer.cursor
  {
    hide PcmOf, Stored, Repeat;
    var n := s.write - s.consumer.cursor;
    RepeatMore(DrainRead, n);
    if n == 0 {
      SavesRead(s);
      assert Repeat(DrainRead, 0) + [DrainPublish, DrainSave] == [DrainPublish] + [DrainSave];
    } else {
      var s' := Apply(s, DrainRead);
      StepInv(s, DrainRead);
      ReadsOn(s');
      var rest := Repeat(DrainRead, n - 1) + [DrainPublish, DrainSave];
      First(s, DrainRead, rest);
      assert Repeat(DrainRead, n) + [DrainPublish, DrainSave] == [DrainRead] + rest;
    }
  }

  lemma RepeatMore(step: Step, n: nat)
    ensures Repeat(step, n) == if n == 0 then [] else [step] + Repeat(step, n - 1)
  {
  }

  lemma SavesRead(s: State)
    requires Inv(s) && s.consumer.Draining? && s.consumer.target == s.consumer.cursor == s.write
    ensures var steps := [DrainPublish] + [DrainSave];
      && Legal(s, steps)
      && var t := After(s, steps);
         && t.consumer.Idle? && t.file == PcmOf(s.accepted)
         && t.framesWritten == s.framesWritten + (s.write - s.read) / 2
         && (t.read, t.write, t.accepted, t.producer) == (s.write, s.write, s.accepted, s.producer)
  {
    hide Stored;
    var s1 := Apply(s, DrainPublish);
    First(s1, DrainSave, []);
    First(s, DrainPublish, [DrainSave] + []);
    assert [DrainSave] + [] == [DrainSave];
    PcmOfJoin(s.accepted[..|s.file|], s.accepted[s.read..]);
    assert s.accepted[..|s.file|] + s.accepted[s.read..] == s.accepted;
  }

  /** In every run, whenever the consumer is idle one drain of its own steps saves everything
      accepted and leaves the producer alone. */
  lemma DrainsAll(size: nat, steps: seq<Step>)
    requires size > 0 && Legal(Init(size), steps) && After(Init(size), steps).consumer.Idle?
    ensures var s := After(Init(size), steps);
      && Inv(s) && Legal(s, DrainSteps(s))
      && var t := After(s, DrainSteps(s));
         && t.consumer.Idle? && t.file == PcmOf(s.accepted)
         && t.framesWritten == s.framesWritten + (s.write - s.read) / 2
         && (t.read, t.write, t.accepted, t.producer) == (s.write, s.write, s.accepted, s.producer)
  {
    hide Inv, Legal, After, DrainSteps;
    InitInv(size);
    RunInv(Init(size), steps);
    DrainsFrom(After(Init(size), steps));
  }

  lemma DrainsFrom(s: State)
    requires Inv(s) && s.consumer.Idle?
    ensures Legal(s, DrainSteps(s))
    ensures var t := After(s, DrainSteps(s));
      && t.consumer.Idle? && t.file == PcmOf(s.accepted)
      && t.framesWritten == s.framesWritten + (s.write - s.read) / 2
      && (t.read, t.write, t.accepted, t.producer) == (s.write, s.write, s.accepted, s.producer)
  {
    hide Stored, PcmOf, Legal, After, Repeat;
    var s1 := Apply(s, DrainStart(s.write));
    StepInv(s, DrainStart(s.write));
    if s.write == s.read {
      NothingMore(s1);
      First(s, DrainStart(s.write), []);
      assert s.accepted[..|s.file|] == s.accepted;
      assert [DrainStart(s.write)] + [] == [DrainStart(s.write)];
    } else {
      ReadsOn(s1);
      First(s, DrainStart(s.write), Repeat(DrainRead, s.write - s.read) + [DrainPublish, DrainSave]);
    }
  }

  lemma NothingMore(s: State)
    ensures Legal(s, []) && After(s, []) == s
  {
  }

  lemma {:induction false} CopiesOn(s: State)
    requires Inv(s) && s.producer.Copying?
    ensures var p := s.producer; var steps := Repeat(PushCopy, |p.data| - p.copied) + [PushPublish];
      && Legal(s, steps)
      && var t := After(s, steps);
         && t.producer.Resting? && t.accepted == s.accepted + p.data && t.write == s.write + |p.data|
         && (t.read, t.consumer, t.file, t.framesDropped) == (s.read, s.consumer, s.file, s.framesDropped)
    decreases |s.producer.data| - s.producer.copied
  {
    hide PcmOf, Stored, Repeat;
    var n := |s.producer.data| - s.producer.copied;
    RepeatMore(PushCopy, n);
    if n == 0 {
      First(s, PushPublish, []);
      assert Repeat(PushCopy, 0) + [PushPublish] == [PushPublish] + [];
    } else {
      var s' := Apply(s, PushCopy);
      StepInv(s, PushCopy);
      CopiesOn(s');
      var rest := Repeat(PushCopy, n - 1) + [PushPublish];
      First(s, PushCopy, rest);
      assert Repeat(PushCopy, n) + [PushPublish] == [PushCopy] + rest;
    }
  }

  /** And whenever the producer rests one push of its own steps is accepted whole when it
      fits behind what is still unread and is dropped and counted otherwise. */
  lemma PushesWhole(size: nat, steps: seq<Step>, data: seq<real>)
    requires size > 0 && Legal(Init(size), steps) && After(Init(size), steps).producer.Resting?
    ensures var s := After(Init(size), steps);
      && Inv(s) && Legal(s, PushSteps(s, data))
      && var t, fits := After(s, PushSteps(s, data)), |data| <= size - (s.write - s.read);
         && t.producer.Resting? && t.accepted == s.accepted + (if fits then data else [])
         && t.framesDropped == s.framesDropped + (if fits then 0 else |data| / 2)
         && (t.read, t.consumer, t.file) == (s.read, s.consumer, s.file)
  {
    hide Inv, Legal, After, PushSteps;
    InitInv(size);
    RunInv(Init(size), steps);
    KeepsSize(Init(size), steps);
    PushesFrom(After(Init(size), steps), data);
  }

  lemma PushesFrom(s: State, data: seq<real>)
    requires Inv(s) && s.producer.Resting?
    ensures Legal(s, PushSteps(s, data))
    ensures var t, fits := After(s, PushSteps(s, data)), |data| <= |s.ring| - (s.write - s.read);
      && t.producer.Resting? && t.accepted == s.accepted + (if fits then data else [])
      && t.framesDropped == s.framesDropped + (if fits then 0 else |data| / 2)
      && (t.read, t.consumer, t.file) == (s.read, s.consumer, s.file)
  {
    hide Stored, PcmOf, Legal, After, Repeat;
    var s1 := Apply(s, PushStart(data));
    StepInv(s, PushStart(data));
    var s2 := Apply(s1, PushDecide(s.read));
    StepInv(s1, PushDecide(s.read));
    if |data| > |s.ring| - (s.write - s.read) {
      NothingMore(s2);
      First(s1, PushDecide(s.read), []);
      assert [PushDecide(s.read)] + [] == [PushDecide(s.read)];
      First(s, PushStart(data), [PushDecide(s.read)]);
    } else {
      CopiesOn(s2);
      First(s1, PushDecide(s.read), Repeat(PushCopy, |data|) + [PushPublish]);
      First(s, PushStart(data), [PushDecide(s.read)] + (Repeat(PushCopy, |data|) + [PushPublish]));
    }
  }

  /** All pushes hold whole stereo frames. */
  predicate WholeFrames(steps: seq<Step>) {
    forall i :: 0 <= i < |steps| && steps[i].PushStart? ==> |steps[i].data| % 2 == 0
  }

  predicate EvenState(s: State) {
    && s.oddDrops == 0 && s.oddDrains == 0
    && (forall w :: w in s.writeStores ==> w % 2 == 0) && s.write % 2 == 0 && s.read % 2 == 0 && |s.file| % 2 == 0
    && (!s.producer.Resting? ==> |s.producer.data| % 2 == 0)
    && (s.consumer.Draining? ==> s.consumer.target % 2 == 0)
  }

  lemma EvenStep(s: State, step: Step)
    requires Inv(s) && Enabled(s, step) && EvenState(s) && (step.PushStart? ==> |step.data| % 2 == 0)
    ensures EvenState(Apply(s, step))
  {
    hide Stored, Pcm, Slot, PcmOf, CountsOk;
  }

  lemma {:induction false} EvenRun(s: State, steps: seq<Step>)
    requires Inv(s) && Legal(s, steps) && EvenState(s) && WholeFrames(steps)
    ensures EvenState(After(s, steps))
    decreases |steps|
  {
    hide Inv, Apply, Enabled, EvenState;
    if steps != [] {
      StepInv(s, steps[0]);
      EvenStep(s, steps[0]);
      EvenRun(Apply(s, steps[0]), steps[1..]);
    }
  }

  /** With whole stereo frames, frames written, dropped, in hand and buffered add up to
      the frames pushed, at every step. */
  lemma FramesBalance(size: nat, steps: seq<Step>)
    requires size > 0 && Legal(Init(size), steps) && WholeFrames(steps)
    ensures var s := After(Init(size), steps);
      |s.file| <= s.write &&
      s.framesWritten + s.framesDropped + (s.write - |s.file|) / 2 + InHand(s) / 2 == s.pushed / 2
  {
    hide Enabled, Apply, PcmOf;
    InitInv(size);
    NothingLost(size, steps);
    EvenRun(Init(size), steps);
  }

  /** For any pushes, the frame counters account for every sample exactly as long as no
      dropped push and no drained batch had an odd length. */
  lemma FramesBalanceExactly(size: nat, steps: seq<Step>)
    requires size > 0 && Legal(Init(size), steps)
    ensures var s := After(Init(size), steps);
      |s.file| <= s.write &&
      (2 * (s.framesWritten + s.framesDropped) + (s.write - |s.file|) + InHand(s) == s.pushed
       <==> s.oddDrops == 0 && s.oddDrains == 0)
  {
    hide Enabled, Apply, PcmOf;
    NothingLost(size, steps);
  }

  /** A push with half a frame is where the counters part from the samples: a dropped
      one is counted as less than it held. */
  lemma HalfFrameMiscounted(data: seq<real>)
    requires |data| == 3
    ensures Legal(Init(2), [PushStart(data), PushDecide(0)])
    ensures var s := After(Init(2), [PushStart(data), PushDecide(0)]);
      s.droppedSamples == 3 && s.framesDropped == 1 && s.oddDrops == 1
  {
    var s0 := Init(2);
    var s1 := Apply(s0, PushStart(data));
    var steps := [PushStart(data), PushDecide(0)];
    assert steps[1..] == [PushDecide(0)] && [PushDecide(0)][1..] == [];
    assert Legal(Apply(s1, PushDecide(0)), []);
    assert Legal(s1, [PushDecide(0)]);
  }

  // ------------------------------------------------------------------- recorder

  const MAX_DATA_BYTES: nat := 0xFFFF_FFDB

  /** The `n` samples held from a position on. */
  function Unread(ring: seq<real>, from: nat, n: nat): (r: seq<real>)
    requires n <= |ring|
    ensures |r| == n
  {
    seq(n, k requires 0 <= k < n => ring[Slot(from + k, |ring|)])
  }

  lemma StoredIsUnread(ring: seq<real>, from: nat, samples: seq<real>)
    requires |samples| <= |ring| && ring != []
    ensures Stored(ring, from, samples) <==> Unread(ring, from, |samples|) == samples
  {
  }

  lemma UnreadTail(ring: seq<real>, from: nat, n: nat, m: nat)
    requires m <= n <= |ring|
    ensures Unread(ring, from + m, n - m) == Unread(ring, from, n)[m..]
  {
  }

  /** The recorder itself.  `seenRead` and `seenWrite` are the positions a routine loads
      of the other side's, which may be old; `FreeIsTrue` and `NothingLost` show that the
      protocol keeps them in the ranges assumed here. */
  class OutputRecorder {
    var open: bool
    var running: bool
    var ring: array<real>
    var write: nat
    var read: nat
    var framesWritten: nat
    var framesDropped: nat
    var file: seq<int>
    var headerBytes: nat

    predicate Valid()
      reads this
    {
      read <= write <= read + ring.Length && (running ==> open)
    }

    /** The samples kept and not yet drained. */
    function Buffered(): (r: seq<real>)
      requires Valid()
      reads this, ring
      ensures |r| == write - read
    {
      Unread(ring[..], read, write - read)
    }

    constructor Start(sampleRate: nat, bufferSeconds: nat)
      requires sampleRate > 0 && bufferSeconds > 0
      ensures Valid() && fresh(ring) && running && open
      ensures ring.Length == sampleRate * 2 * bufferSeconds
      ensures Buffered() == [] && file == [] && framesWritten == framesDropped == headerBytes == 0
    {
      ring := new real[sampleRate * 2 * bufferSeconds](_ => 0.0);
      open, running, write, read, framesWritten, framesDropped := true, true, 0, 0, 0, 0;
      file, headerBytes := [], 0;
    }

    /** A push is kept whole, behind everything already buffered, or dropped whole.  One
        that fits what is truly free can still be dropped, when the load was old. */
    method Push(data: seq<real>, seenRead: nat) returns (ghost kept: bool)
      requires Valid() && seenRead <= read && write - seenRead <= ring.Length
      modifies `write, `framesDropped, ring
      ensures Valid()
      ensures kept <==> running && ring.Length > 0 && |data| <= Free(ring.Length, old(write), seenRead)
      ensures Buffered() == if kept then old(Buffered()) + data else old(Buffered())
      ensures write == old(write) + if kept then |data| else 0
      ensures framesDropped == old(framesDropped)
                               + if kept || !running || ring.Length == 0 then 0 else |data| / 2
    {
      hide Slot, Stored;
      kept := false;
      if !running || ring.Length == 0 {
        return;
      }
      var free := ring.Length - (write - seenRead);
      if |data| > free {
        framesDropped := framesDropped + |data| / 2;
        return;
      }
      kept := true;
      ghost var before := Buffered();
      StoredIsUnread(ring[..], read, before);
      StoredNothing(ring[..], write);
      assert data[..0] == [];
      var i := 0;
      while i < |data|
        invariant 0 <= i <= |data|
        invariant Stored(ring[..], read, before) && Stored(ring[..], write, data[..i])
        invariant framesDropped == old(framesDropped) && write == old(write)
      {
        ghost var was := ring[..];
        ring[Slot(write + i, ring.Length)] := data[i];
        assert ring[..] == was[Slot(write + i, |was|) := data[i]];
        StoredElsewhere(was, read, before, write + i, data[i]);
        StoredMore(was, write, data[..i], data[i]);
        assert data[..i + 1] == data[..i] + [data[i]];
        i := i + 1;
      }
      assert data[..|data|] == data;
      StoredJoin(ring[..], read, before, data);
      StoredIsUnread(ring[..], read, before + data);
      write := write + |data|;
    }

    /** Converts and saves, in order, every buffered sample up to the position loaded, and
        frees exactly those. */
    method Drain(seenWrite: nat) returns (more: bool)
      requires Valid() && read <= seenWrite <= write
      modifies `read, `framesWritten, `file
      ensures Valid()
      ensures more <==> seenWrite != old(read)
      ensures read == seenWrite
      ensures file == old(file) + PcmOf(old(Buffered())[..seenWrite - old(read)])
      ensures Buffered() == old(Buffered())[seenWrite - old(read)..]
      ensures framesWritten == old(framesWritten) + (seenWrite - old(read)) / 2
    {
      ghost var before := Buffered();
      UnreadTail(ring[..], read, write - read, seenWrite - read);
      if seenWrite == read {
        assert PcmOf(before[..0]) == [];
        return false;
      }
      var pcm: seq<int>, cursor := [], read;
      while cursor != seenWrite
        invariant file == old(file) && framesWritten == old(framesWritten) && read == old(read)
        invariant read <= cursor <= seenWrite
        invariant pcm == PcmOf(before[..cursor - read])
        decreases seenWrite - cursor
      {
        var sample := ring[Slot(cursor, ring.Length)];
        assert before[cursor - read] == sample;
        assert before[..cursor + 1 - read] == before[..cursor - read] + [sample];
        PcmOfJoin(before[..cursor - read], [sample]);
        PcmOfOne(sample);
        pcm := pcm + [Pcm(sample)];
        cursor := cursor + 1;
      }
      read := cursor;
      file := file + pcm;
      framesWritten := framesWritten + |pcm| / 2;
      more := true;
    }

    /** Stopping saves whatever is still buffered and writes the final length, at most
        once. */
    method Stop()
      requires Valid()
      modifies `open, `running, `read, `framesWritten, `file, `headerBytes
      ensures Valid() && !open
      ensures !old(open) ==> unchanged(this)
      ensures old(open) ==>
        && !running && Buffered() == []
        && file == old(file) + PcmOf(old(Buffered()))
        && framesWritten == old(framesWritten) + (write - old(read)) / 2
      ensures old(open) ==>
        headerBytes == if framesWritten * 4 <= MAX_DATA_BYTES then framesWritten * 4 else MAX_DATA_BYTES
    {
      if !open {
        return;
      }
      running := false;
      ghost var before := Buffered();
      assert before[..write - read] == before;
      var _ := Drain(write);
      headerBytes := if framesWritten * 4 < MAX_DATA_BYTES then framesWritten * 4 else MAX_DATA_BYTES;
      open := false;
    }
  }
}
