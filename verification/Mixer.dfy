/**
  The voice mixer: queues of buffers played at a fractional position, with loops,
  a byte budget and completions.  Positions, steps and samples are exact numbers.
*/
module Mixer {
  const MAX_BUFFERS := 64
  const MAX_BYTES := 16 * 1024 * 1024
  const SAMPLE_BYTES := 4
  const INFINITE := 255
  const FOLD_GAIN := 0.70710678

  type U32 = n: nat | n < 0x1_0000_0000
  type U8 = n: nat | n < 0x100

  datatype Pair = Pair(left: real, right: real)

  datatype Buffer = Buffer(
    samples: seq<real>, channels: U32, loopStart: U32, loopEnd: U32, loopCount: U8, tag: nat)

  datatype Queued = Queued(buffer: Buffer, position: real, loops: U8)

  /** `notify` tells whether the voice has a completion callback. */
  datatype Voice = Voice(
    rate: U32, channels: U32, left: real, right: real, volume: real, pitch: real,
    running: bool, notify: bool, queue: seq<Queued>, queuedBytes: nat)

  function FrameCount(b: Buffer): nat {
    if b.channels == 0 then 0 else |b.samples| / b.channels
  }

  function Bytes(b: Buffer): nat {
    |b.samples| * SAMPLE_BYTES
  }

  /** What `submit` lets into a queue. */
  predicate Playable(b: Buffer) {
    && b.channels > 0 && b.samples != [] && |b.samples| % b.channels == 0
    && (b.loopCount != 0 ==> b.loopStart < b.loopEnd <= FrameCount(b))
    && Bytes(b) <= MAX_BYTES
  }

  lemma PlayableFrames(b: Buffer)
    requires Playable(b)
    ensures FrameCount(b) > 0 && |b.samples| == FrameCount(b) * b.channels
  {
    assert |b.samples| == |b.samples| / b.channels * b.channels + |b.samples| % b.channels;
  }

  // ------------------------------------------------------------------ positions

  function LoopEnd(b: Buffer): nat {
    if b.loopEnd != 0 then b.loopEnd else FrameCount(b)
  }

  function LoopLength(b: Buffer): nat {
    if LoopEnd(b) > b.loopStart then LoopEnd(b) - b.loopStart else 0
  }

  /** One jump back from the loop end. */
  function Wrapped(q: Queued): Queued
    requires q.loops != 0
  {
    q.(position := q.buffer.loopStart as real + (q.position - LoopEnd(q.buffer) as real),
       loops := if q.loops != INFINITE then q.loops - 1 else q.loops)
  }

  predicate PastLoop(q: Queued) {
    q.loops != 0 && q.position >= LoopEnd(q.buffer) as real
  }

  /** Every pending jump back. */
  function Normalized(q: Queued): Queued
    requires LoopLength(q.buffer) > 0
    decreases if PastLoop(q) then (q.position - LoopEnd(q.buffer) as real).Floor + 1 else 0
  {
    if PastLoop(q) then Normalized(Wrapped(q)) else q
  }

  /** The buffer at its next position, and whether that position still plays. */
  function Normalize(q: Queued): (Queued, bool) {
    if FrameCount(q.buffer) == 0 then (q, false)
    else if q.loops != 0 && LoopLength(q.buffer) == 0 then (q, false)
    else
      var n := if q.loops != 0 then Normalized(q) else q;
      (n, n.position < FrameCount(q.buffer) as real)
  }

  method NormalizePosition(q: Queued) returns (q': Queued, plays: bool)
    ensures (q', plays) == Normalize(q)
  {
    q' := q;
    var frames := FrameCount(q.buffer);
    if frames == 0 { return q, false; }
    if q.loops != 0 {
      var loopStart := q.buffer.loopStart;
      var loopEnd := if q.buffer.loopEnd != 0 then q.buffer.loopEnd else frames;
      var loopLength := if loopEnd > loopStart then loopEnd - loopStart else 0;
      if loopLength == 0 { return q, false; }
      while q'.position >= loopEnd as real && q'.loops != 0
        invariant q'.buffer == q.buffer && Normalized(q') == Normalized(q)
        decreases if PastLoop(q') then (q'.position - loopEnd as real).Floor + 1 else 0
      {
        q' := q'.(position := loopStart as real + (q'.position - loopEnd as real));
        if q'.loops != INFINITE { q' := q'.(loops := q'.loops - 1); }
      }
    }
    plays := q'.position < frames as real;
  }

  lemma {:induction false} NormalizedStays(q: Queued)
    requires LoopLength(q.buffer) > 0
    ensures !PastLoop(Normalized(q)) && Normalized(q).buffer == q.buffer
    ensures Normalized(Normalized(q)) == Normalized(q)
    decreases if PastLoop(q) then (q.position - LoopEnd(q.buffer) as real).Floor + 1 else 0
  {
    if PastLoop(q) { NormalizedStays(Wrapped(q)); }
  }

  /** `normalize_position` done twice is `normalize_position` done once. */
  lemma NormalizeIdempotent(q: Queued)
    ensures Normalize(Normalize(q).0) == Normalize(q)
    ensures Normalize(q).0.buffer == q.buffer
  {
    if LoopLength(q.buffer) > 0 { NormalizedStays(q); }
  }

  // -------------------------------------------------------------------- playing

  /** A voice whose finished front buffers are gone; the tags of their completions. */
  function Drain(v: Voice): (Voice, seq<nat>)
    decreases |v.queue|
  {
    if v.queue == [] then (v, [])
    else
      var (q, plays) := Normalize(v.queue[0]);
      if plays then (v.(queue := [q] + v.queue[1..]), [])
      else
        var bytes := Bytes(q.buffer);
        var rest := v.(queue := v.queue[1..],
                       queuedBytes := if bytes > v.queuedBytes then 0 else v.queuedBytes - bytes);
        var (v', tags) := Drain(rest);
        (v', (if v.notify then [q.buffer.tag] else []) + tags)
  }

  function Index0(q: Queued): nat
    requires q.position >= 0.0
  {
    q.position.Floor
  }

  function Index1(q: Queued): nat
    requires q.position >= 0.0
  {
    var next := Index0(q) + 1;
    if q.loops != 0 then (if next >= LoopEnd(q.buffer) then q.buffer.loopStart else next)
    else if next >= FrameCount(q.buffer) then Index0(q) else next
  }

  function Fold(samples: seq<real>): real {
    if samples == [] then 0.0 else Fold(samples[..|samples| - 1]) + samples[|samples| - 1]
  }

  /** The frame at `base` of a run of samples as a stereo pair. */
  function Stereo(samples: seq<real>, base: nat, channels: nat): Pair
    requires channels > 0 && base + channels <= |samples|
  {
    if channels == 1 then Pair(samples[base], samples[base])
    else if channels == 2 then Pair(samples[base], samples[base + 1])
    else if channels == 6 then
      var center := samples[base + 2] * FOLD_GAIN;
      Pair(samples[base] + center + samples[base + 4] * FOLD_GAIN,
           samples[base + 1] + center + samples[base + 5] * FOLD_GAIN)
    else
      var folded := Fold(samples[base + 2..base + channels]) * (0.5 / (channels - 2) as real);
      Pair(samples[base] + folded, samples[base + 1] + folded)
  }

  /** Frame `index` of a buffer as a stereo pair; past its end, the last one. */
  function StereoAt(b: Buffer, index: nat): Pair
    requires Playable(b)
  {
    PlayableFrames(b);
    var frame := if index < FrameCount(b) then index else FrameCount(b) - 1;
    FrameInside(b, frame);
    Stereo(b.samples, frame * b.channels, b.channels)
  }

  lemma FrameInside(b: Buffer, frame: nat)
    requires Playable(b) && frame < FrameCount(b)
    ensures frame * b.channels + b.channels <= |b.samples|
  {
    PlayableFrames(b);
    assert (frame + 1) * b.channels <= FrameCount(b) * b.channels;
  }

  function Interpolated(q: Queued): Pair
    requires Playable(q.buffer) && q.position >= 0.0
  {
    var a, b := StereoAt(q.buffer, Index0(q)), StereoAt(q.buffer, Index1(q));
    var fraction := q.position - Index0(q) as real;
    Pair(a.left + (b.left - a.left) * fraction, a.right + (b.right - a.right) * fraction)
  }

  function Routed(v: Voice, p: Pair): Pair {
    Pair(p.left * v.volume * v.left, p.right * v.volume * v.right)
  }

  predicate QueuedOk(q: Queued) {
    Playable(q.buffer) && q.position >= 0.0 && (q.loops != 0 ==> q.buffer.loopCount != 0)
  }

  function TotalBytes(queue: seq<Queued>): nat {
    if queue == [] then 0 else Bytes(queue[0].buffer) + TotalBytes(queue[1..])
  }

  /** What every operation keeps of a voice: the byte counter is exact and in budget. */
  predicate VoiceOk(v: Voice) {
    && v.rate > 0 && v.channels > 0 && v.pitch > 0.0
    && |v.queue| <= MAX_BUFFERS
    && (forall i :: 0 <= i < |v.queue| ==> QueuedOk(v.queue[i]))
    && v.queuedBytes == TotalBytes(v.queue) <= MAX_BYTES
  }

  lemma {:induction false} NormalizedOk(q: Queued)
    requires QueuedOk(q) && LoopLength(q.buffer) > 0
    ensures QueuedOk(Normalized(q))
    decreases if PastLoop(q) then (q.position - LoopEnd(q.buffer) as real).Floor + 1 else 0
  {
    if PastLoop(q) { NormalizedOk(Wrapped(q)); }
  }

  lemma NormalizeOk(q: Queued)
    requires QueuedOk(q)
    ensures QueuedOk(Normalize(q).0) && Normalize(q).0.buffer == q.buffer
    ensures q.loops != 0 ==> LoopLength(q.buffer) > 0
    ensures Normalize(q).1 ==> !PastLoop(Normalize(q).0)
  {
    PlayableFrames(q.buffer);
    if q.loops != 0 { NormalizedOk(q); NormalizedStays(q); }
  }

  /** Both interpolation indices of a playing position lie inside the buffer. */
  lemma IndicesInside(q: Queued)
    requires QueuedOk(q) && Normalize(q).1
    ensures var n := Normalize(q).0;
      n.position >= 0.0 && Index0(n) < FrameCount(n.buffer) && Index1(n) < FrameCount(n.buffer)
  {
    NormalizeOk(q);
  }

  /** Draining keeps the voice sound: in particular the byte counter never needs its clamp. */
  lemma {:induction false} DrainOk(v: Voice)
    requires VoiceOk(v)
    ensures var d := Drain(v).0;
      && VoiceOk(d) && d == v.(queue := d.queue, queuedBytes := d.queuedBytes)
      && |d.queue| <= |v.queue|
      && (d.queue != [] ==> Normalize(d.queue[0]) == (d.queue[0], true))
    ensures v.queue != [] ==> Bytes(v.queue[0].buffer) <= v.queuedBytes
    decreases |v.queue|
  {
    if v.queue != [] {
      var (q, plays) := Normalize(v.queue[0]);
      NormalizeOk(v.queue[0]);
      NormalizeIdempotent(v.queue[0]);
      if plays {
        assert ([q] + v.queue[1..])[1..] == v.queue[1..];
      } else {
        DrainOk(v.(queue := v.queue[1..], queuedBytes := v.queuedBytes - Bytes(q.buffer)));
      }
    }
  }

  lemma DrainTwice(v: Voice)
    requires VoiceOk(v)
    ensures Drain(Drain(v).0) == (Drain(v).0, [])
  {
    DrainOk(v);
    var d := Drain(v).0;
    if d.queue != [] { assert [d.queue[0]] + d.queue[1..] == d.queue; }
  }

  function Moved(v: Voice, step: real): Voice
    requires v.queue != []
  {
    v.(queue := [v.queue[0].(position := v.queue[0].position + step)] + v.queue[1..])
  }

  lemma MovedOk(v: Voice, step: real)
    requires VoiceOk(v) && v.queue != [] && step > 0.0
    ensures VoiceOk(Moved(v, step)) && |Moved(v, step).queue| == |v.queue|
    ensures Moved(v, step) == v.(queue := Moved(v, step).queue)
  {
    assert Moved(v, step).queue[1..] == v.queue[1..];
  }

  function FrontSample(v: Voice): Pair
    requires VoiceOk(v) && v.queue != []
  {
    Routed(v, Interpolated(v.queue[0]))
  }

  datatype Played = Played(voice: Voice, output: seq<Pair>, tags: seq<nat>)

  /** At most `n` output frames of a voice, at `step` source frames each. */
  function Play(v: Voice, step: real, n: nat): (r: Played)
    requires VoiceOk(v) && step > 0.0
    ensures |r.output| <= n
    decreases n
  {
    if n == 0 then Played(v, [], [])
    else
      DrainOk(v);
      var (d, tags) := Drain(v);
      if d.queue == [] then Played(d, [], tags)
      else
        MovedOk(d, step);
        var rest := Play(Moved(d, step), step, n - 1);
        Played(rest.voice, [FrontSample(d)] + rest.output, tags + rest.tags)
  }

  lemma {:induction false} PlayOk(v: Voice, step: real, n: nat)
    requires VoiceOk(v) && step > 0.0
    ensures var r := Play(v, step, n).voice;
      VoiceOk(r) && r == v.(queue := r.queue, queuedBytes := r.queuedBytes)
    decreases n
  {
    hide VoiceOk, Moved, Drain, FrontSample;
    if n > 0 {
      DrainOk(v);
      var d := Drain(v).0;
      if d.queue != [] {
        MovedOk(d, step);
        PlayOk(Moved(d, step), step, n - 1);
      }
    }
  }

  function Step(v: Voice, outputRate: U32): real
    requires outputRate > 0
  {
    v.rate as real / outputRate as real * v.pitch
  }

  lemma StepPositive(v: Voice, outputRate: U32)
    requires VoiceOk(v) && outputRate > 0
    ensures Step(v, outputRate) > 0.0
  {
    assert v.rate as real / outputRate as real > 0.0;
  }

  /** What one call of `mix` with `n` output frames does to one voice. */
  function MixVoice(v: Voice, outputRate: U32, n: nat): (r: Played)
    requires VoiceOk(v)
    ensures |r.output| <= n
  {
    if outputRate == 0 || n == 0 || !v.running then Played(v, [], [])
    else
      StepPositive(v, outputRate);
      PlayThenDrain(v, Step(v, outputRate), n)
  }

  /** The output loop and the drain after it. */
  function PlayThenDrain(v: Voice, step: real, n: nat): (r: Played)
    requires VoiceOk(v) && step > 0.0
    ensures |r.output| <= n
  {
    var p := Play(v, step, n);
    var (d, tags) := Drain(p.voice);
    Played(d, p.output, p.tags + tags)
  }

  // ------------------------------------------------------------ chunk invariance

  lemma PlayNone(v: Voice, step: real, m: nat)
    requires VoiceOk(v) && step > 0.0 && v.queue == []
    ensures Play(v, step, m) == Played(v, [], [])
  {
  }

  lemma Join<T>(a: seq<T>, b: seq<T>, c: seq<T>)
    ensures a + (b + c) == (a + b) + c && [] + a == a && a + [] == a
  {
  }

  lemma {:induction false} PlaySplit(v: Voice, step: real, n: nat, m: nat)
    requires VoiceOk(v) && step > 0.0
    ensures VoiceOk(Play(v, step, n).voice)
    ensures var a := Play(v, step, n); var b := Play(a.voice, step, m);
      && Play(v, step, n + m) == Played(b.voice, a.output + b.output, a.tags + b.tags)
      && (|a.output| < n ==> b.output == [] && a.voice.queue == [])
    decreases n
  {
    hide VoiceOk, Moved, Drain, FrontSample;
    PlayOk(v, step, n);
    if n == 0 {
      Join(Play(v, step, m).output, [], []);
      Join(Play(v, step, m).tags, [], []);
    } else {
      DrainOk(v);
      var (d, tags) := Drain(v);
      if d.queue == [] {
        PlayNone(d, step, m);
        Join(tags, [], []);
      } else {
        MovedOk(d, step);
        PlaySplit(Moved(d, step), step, n - 1, m);
        var a := Play(Moved(d, step), step, n - 1);
        var b := Play(a.voice, step, m);
        Join([FrontSample(d)], a.output, b.output);
        Join(tags, a.tags, b.tags);
      }
    }
  }

  lemma PlayAfterDrain(v: Voice, step: real, m: nat)
    requires VoiceOk(v) && step > 0.0 && m > 0
    ensures VoiceOk(Drain(v).0)
    ensures var p := Play(Drain(v).0, step, m);
      Play(v, step, m) == Played(p.voice, p.output, Drain(v).1 + p.tags)
  {
    hide VoiceOk, Moved, Drain, FrontSample;
    DrainOk(v);
    DrainTwice(v);
    var (d, tags) := Drain(v);
    if d.queue != [] {
      MovedOk(d, step);
      Join(Play(Moved(d, step), step, m - 1).tags, [], []);
    } else {
      Join(tags, [], []);
    }
  }

  lemma MixVoiceOk(v: Voice, outputRate: U32, n: nat)
    requires VoiceOk(v)
    ensures var r := MixVoice(v, outputRate, n);
      VoiceOk(r.voice) && r.voice == v.(queue := r.voice.queue, queuedBytes := r.voice.queuedBytes)
  {
    hide VoiceOk, Play, Drain, Step;
    if !(outputRate == 0 || n == 0 || !v.running) {
      StepPositive(v, outputRate);
      PlayOk(v, Step(v, outputRate), n);
      DrainOk(Play(v, Step(v, outputRate), n).voice);
    }
  }

  /** Two calls, the first ending with its own drain, against one. */
  lemma PlayThenDrainSplit(v: Voice, step: real, n: nat, m: nat)
    requires VoiceOk(v) && step > 0.0 && m > 0
    ensures VoiceOk(PlayThenDrain(v, step, n).voice)
    ensures var a := PlayThenDrain(v, step, n); var b := PlayThenDrain(a.voice, step, m);
      && PlayThenDrain(v, step, n + m) == Played(b.voice, a.output + b.output, a.tags + b.tags)
      && (|a.output| < n ==> b.output == [])
  {
    hide VoiceOk, Play, Drain;
    PlaySplit(v, step, n, m);
    var p := Play(v, step, n);
    DrainOk(p.voice);
    PlayAfterDrain(p.voice, step, m);
    var (d, tags) := Drain(p.voice);
    var q := Play(d, step, m);
    var last := Drain(q.voice).1;
    Join(p.tags, tags, q.tags);
    Join(p.tags + tags, q.tags, last);
  }

  lemma SameStep(v: Voice, w: Voice, outputRate: U32)
    requires outputRate > 0 && v.rate == w.rate && v.pitch == w.pitch
    ensures Step(v, outputRate) == Step(w, outputRate)
  {
  }

  /** Chunk invariance: `n + m` output frames in one call give the same samples, the
      same final voice and the same completions as `n` frames and then `m`; and if the
      first call ran out of buffers, the second contributes nothing to be misplaced. */
  lemma ChunkInvariance(v: Voice, outputRate: U32, n: nat, m: nat)
    requires VoiceOk(v)
    ensures VoiceOk(MixVoice(v, outputRate, n).voice)
    ensures var a := MixVoice(v, outputRate, n); var b := MixVoice(a.voice, outputRate, m);
      && MixVoice(v, outputRate, n + m) == Played(b.voice, a.output + b.output, a.tags + b.tags)
      && (|a.output| == n || b.output == [])
  {
    hide VoiceOk, PlayThenDrain, Step;
    MixVoiceOk(v, outputRate, n);
    var a := MixVoice(v, outputRate, n);
    var b := MixVoice(a.voice, outputRate, m);
    Join(a.output, [], []);
    Join(b.output, [], []);
    Join(a.tags, [], []);
    Join(b.tags, [], []);
    if outputRate > 0 && n > 0 && m > 0 && v.running {
      StepPositive(v, outputRate);
      SameStep(v, a.voice, outputRate);
      PlayThenDrainSplit(v, Step(v, outputRate), n, m);
    }
  }

  // --------------------------------------------------------------- loop playback

  /** Source frames left to play, every remaining loop unrolled. */
  function Remaining(q: Queued): real {
    FrameCount(q.buffer) as real + q.loops as real * LoopLength(q.buffer) as real - q.position
  }

  lemma OneLess(count: nat, length: real)
    requires count > 0
    ensures (count - 1) as real * length == count as real * length - length
  {
    assert (count - 1) as real == count as real - 1.0;
  }

  lemma WrappedRemaining(q: Queued)
    requires LoopLength(q.buffer) > 0 && q.loops != 0 && q.loops != INFINITE
    ensures Remaining(Wrapped(q)) == Remaining(q)
  {
    OneLess(q.loops, LoopLength(q.buffer) as real);
    assert LoopLength(q.buffer) as real == LoopEnd(q.buffer) as real - q.buffer.loopStart as real;
  }

  lemma {:induction false} NormalizedRemaining(q: Queued)
    requires LoopLength(q.buffer) > 0 && q.loops != INFINITE
    ensures Remaining(Normalized(q)) == Remaining(q) && Normalized(q).loops != INFINITE
    decreases if PastLoop(q) then (q.position - LoopEnd(q.buffer) as real).Floor + 1 else 0
  {
    hide Remaining;
    if PastLoop(q) {
      WrappedRemaining(q);
      NormalizedRemaining(Wrapped(q));
    }
  }

  /** A finite buffer plays on exactly while some of its unrolled length remains. */
  lemma PlaysWhileRemaining(q: Queued)
    requires QueuedOk(q) && q.loops != INFINITE
    ensures var (n, plays) := Normalize(q);
      (plays <==> Remaining(q) > 0.0) && Remaining(n) == Remaining(q) && n.loops != INFINITE
  {
    NormalizeOk(q);
    var n := Normalize(q).0;
    if q.loops != 0 {
      NormalizedRemaining(q);
      NormalizedStays(q);
      if n.loops != 0 {
        assert n.loops as real * LoopLength(q.buffer) as real >= 0.0;
      }
    }
  }

  function Ceiling(x: real): int {
    -((-x).Floor)
  }

  lemma Cancel(a: real, b: real, step: real)
    requires step > 0.0 && a * step == b * step
    ensures a == b
  {
    assert (a - b) * step == 0.0;
  }

  lemma CeilingStep(x: real, step: real)
    requires step > 0.0
    ensures Ceiling(x / step) == 1 + Ceiling((x - step) / step)
    ensures x > 0.0 <==> Ceiling(x / step) > 0
  {
    var y := x / step;
    assert y * step == x;
    assert (y - 1.0) * step == x - step;
    Cancel((x - step) / step, y - 1.0, step);
    assert (-(y - 1.0)).Floor == (-y).Floor + 1;
    if y > 0.0 { assert y * step > 0.0; } else { assert y * step <= 0.0; }
  }

  /** What is left of the front buffer after one output frame, or nothing to play. */
  lemma DrainAlone(v: Voice)
    requires VoiceOk(v) && |v.queue| == 1 && v.queue[0].loops != INFINITE
    ensures var d := Drain(v).0;
      if Remaining(v.queue[0]) > 0.0 then
        |d.queue| == 1 && Remaining(d.queue[0]) == Remaining(v.queue[0]) && d.queue[0].loops != INFINITE
      else d.queue == []
  {
    hide Normalize, Remaining, QueuedOk;
    var q := v.queue[0];
    PlaysWhileRemaining(q);
    if Normalize(q).1 {
      assert Drain(v).0.queue == [Normalize(q).0] + v.queue[1..];
    } else {
      assert v.queue[1..] == [];
    }
  }

  lemma MovedRemaining(d: Voice, step: real)
    requires |d.queue| == 1
    ensures var w := Moved(d, step);
      |w.queue| == 1 && Remaining(w.queue[0]) == Remaining(d.queue[0]) - step && w.queue[0].loops == d.queue[0].loops
  {
  }

  /** One finite buffer alone yields exactly the ceiling of its unrolled length over the
      step, and after any number of those frames stands at that many steps. */
  lemma {:induction false} PlayAlone(v: Voice, step: real, n: nat)
    requires VoiceOk(v) && step > 0.0 && |v.queue| == 1 && v.queue[0].loops != INFINITE
    ensures var left := Ceiling(Remaining(v.queue[0]) / step);
      var p := Play(v, step, n);
      && |p.output| == (if left < 0 then 0 else if left < n then left else n)
      && (|p.output| == n ==>
            |p.voice.queue| == 1 && Remaining(p.voice.queue[0]) == Remaining(v.queue[0]) - n as real * step)
    decreases n
  {
    hide VoiceOk, Drain, Moved, Remaining, Ceiling, FrontSample;
    CeilingStep(Remaining(v.queue[0]), step);
    if n > 0 {
      DrainOk(v);
      DrainAlone(v);
      var d := Drain(v).0;
      if d.queue != [] {
        MovedOk(d, step);
        MovedRemaining(d, step);
        PlayAlone(Moved(d, step), step, n - 1);
        assert n as real * step == (n - 1) as real * step + step;
      }
    }
  }

  /** A buffer of F frames with c finite loops of length L, just submitted and played
      alone, yields exactly ceil((F + c * L) / step) output frames. */
  lemma LoopPlayback(v: Voice, step: real, n: nat)
    requires VoiceOk(v) && step > 0.0 && |v.queue| == 1
    requires var q := v.queue[0]; q.position == 0.0 && q.loops == q.buffer.loopCount != INFINITE
    ensures var b := v.queue[0].buffer;
      var total := Ceiling((FrameCount(b) + b.loopCount * LoopLength(b)) as real / step);
      total > 0 && |Play(v, step, n).output| == (if total < n then total else n)
  {
    var b := v.queue[0].buffer;
    PlayableFrames(b);
    assert Remaining(v.queue[0]) == (FrameCount(b) + b.loopCount * LoopLength(b)) as real;
    CeilingStep(Remaining(v.queue[0]), step);
    PlayAlone(v, step, n);
  }

  lemma {:induction false} NormalizedInfinite(q: Queued)
    requires QueuedOk(q) && LoopLength(q.buffer) > 0 && q.loops == INFINITE
    ensures Normalized(q).loops == INFINITE
    decreases if PastLoop(q) then (q.position - LoopEnd(q.buffer) as real).Floor + 1 else 0
  {
    if PastLoop(q) { NormalizedInfinite(Wrapped(q)); }
  }

  lemma DrainInfinite(v: Voice)
    requires VoiceOk(v) && v.queue != [] && v.queue[0].loops == INFINITE
    ensures var (d, tags) := Drain(v);
      tags == [] && |d.queue| == |v.queue| && d.queue[0].loops == INFINITE
  {
    var q := v.queue[0];
    NormalizeOk(q);
    NormalizedInfinite(q);
    NormalizedStays(q);
    assert Normalize(q).1;
    assert Drain(v).0.queue == [Normalize(q).0] + v.queue[1..];
  }

  /** An infinite loop never finishes: it fills every output and completes nothing. */
  lemma {:induction false} InfinitePlays(v: Voice, step: real, n: nat)
    requires VoiceOk(v) && step > 0.0 && v.queue != [] && v.queue[0].loops == INFINITE
    ensures var p := Play(v, step, n);
      |p.output| == n && p.tags == [] && |p.voice.queue| == |v.queue| && p.voice.queue[0].loops == INFINITE
    decreases n
  {
    hide VoiceOk, Drain, FrontSample;
    if n > 0 {
      DrainOk(v);
      DrainInfinite(v);
      MovedOk(Drain(v).0, step);
      InfinitePlays(Moved(Drain(v).0, step), step, n - 1);
    }
  }
  // ------------------------------------------------------------ rates and samples

  /** Loops still to be played, as source frames. */
  function Unrolled(q: Queued): real {
    (|q.buffer.samples| / (if q.buffer.channels > 0 then q.buffer.channels else 1)
     + (if q.loops == 0 then 0 else q.loops * (q.buffer.loopEnd - q.buffer.loopStart))) as real - q.position
  }

  lemma UnrolledIs(q: Queued)
    requires QueuedOk(q)
    ensures Unrolled(q) == Remaining(q)
  {
    PlayableFrames(q.buffer);
  }

  /** Source frames a voice moves through in a second. */
  function Pace(v: Voice): real {
    v.rate as real * v.pitch
  }

  /** How far a voice moves per output frame, as the two rates and the pitch say. */
  lemma StepIs(v: Voice, outputRate: U32, x: real)
    requires VoiceOk(v) && outputRate > 0
    ensures Step(v, outputRate) > 0.0 && Pace(v) > 0.0
    ensures x / Step(v, outputRate) == x * outputRate as real / Pace(v)
  {
    hide VoiceOk, Step, Pace;
    StepPositive(v, outputRate);
    RatesPositive(v);
    StepTimes(v, outputRate);
    Exchange(x, Step(v, outputRate), outputRate as real, Pace(v));
  }

  lemma Exchange(x: real, s: real, r: real, p: real)
    requires s > 0.0 && p > 0.0 && s * r == p
    ensures x / s == x * r / p
  {
    var y := x / s;
    assert y * s == x;
    assert y * (s * r) == (y * s) * r;
    Cancel(y, x * r / p, p);
  }

  lemma RatesPositive(v: Voice)
    requires VoiceOk(v)
    ensures Pace(v) > 0.0
  {
  }

  lemma StepTimes(v: Voice, outputRate: U32)
    requires outputRate > 0
    ensures Step(v, outputRate) * outputRate as real == Pace(v)
  {
    var r := outputRate as real;
    var ratio := v.rate as real / r;
    assert ratio * r == v.rate as real;
    assert (ratio * v.pitch) * r == (ratio * r) * v.pitch;
  }

  /** `m` is the least number of output frames, at most `n`, that take a voice of this pace
      through `frames` source frames: ceil(frames * rate / pace). */
  predicate Reaches(m: nat, n: nat, frames: real, rate: U32, pace: real) {
    && pace > 0.0
    && m == Clamped(Ceiling(frames * rate as real / pace), n)
    && (m < n ==> frames * rate as real <= m as real * pace)
    && (m > 0 ==> (m - 1) as real * pace < frames * rate as real)
  }

  function Clamped(total: int, n: nat): nat {
    if total < 0 then 0 else if total < n then total else n
  }

  lemma ReachesExactly(m: nat, n: nat, frames: real, rate: U32, pace: real)
    requires pace > 0.0 && m == Clamped(Ceiling(frames * rate as real / pace), n)
    ensures Reaches(m, n, frames, rate, pace)
  {
    hide Ceiling;
    var source := frames * rate as real;
    CeilingBounds(source, pace);
    BelowCeiling(source, pace, m);
  }

  lemma OutputCount(v: Voice, outputRate: U32, n: nat)
    requires VoiceOk(v) && v.running && outputRate > 0 && |v.queue| == 1 && v.queue[0].loops != INFINITE
    ensures Step(v, outputRate) > 0.0
    ensures |MixVoice(v, outputRate, n).output| == Clamped(Ceiling(Remaining(v.queue[0]) / Step(v, outputRate)), n)
  {
    hide VoiceOk, Play, Drain, Step, Remaining, Ceiling;
    StepPositive(v, outputRate);
    if n > 0 { PlayAlone(v, Step(v, outputRate), n); }
  }

  /** A running voice with one finite buffer, mixed at rate R, yields as many output frames
      as its unrolled length of F + c * L source frames, less its position, takes at
      rate * pitch / R source frames each: ceil((F + c * L - position) * R / (rate * pitch)). */
  lemma OutputLength(v: Voice, outputRate: U32, n: nat)
    requires VoiceOk(v) && v.running && outputRate > 0 && |v.queue| == 1 && v.queue[0].loops != INFINITE
    ensures Reaches(|MixVoice(v, outputRate, n).output|, n, Unrolled(v.queue[0]), outputRate, Pace(v))
  {
    hide VoiceOk, MixVoice, Step, Remaining, Unrolled, Reaches, Pace;
    FrontOk(v);
    UnrolledIs(v.queue[0]);
    OutputCount(v, outputRate, n);
    CountReaches(v, outputRate, n, Unrolled(v.queue[0]), |MixVoice(v, outputRate, n).output|);
  }

  lemma CountReaches(v: Voice, outputRate: U32, n: nat, frames: real, m: nat)
    requires VoiceOk(v) && outputRate > 0 && Step(v, outputRate) > 0.0
    requires m == Clamped(Ceiling(frames / Step(v, outputRate)), n)
    ensures Reaches(m, n, frames, outputRate, Pace(v))
  {
    hide VoiceOk, Step, Reaches, Ceiling, Pace;
    StepIs(v, outputRate, frames);
    ReachesExactly(m, n, frames, outputRate, Pace(v));
  }

  lemma FrontOk(v: Voice)
    requires VoiceOk(v) && v.queue != []
    ensures QueuedOk(v.queue[0])
  {
  }

  lemma CeilingBounds(x: real, pace: real)
    requires pace > 0.0
    ensures x <= Ceiling(x / pace) as real * pace && (Ceiling(x / pace) - 1) as real * pace < x
  {
    hide Ceiling;
    var y, c := x / pace, Ceiling(x / pace);
    var below := (c - 1) as real;
    CeilingIs(y);
    Ordered(y, c as real, pace);
    StrictlyOrdered(below, y, pace);
    Undivided(x, pace);
  }

  lemma CeilingIs(y: real)
    ensures (Ceiling(y) - 1) as real < y <= Ceiling(y) as real
  {
  }

  lemma Undivided(x: real, p: real)
    requires p > 0.0
    ensures x / p * p == x
  {
  }

  lemma Ordered(a: real, b: real, p: real)
    requires a <= b && p > 0.0
    ensures a * p <= b * p
  {
    assert (b - a) * p >= 0.0;
  }

  lemma StrictlyOrdered(a: real, b: real, p: real)
    requires a < b && p > 0.0
    ensures a * p < b * p
  {
    assert (b - a) * p > 0.0;
  }

  lemma BelowCeiling(x: real, pace: real, m: nat)
    requires pace > 0.0
    requires x <= Ceiling(x / pace) as real * pace && (Ceiling(x / pace) - 1) as real * pace < x
    ensures m >= Ceiling(x / pace) ==> x <= m as real * pace
    ensures 0 < m <= Ceiling(x / pace) ==> (m - 1) as real * pace < x
  {
    hide Ceiling;
    var c := Ceiling(x / pace);
    if m >= c { Ordered(c as real, m as real, pace); }
    if 0 < m <= c { Ordered((m - 1) as real, (c - 1) as real, pace); }
  }

  /** The frames of a buffer, every loop unrolled. */
  function UnrolledFrames(b: Buffer): int
    requires b.channels > 0
  {
    |b.samples| / b.channels + (if b.loopCount == 0 then 0 else b.loopCount * (b.loopEnd - b.loopStart))
  }

  lemma JustSubmitted(q: Queued)
    requires QueuedOk(q) && q.position == 0.0 && q.loops == q.buffer.loopCount
    ensures q.buffer.channels > 0 && UnrolledFrames(q.buffer) > 0
    ensures Unrolled(q) == UnrolledFrames(q.buffer) as real
  {
    PlayableFrames(q.buffer);
  }

  /** A buffer of F frames with c loops of length L, just submitted and mixed alone, yields
      ceil((F + c * L) * R / (rate * pitch)) output frames, at least one. */
  lemma SubmittedLength(v: Voice, outputRate: U32, n: nat)
    requires VoiceOk(v) && v.running && outputRate > 0 && |v.queue| == 1
    requires var q := v.queue[0]; q.position == 0.0 && q.loops == q.buffer.loopCount != INFINITE
    ensures v.queue[0].buffer.channels > 0
    ensures Reaches(|MixVoice(v, outputRate, n).output|, n, UnrolledFrames(v.queue[0].buffer) as real,
                    outputRate, Pace(v))
    ensures n > 0 ==> |MixVoice(v, outputRate, n).output| > 0
  {
    hide VoiceOk, MixVoice, Unrolled, UnrolledFrames, Reaches, Pace;
    FrontOk(v);
    JustSubmitted(v.queue[0]);
    OutputLength(v, outputRate, n);
    if n > 0 { SomeReach(|MixVoice(v, outputRate, n).output|, n, Unrolled(v.queue[0]), outputRate, Pace(v)); }
  }

  lemma PositiveProduct(a: real, b: real)
    requires a > 0.0 && b > 0.0
    ensures a * b > 0.0
  {
  }

  lemma SomeReach(m: nat, n: nat, frames: real, rate: U32, pace: real)
    requires Reaches(m, n, frames, rate, pace) && frames > 0.0 && rate > 0 && n > 0
    ensures m > 0
  {
    PositiveProduct(frames, rate as real);
    assert 0 as real * pace == 0.0;
  }

  function Sum(samples: seq<real>): real {
    if samples == [] then 0.0 else samples[0] + Sum(samples[1..])
  }

  lemma {:induction false} SumAppend(samples: seq<real>, x: real)
    ensures Sum(samples + [x]) == Sum(samples) + x
    decreases |samples|
  {
    if samples == [] {
      assert Sum([]) == 0.0 && [x][1..] == [] && [] + [x] == [x];
    } else {
      assert (samples + [x])[1..] == samples[1..] + [x];
      SumAppend(samples[1..], x);
    }
  }

  lemma {:induction false} FoldIsSum(samples: seq<real>)
    ensures Fold(samples) == Sum(samples)
    decreases |samples|
  {
    if samples != [] {
      var rest, x := samples[..|samples| - 1], samples[|samples| - 1];
      FoldIsSum(rest);
      assert samples == rest + [x];
      SumAppend(rest, x);
    }
  }

  /** What one frame of interleaved samples gives each ear: a mono sample goes to both, a
      stereo pair to its sides, 5.1 surround folds in center and its back channel at
      0.70710678 and drops the low-frequency one, any other layout shares the rest evenly. */
  function LeftOf(s: seq<real>): real
    requires s != []
  {
    if |s| <= 2 then s[0]
    else if |s| == 6 then s[0] + 0.70710678 * (s[2] + s[4])
    else s[0] + 0.5 * Sum(s[2..]) / (|s| - 2) as real
  }

  function RightOf(s: seq<real>): real
    requires s != []
  {
    if |s| == 1 then s[0]
    else if |s| == 2 then s[1]
    else if |s| == 6 then s[1] + 0.70710678 * (s[2] + s[5])
    else s[1] + 0.5 * Sum(s[2..]) / (|s| - 2) as real
  }

  /** Frame `i` of interleaved samples. */
  function FrameOf(b: Buffer, i: nat): (s: seq<real>)
    requires b.channels > 0 && b.channels * i + b.channels <= |b.samples|
    ensures s != []
  {
    b.samples[b.channels * i..b.channels * i + b.channels]
  }

  lemma StereoIs(samples: seq<real>, base: nat, channels: nat)
    requires channels > 0 && base + channels <= |samples|
    ensures var s := samples[base..base + channels];
      Stereo(samples, base, channels) == Pair(LeftOf(s), RightOf(s))
  {
    hide Sum, Fold;
    var s := samples[base..base + channels];
    if channels > 2 && channels != 6 {
      assert s[2..] == samples[base + 2..base + channels];
      FoldIsSum(s[2..]);
      Shared(Sum(s[2..]), (channels - 2) as real);
    }
  }

  lemma Shared(x: real, d: real)
    requires d > 0.0
    ensures x * (0.5 / d) == 0.5 * x / d
  {
    var half := 0.5 / d;
    assert half * d == 0.5;
    assert (x * half) * d == x * (half * d);
    Cancel(x * half, 0.5 * x / d, d);
  }

  lemma StereoAtIs(b: Buffer, i: nat)
    requires Playable(b) && i < FrameCount(b)
    ensures b.channels * i + b.channels <= |b.samples|
    ensures StereoAt(b, i) == Pair(LeftOf(FrameOf(b, i)), RightOf(FrameOf(b, i)))
  {
    hide LeftOf, RightOf, Stereo, FrameCount;
    FrameInside(b, i);
    StereoIs(b.samples, i * b.channels, b.channels);
  }

  /** Where playing of a buffer goes on from the front or ends: its loop end or its end. */
  function Limit(q: Queued): nat
    requires q.buffer.channels > 0
  {
    if q.loops != 0 then (if q.buffer.loopEnd != 0 then q.buffer.loopEnd else |q.buffer.samples| / q.buffer.channels)
    else |q.buffer.samples| / q.buffer.channels
  }

  /** The frame behind frame `i`: the loop start behind the loop end, the last frame behind
      the end. */
  function NextFrame(q: Queued, i: nat): nat
    requires q.buffer.channels > 0
  {
    if i + 1 < Limit(q) then i + 1 else if q.loops != 0 then q.buffer.loopStart else i
  }

  /** The sample of a voice at source position `p`: the two frames around it mixed by
      distance, at the voice's volume and the gain of each side. */
  predicate SampleIs(sample: Pair, v: Voice, q: Queued, p: real) {
    && q.buffer.channels > 0 && p >= 0.0
    && var i, j := p.Floor, NextFrame(q, p.Floor);
       && q.buffer.channels * i + q.buffer.channels <= |q.buffer.samples|
       && q.buffer.channels * j + q.buffer.channels <= |q.buffer.samples|
       && var a, b, f := FrameOf(q.buffer, i), FrameOf(q.buffer, j), p - i as real;
          && sample.left == (LeftOf(a) * (1.0 - f) + LeftOf(b) * f) * v.volume * v.left
          && sample.right == (RightOf(a) * (1.0 - f) + RightOf(b) * f) * v.volume * v.right
  }

  lemma BlendIs(a: real, b: real, f: real)
    ensures a + (b - a) * f == a * (1.0 - f) + b * f
  {
  }

  lemma LimitInside(q: Queued)
    requires QueuedOk(q)
    ensures q.buffer.channels > 0 && 0 < Limit(q) <= FrameCount(q.buffer)
    ensures q.loops != 0 ==> Limit(q) == LoopEnd(q.buffer) && q.buffer.loopStart < Limit(q)
  {
    PlayableFrames(q.buffer);
  }

  lemma FrontSampleIs(v: Voice)
    requires VoiceOk(v) && v.queue != []
    requires var q := v.queue[0]; q.buffer.channels > 0 && q.position < Limit(q) as real
    ensures SampleIs(FrontSample(v), v, v.queue[0], v.queue[0].position)
  {
    hide VoiceOk, StereoAt, LeftOf, RightOf, FrameOf, FrameCount, Limit, LoopEnd;
    FrontOk(v);
    var q := v.queue[0];
    LimitInside(q);
    var i := q.position.Floor;
    var j := NextFrame(q, i);
    IndicesAre(q);
    StereoAtIs(q.buffer, i);
    StereoAtIs(q.buffer, j);
    var a, b, f := FrameOf(q.buffer, i), FrameOf(q.buffer, j), q.position - i as real;
    BlendIs(LeftOf(a), LeftOf(b), f);
    BlendIs(RightOf(a), RightOf(b), f);
  }

  lemma IndicesAre(q: Queued)
    requires QueuedOk(q) && q.buffer.channels > 0 && q.position < Limit(q) as real
    ensures Index0(q) == q.position.Floor < FrameCount(q.buffer)
    ensures Index1(q) == NextFrame(q, q.position.Floor) < FrameCount(q.buffer)
  {
    LimitInside(q);
  }

  /** Before its limit a buffer needs no jump and is not finished. */
  lemma DrainSteady(v: Voice)
    requires VoiceOk(v) && v.queue != []
    requires var q := v.queue[0]; q.buffer.channels > 0 && q.position < Limit(q) as real
    ensures Drain(v) == (v, [])
  {
    var q := v.queue[0];
    FrontOk(v);
    LimitInside(q);
    assert Normalize(q) == (q, true);
    assert [q] + v.queue[1..] == v.queue;
  }

  /** The voice with its front buffer at another position. */
  function AtPosition(v: Voice, p: real): Voice
    requires v.queue != []
  {
    v.(queue := [v.queue[0].(position := p)] + v.queue[1..])
  }

  lemma MovedIs(v: Voice, step: real, p: real)
    requires v.queue != []
    ensures AtPosition(v, p).queue != [] && AtPosition(v, p).queue[0] == v.queue[0].(position := p)
    ensures Moved(AtPosition(v, p), step) == AtPosition(v, p + step)
    ensures AtPosition(v, v.queue[0].position) == v
    ensures Moved(v, step) == AtPosition(v, v.queue[0].position + step)
    ensures forall x :: AtPosition(AtPosition(v, p), x) == AtPosition(v, x)
  {
    assert AtPosition(v, p).queue[1..] == v.queue[1..];
    assert [v.queue[0]] + v.queue[1..] == v.queue;
  }

  /** `k` steps on from `p`. */
  function Ahead(p: real, k: nat, step: real): real {
    p + k as real * step
  }

  lemma AheadIs(p: real, k: nat, step: real)
    requires step > 0.0
    ensures Ahead(p, 0, step) == p && Ahead(p, k, step) >= p
    ensures k > 0 ==> Ahead(p, k, step) == Ahead(p + step, k - 1, step)
  {
    if k > 0 { assert k as real * step == (k - 1) as real * step + step; }
  }

  lemma {:induction false} PlaySteady(v: Voice, step: real, n: nat)
    requires VoiceOk(v) && step > 0.0 && v.queue != [] && v.queue[0].buffer.channels > 0
    requires Ahead(v.queue[0].position, n, step) < Limit(v.queue[0]) as real
    ensures var q, r := v.queue[0], Play(v, step, n);
      && r.voice == AtPosition(v, Ahead(q.position, n, step)) && r.tags == [] && |r.output| == n
      && forall k :: 0 <= k < n ==> SampleIs(r.output[k], v, q, Ahead(q.position, k, step))
    decreases n
  {
    hide VoiceOk, Drain, FrontSample, AtPosition, SampleIs, Limit, Ahead;
    var q := v.queue[0];
    MovedIs(v, step, q.position);
    AheadIs(q.position, n, step);
    if n > 0 {
      DrainSteady(v);
      MovedOk(v, step);
      var w := Moved(v, step);
      MovedIs(v, step, q.position + step);
      SameLimit(q, q.position + step);
      PlaySteady(w, step, n - 1);
      FrontSampleIs(v);
      var rest := Play(w, step, n - 1);
      var r := Play(v, step, n);
      assert r.output == [FrontSample(v)] + rest.output;
      Join(rest.tags, [], []);
      forall k | 0 <= k < n ensures SampleIs(r.output[k], v, q, Ahead(q.position, k, step)) {
        AheadIs(q.position, k, step);
        if k > 0 { SampleMoves(rest.output[k - 1], v, w, q, Ahead(q.position, k, step)); }
      }
    }
  }

  lemma SameLimit(q: Queued, p: real)
    requires q.buffer.channels > 0
    ensures Limit(q.(position := p)) == Limit(q)
  {
  }

  /** What a sample is does not depend on where the front buffer stands. */
  lemma SampleMoves(sample: Pair, v: Voice, w: Voice, q: Queued, p: real)
    requires w.volume == v.volume && w.left == v.left && w.right == v.right && w.queue != []
    requires w.queue[0] == q.(position := w.queue[0].position) && SampleIs(sample, w, w.queue[0], p)
    ensures SampleIs(sample, v, q, p)
  {
    hide LeftOf, RightOf, FrameOf;
    SameLimit(q, w.queue[0].position);
    assert NextFrame(w.queue[0], p.Floor) == NextFrame(q, p.Floor);
  }

  /** How far output frame `k` lies into the source: k * rate * pitch / R frames. */
  function Travelled(v: Voice, outputRate: U32, k: nat): real
    requires outputRate > 0
  {
    k as real * (v.rate as real * v.pitch) / outputRate as real
  }

  lemma TravelledIs(v: Voice, outputRate: U32, p: real, k: nat)
    requires VoiceOk(v) && outputRate > 0
    ensures Ahead(p, k, Step(v, outputRate)) == p + Travelled(v, outputRate, k)
  {
    hide VoiceOk;
    StepTimes(v, outputRate);
    PaceIs(Step(v, outputRate), v.rate as real * v.pitch, outputRate as real, k);
  }

  /** While a buffer plays on, its position after n output frames is the old one plus
      n * rate * pitch / R, and each output is the blend of the two frames around the
      position reached so far. */
  lemma SteadyOutput(v: Voice, outputRate: U32, n: nat)
    requires VoiceOk(v) && v.running && outputRate > 0 && v.queue != [] && v.queue[0].buffer.channels > 0
    requires v.queue[0].position + Travelled(v, outputRate, n) < Limit(v.queue[0]) as real
    ensures var q, r := v.queue[0], MixVoice(v, outputRate, n);
      && r.voice == AtPosition(v, q.position + Travelled(v, outputRate, n))
      && r.tags == [] && |r.output| == n
      && forall k :: 0 <= k < n ==> SampleIs(r.output[k], v, q, q.position + Travelled(v, outputRate, k))
  {
    hide VoiceOk, Play, Drain, Step, AtPosition, SampleIs, Limit, Travelled, Ahead;
    var q, step := v.queue[0], Step(v, outputRate);
    StepPositive(v, outputRate);
    TravelledIs(v, outputRate, q.position, n);
    MovedIs(v, step, q.position);
    AheadIs(q.position, n, step);
    if n > 0 {
      PlaySteady(v, step, n);
      var w := AtPosition(v, Ahead(q.position, n, step));
      MovedIs(v, step, Ahead(q.position, n, step));
      PlayOk(v, step, n);
      SameLimit(q, Ahead(q.position, n, step));
      DrainSteady(w);
      Join(Play(v, step, n).tags, [], []);
      forall k | 0 <= k < n
        ensures SampleIs(MixVoice(v, outputRate, n).output[k], v, q, q.position + Travelled(v, outputRate, k))
      {
        TravelledIs(v, outputRate, q.position, k);
      }
    }
  }

  lemma PaceIs(step: real, pace: real, rate: real, k: nat)
    requires rate > 0.0 && step * rate == pace
    ensures k as real * pace / rate == k as real * step
  {
    var x := k as real * step;
    assert x * rate == k as real * (step * rate);
    Cancel(k as real * pace / rate, x, rate);
  }

  /** Jumps back: some number j of whole loop lengths, each of them due, and all there are. */
  lemma {:induction false} NormalizedWraps(q: Queued) returns (j: nat)
    requires QueuedOk(q) && q.loops != 0 && LoopLength(q.buffer) > 0
    ensures var n := Normalized(q);
      && n.position == q.position - (j * LoopLength(q.buffer)) as real
      && (if q.loops == 255 then n.loops == 255 else j <= q.loops && n.loops == q.loops - j)
      && (j > 0 ==> n.position >= q.buffer.loopStart as real)
      && (n.loops == 0 || n.position < LoopEnd(q.buffer) as real)
    decreases if PastLoop(q) then (q.position - LoopEnd(q.buffer) as real).Floor + 1 else 0
  {
    hide LoopLength, LoopEnd;
    if PastLoop(q) {
      WrapsOnce(q);
      var w := Wrapped(q);
      if w.loops == 0 {
        j := 1;
      } else {
        var k := NormalizedWraps(w);
        assert ((k + 1) * LoopLength(q.buffer)) as real
            == (k * LoopLength(q.buffer)) as real + LoopLength(q.buffer) as real;
        j := k + 1;
      }
    } else {
      j := 0;
    }
  }

  lemma WrapsOnce(q: Queued)
    requires QueuedOk(q) && PastLoop(q) && LoopLength(q.buffer) > 0
    ensures var w := Wrapped(q);
      && w.position == q.position - LoopLength(q.buffer) as real >= q.buffer.loopStart as real
      && w.loops == (if q.loops == 255 then 255 else q.loops - 1)
      && w.buffer == q.buffer && QueuedOk(w)
      && (w.loops == 0 ==> Normalized(w) == w)
  {
  }

  /** The position loop: the buffer jumps back by j loop lengths, each jump due when it is
      taken, as many as its loops allow, until it stands before the loop end or has no loop
      left; then it plays on exactly when it stands before its end. */
  lemma WrapsExactly(q: Queued) returns (j: nat)
    requires QueuedOk(q)
    ensures var (n, plays) := Normalize(q); var b := q.buffer;
      && b.channels > 0
      && n == q.(position := n.position, loops := n.loops)
      && n.position == q.position - (if j == 0 then 0 else j * (b.loopEnd - b.loopStart)) as real
      && (if q.loops == 255 then n.loops == 255 else j <= q.loops && n.loops == q.loops - j)
      && (j > 0 ==> b.loopEnd > b.loopStart && n.position >= b.loopStart as real)
      && (n.loops == 0 || n.position < b.loopEnd as real)
      && (plays <==> n.position < (|b.samples| / b.channels) as real)
  {
    hide Normalized;
    PlayableFrames(q.buffer);
    if q.loops != 0 {
      j := NormalizedWraps(q);
      NormalizedKeeps(q);
    } else {
      j := 0;
    }
  }

  lemma {:induction false} NormalizedKeeps(q: Queued)
    requires LoopLength(q.buffer) > 0
    ensures var n := Normalized(q); n == q.(position := n.position, loops := n.loops)
    decreases if PastLoop(q) then (q.position - LoopEnd(q.buffer) as real).Floor + 1 else 0
  {
    if PastLoop(q) { NormalizedKeeps(Wrapped(q)); }
  }

  // ------------------------------------------------------------------ completions

  function FirstTags(queue: seq<Queued>, k: nat, notify: bool): seq<nat>
    requires k <= |queue|
  {
    if notify then seq(k, i requires 0 <= i < k => queue[i].buffer.tag) else []
  }

  /** `w` is `v` with its first buffers finished, and `tags` are theirs, in order. */
  predicate Finishes(v: Voice, w: Voice, tags: seq<nat>) {
    && |w.queue| <= |v.queue| && w.notify == v.notify
    && var k := |v.queue| - |w.queue|;
       && tags == FirstTags(v.queue, k, v.notify)
       && (w.queue != [] ==> w.queue[0].buffer == v.queue[k].buffer)
       && (forall i :: 0 < i < |w.queue| ==> w.queue[i] == v.queue[k + i])
  }

  lemma FinishesNone(v: Voice, w: Voice)
    requires w.notify == v.notify && |w.queue| == |v.queue|
    requires w.queue != [] ==> w.queue[0].buffer == v.queue[0].buffer && w.queue[1..] == v.queue[1..]
    ensures Finishes(v, w, [])
  {
    forall i | 0 < i < |w.queue| ensures w.queue[i] == v.queue[i] { assert w.queue[1..][i - 1] == v.queue[1..][i - 1]; }
  }

  lemma FinishesJoin(v: Voice, w: Voice, x: Voice, a: seq<nat>, b: seq<nat>)
    requires Finishes(v, w, a) && Finishes(w, x, b)
    ensures Finishes(v, x, a + b)
  {
    var k, m := |v.queue| - |w.queue|, |w.queue| - |x.queue|;
    forall i | 0 <= i < m ensures w.queue[i].buffer == v.queue[k + i].buffer { }
    assert a + b == FirstTags(v.queue, k + m, v.notify);
  }

  lemma {:induction false} DrainFinishes(v: Voice)
    ensures Finishes(v, Drain(v).0, Drain(v).1)
    decreases |v.queue|
  {
    hide Finishes, Normalize, Bytes;
    if v.queue == [] {
      FinishesNone(v, v);
    } else {
      NormalizeIdempotent(v.queue[0]);
      var (q, plays) := Normalize(v.queue[0]);
      if plays {
        assert ([q] + v.queue[1..])[1..] == v.queue[1..];
        FinishesNone(v, v.(queue := [q] + v.queue[1..]));
      } else {
        var bytes := Bytes(q.buffer);
        var rest := v.(queue := v.queue[1..],
                       queuedBytes := if bytes > v.queuedBytes then 0 else v.queuedBytes - bytes);
        DrainFinishes(rest);
        FinishesOne(v, rest);
        FinishesJoin(v, rest, Drain(rest).0, if v.notify then [q.buffer.tag] else [], Drain(rest).1);
      }
    }
  }

  lemma FinishesOne(v: Voice, w: Voice)
    requires v.queue != [] && w.queue == v.queue[1..] && w.notify == v.notify
    ensures Finishes(v, w, if v.notify then [v.queue[0].buffer.tag] else [])
  {
    assert FirstTags(v.queue, 1, v.notify) == if v.notify then [v.queue[0].buffer.tag] else [];
  }

  lemma {:induction false} PlayFinishes(v: Voice, step: real, n: nat)
    requires VoiceOk(v) && step > 0.0
    ensures Finishes(v, Play(v, step, n).voice, Play(v, step, n).tags)
    decreases n
  {
    hide VoiceOk, Finishes, Drain, FrontSample;
    if n == 0 {
      FinishesNone(v, v);
    } else {
      DrainOk(v);
      DrainFinishes(v);
      var (d, tags) := Drain(v);
      if d.queue != [] {
        MovedOk(d, step);
        var w := Moved(d, step);
        assert w.queue[1..] == d.queue[1..];
        FinishesNone(d, w);
        Join(tags, [], []);
        FinishesJoin(v, d, w, tags, []);
        PlayFinishes(w, step, n - 1);
        FinishesJoin(v, w, Play(w, step, n - 1).voice, tags, Play(w, step, n - 1).tags);
      }
    }
  }

  /** The buffers a voice has finished are the first of its queue: their tags are reported
      in that order, if at all, and those behind them are left as they were. */
  lemma CompletesInOrder(v: Voice, outputRate: U32, n: nat)
    requires VoiceOk(v)
    ensures var r := MixVoice(v, outputRate, n); var w := r.voice;
      && |w.queue| <= |v.queue|
      && var k := |v.queue| - |w.queue|;
         && |r.tags| == (if v.notify then k else 0)
         && (forall i :: 0 <= i < |r.tags| ==> r.tags[i] == v.queue[i].buffer.tag)
         && (w.queue != [] ==> w.queue[0].buffer == v.queue[k].buffer)
         && (forall i :: 0 < i < |w.queue| ==> w.queue[i] == v.queue[k + i])
  {
    hide VoiceOk, MixVoice, Finishes;
    MixFinishes(v, outputRate, n);
    FinishesMeans(v, MixVoice(v, outputRate, n).voice, MixVoice(v, outputRate, n).tags);
  }

  lemma MixFinishes(v: Voice, outputRate: U32, n: nat)
    requires VoiceOk(v)
    ensures Finishes(v, MixVoice(v, outputRate, n).voice, MixVoice(v, outputRate, n).tags)
  {
    hide VoiceOk, Play, Drain, Step, Finishes;
    if outputRate == 0 || n == 0 || !v.running {
      FinishesNone(v, v);
    } else {
      StepPositive(v, outputRate);
      var p := Play(v, Step(v, outputRate), n);
      PlayFinishes(v, Step(v, outputRate), n);
      DrainFinishes(p.voice);
      FinishesJoin(v, p.voice, Drain(p.voice).0, p.tags, Drain(p.voice).1);
    }
  }

  lemma FinishesMeans(v: Voice, w: Voice, tags: seq<nat>)
    requires Finishes(v, w, tags)
    ensures |w.queue| <= |v.queue|
    ensures var k := |v.queue| - |w.queue|;
      && |tags| == (if v.notify then k else 0)
      && (forall i :: 0 <= i < |tags| ==> tags[i] == v.queue[i].buffer.tag)
      && (w.queue != [] ==> w.queue[0].buffer == v.queue[k].buffer)
      && (forall i :: 0 < i < |w.queue| ==> w.queue[i] == v.queue[k + i])
  {
  }

  // ------------------------------------------------------------------ the mixer

  function AddPair(a: Pair, b: Pair): Pair {
    Pair(a.left + b.left, a.right + b.right)
  }

  /** `output` added into the front of `s`. */
  function Into(s: seq<Pair>, output: seq<Pair>): (r: seq<Pair>)
    ensures |r| == |s|
  {
    seq(|s|, i requires 0 <= i < |s| => if i < |output| then AddPair(s[i], output[i]) else s[i])
  }

  /** The sum of what the voices in `handles` contribute to frame `i`. */
  ghost function Total(outputs: map<U32, seq<Pair>>, handles: set<U32>, i: nat): Pair
    requires handles <= outputs.Keys
    decreases |handles|
  {
    if handles == {} then Pair(0.0, 0.0)
    else
      var h :| h in handles;
      AddPair(At(outputs[h], i), Total(outputs, handles - {h}, i))
  }

  function At(output: seq<Pair>, i: nat): Pair {
    if i < |output| then output[i] else Pair(0.0, 0.0)
  }

  lemma AddSwap(a: Pair, b: Pair, c: Pair)
    ensures AddPair(a, AddPair(b, c)) == AddPair(b, AddPair(a, c))
  {
  }

  /** The sum does not depend on the order the voices are visited in. */
  lemma {:induction false} TotalOf(outputs: map<U32, seq<Pair>>, handles: set<U32>, h: U32, i: nat)
    requires handles <= outputs.Keys && h in handles
    ensures Total(outputs, handles, i) == AddPair(At(outputs[h], i), Total(outputs, handles - {h}, i))
    decreases |handles|
  {
    hide At, AddPair;
    var g :| g in handles && Total(outputs, handles, i) == AddPair(At(outputs[g], i), Total(outputs, handles - {g}, i));
    if g != h {
      TotalOf(outputs, handles - {g}, h, i);
      TotalOf(outputs, handles - {h}, g, i);
      assert handles - {g} - {h} == handles - {h} - {g};
      AddSwap(At(outputs[g], i), At(outputs[h], i), Total(outputs, handles - {g} - {h}, i));
    }
  }

  ghost function Mixed(was: seq<Pair>, outputs: map<U32, seq<Pair>>, handles: set<U32>): (r: seq<Pair>)
    requires handles <= outputs.Keys
    ensures |r| == |was|
  {
    seq(|was|, i requires 0 <= i < |was| => AddPair(was[i], Total(outputs, handles, i)))
  }

  /** What the voices in `handles` add to frame `i`, left and right summed as numbers. */
  ghost function LeftTotal(outputs: map<U32, seq<Pair>>, handles: set<U32>, i: nat): real
    requires handles <= outputs.Keys
    decreases |handles|
  {
    if handles == {} then 0.0
    else
      var h :| h in handles;
      (if i < |outputs[h]| then outputs[h][i].left else 0.0) + LeftTotal(outputs, handles - {h}, i)
  }

  ghost function RightTotal(outputs: map<U32, seq<Pair>>, handles: set<U32>, i: nat): real
    requires handles <= outputs.Keys
    decreases |handles|
  {
    if handles == {} then 0.0
    else
      var h :| h in handles;
      (if i < |outputs[h]| then outputs[h][i].right else 0.0) + RightTotal(outputs, handles - {h}, i)
  }

  lemma {:induction false} LeftOfTotal(outputs: map<U32, seq<Pair>>, handles: set<U32>, i: nat)
    requires handles <= outputs.Keys
    ensures Total(outputs, handles, i).left == LeftTotal(outputs, handles, i)
    decreases |handles|
  {
    if handles != {} {
      var h :| h in handles && LeftTotal(outputs, handles, i)
                == (if i < |outputs[h]| then outputs[h][i].left else 0.0) + LeftTotal(outputs, handles - {h}, i);
      TotalOf(outputs, handles, h, i);
      LeftOfTotal(outputs, handles - {h}, i);
    }
  }

  lemma {:induction false} RightOfTotal(outputs: map<U32, seq<Pair>>, handles: set<U32>, i: nat)
    requires handles <= outputs.Keys
    ensures Total(outputs, handles, i).right == RightTotal(outputs, handles, i)
    decreases |handles|
  {
    if handles != {} {
      var h :| h in handles && RightTotal(outputs, handles, i)
                == (if i < |outputs[h]| then outputs[h][i].right else 0.0) + RightTotal(outputs, handles - {h}, i);
      TotalOf(outputs, handles, h, i);
      RightOfTotal(outputs, handles - {h}, i);
    }
  }

  lemma MixedFields(was: seq<Pair>, outputs: map<U32, seq<Pair>>, handles: set<U32>)
    requires handles <= outputs.Keys
    ensures forall i :: 0 <= i < |was| ==>
      && Mixed(was, outputs, handles)[i].left == was[i].left + LeftTotal(outputs, handles, i)
      && Mixed(was, outputs, handles)[i].right == was[i].right + RightTotal(outputs, handles, i)
  {
    forall i | 0 <= i < |was|
      ensures Mixed(was, outputs, handles)[i].left == was[i].left + LeftTotal(outputs, handles, i)
      ensures Mixed(was, outputs, handles)[i].right == was[i].right + RightTotal(outputs, handles, i)
    {
      LeftOfTotal(outputs, handles, i);
      RightOfTotal(outputs, handles, i);
    }
  }

  lemma MixedMore(was: seq<Pair>, outputs: map<U32, seq<Pair>>, handles: set<U32>, h: U32)
    requires handles <= outputs.Keys && h in outputs && h !in handles
    ensures Into(Mixed(was, outputs, handles), outputs[h]) == Mixed(was, outputs, handles + {h})
  {
    forall i | 0 <= i < |was|
      ensures Into(Mixed(was, outputs, handles), outputs[h])[i] == Mixed(was, outputs, handles + {h})[i]
    {
      TotalOf(outputs, handles + {h}, h, i);
      assert handles + {h} - {h} == handles;
    }
  }

  /** The tags completed for one voice, in order. */
  function Of(completions: seq<(U32, nat)>, h: U32): seq<nat> {
    if completions == [] then []
    else (if completions[0].0 == h then [completions[0].1] else []) + Of(completions[1..], h)
  }

  lemma {:induction false} OfJoin(a: seq<(U32, nat)>, b: seq<(U32, nat)>, h: U32)
    ensures Of(a + b, h) == Of(a, h) + Of(b, h)
    decreases |a|
  {
    if a == [] {
      assert a + b == b;
    } else {
      assert (a + b)[0] == a[0] && (a + b)[1..] == a[1..] + b;
      OfJoin(a[1..], b, h);
      Join(if a[0].0 == h then [a[0].1] else [], Of(a[1..], h), Of(b, h));
    }
  }

  function Tagged(h: U32, tags: seq<nat>): (r: seq<(U32, nat)>)
    ensures |r| == |tags|
  {
    seq(|tags|, i requires 0 <= i < |tags| => (h, tags[i]))
  }

  lemma {:induction false} OfTagged(h: U32, tags: seq<nat>, g: U32)
    ensures Of(Tagged(h, tags), g) == if g == h then tags else []
    decreases |tags|
  {
    if tags != [] {
      assert Tagged(h, tags)[1..] == Tagged(h, tags[1..]);
      OfTagged(h, tags[1..], g);
    }
  }

  /** A submitted buffer with its loop end filled in. */
  function Completed(b: Buffer): Buffer {
    if b.loopCount != 0 && b.loopEnd == 0 && FrameCount(b) < 0x1_0000_0000 then b.(loopEnd := FrameCount(b)) else b
  }

  predicate Fits(v: Voice, b: Buffer) {
    b.channels == v.channels && |v.queue| < MAX_BUFFERS && v.queuedBytes + Bytes(b) <= MAX_BYTES
  }

  function Appended(v: Voice, b: Buffer): Voice {
    v.(queue := v.queue + [Queued(b, 0.0, b.loopCount)], queuedBytes := v.queuedBytes + Bytes(b))
  }

  lemma {:induction false} TotalBytesJoin(a: seq<Queued>, q: Queued)
    ensures TotalBytes(a + [q]) == TotalBytes(a) + Bytes(q.buffer)
    decreases |a|
  {
    if a == [] {
      assert [q][1..] == [] && a + [q] == [q];
    } else {
      assert (a + [q])[1..] == a[1..] + [q];
      TotalBytesJoin(a[1..], q);
    }
  }

  /** What `submit` accepts and what it queues, in the fields of the buffer as given: whole
      frames, a loop inside them (an end of zero meaning the last frame), no more than 64
      buffers and 16 MiB in all; it goes behind the others, at its start, with every loop. */
  lemma SubmitExactly(v: Voice, b: Buffer)
    ensures (Playable(Completed(b)) && Fits(v, b)) <==>
      && b.channels > 0 && b.samples != [] && |b.samples| % b.channels == 0
      && (b.loopCount != 0 ==>
            var frames := |b.samples| / b.channels;
            b.loopStart < (if b.loopEnd == 0 then frames else b.loopEnd) <= frames)
      && b.channels == v.channels && |v.queue| < 64 && v.queuedBytes + 4 * |b.samples| <= 0x100_0000
    ensures Playable(Completed(b)) && Fits(v, b) ==>
      var w := Appended(v, Completed(b));
      && w == v.(queue := w.queue, queuedBytes := v.queuedBytes + 4 * |b.samples|)
      && |w.queue| == |v.queue| + 1 && w.queue[..|v.queue|] == v.queue
      && var q := w.queue[|v.queue|];
         && q.position == 0.0 && q.loops == b.loopCount
         && q.buffer == b.(loopEnd := if b.loopCount != 0 && b.loopEnd == 0 then q.buffer.loopEnd else b.loopEnd)
         && (b.loopCount != 0 && b.loopEnd == 0 ==> q.buffer.loopEnd == |b.samples| / b.channels)
  {
    if b.channels > 0 {
      Mixer.QuotientSmall(|b.samples|, b.channels);
      assert FrameCount(b) == |b.samples| / b.channels <= |b.samples|;
    }
  }

  lemma AppendedOk(v: Voice, b: Buffer)
    requires VoiceOk(v) && Playable(b) && Fits(v, b)
    ensures VoiceOk(Appended(v, b))
  {
    TotalBytesJoin(v.queue, Queued(b, 0.0, b.loopCount));
  }

  class Mixer {
    var voices: map<U32, Voice>

    ghost predicate Valid()
      reads this
    {
      forall h :: h in voices ==> VoiceOk(voices[h])
    }

    constructor ()
      ensures Valid() && voices == map[]
    {
      voices := map[];
    }

    /** Queues a buffer, or changes nothing: exactly the playable buffers that match the
        voice and fit its two budgets are taken. */
    method Submit(handle: U32, buffer: Buffer) returns (accepted: bool)
      requires Valid()
      modifies this
      ensures Valid()
      ensures accepted <==> Playable(Completed(buffer)) && handle in old(voices) && Fits(old(voices)[handle], buffer)
      ensures voices == if accepted then old(voices)[handle := Appended(old(voices)[handle], Completed(buffer))]
                        else old(voices)
    {
      hide FrameCount, VoiceOk;
      var b := buffer;
      if b.channels > 0 && Bytes(b) <= MAX_BYTES { SmallFrames(b); }
      if b.channels == 0 || b.samples == [] || |b.samples| % b.channels != 0 { return false; }
      var frames: U32 := FrameCount(b) % 0x1_0000_0000;
      SameFrames(b, frames);
      if b.loopCount != 0 {
        if b.loopEnd == 0 { b := b.(loopEnd := frames); }
        if b.loopStart >= b.loopEnd || b.loopEnd > frames { return false; }
      }
      var bytes := |b.samples| * SAMPLE_BYTES;
      if bytes > MAX_BYTES { return false; }
      if handle !in voices || b.channels != voices[handle].channels
         || |voices[handle].queue| >= MAX_BUFFERS
         || voices[handle].queuedBytes > MAX_BYTES - bytes { return false; }
      var v := voices[handle];
      AppendedOk(v, b);
      v := v.(queuedBytes := v.queuedBytes + bytes);
      v := v.(queue := v.queue + [Queued(b, 0.0, b.loopCount)]);
      voices := voices[handle := v];
      return true;
    }

    /** The 32-bit frame count is exact for every buffer within the byte limit. */
    static lemma SameFrames(b: Buffer, end: U32)
      ensures FrameCount(b.(loopEnd := end)) == FrameCount(b)
    {
    }

    static lemma SmallFrames(b: Buffer)
      requires b.channels > 0 && Bytes(b) <= MAX_BYTES
      ensures FrameCount(b) % 0x1_0000_0000 == FrameCount(b) < 0x1_0000_0000
    {
      QuotientSmall(|b.samples|, b.channels);
    }

    static lemma QuotientSmall(n: nat, d: nat)
      requires d > 0
      ensures 0 <= n / d <= n
    {
      var q, r := n / d, n % d;
      assert n == q * d + r;
      if q > n {
        Larger(q, d);
        assert false;
      }
    }

    static lemma Larger(q: nat, d: nat)
      requires d > 0
      ensures q <= q * d
    {
      if d > 1 { Larger(q, d - 1); assert q * d == q * (d - 1) + q; }
    }

    method Stop(handle: U32, flush: bool) returns (known: bool)
      requires Valid()
      modifies this
      ensures Valid() && known == (handle in old(voices))
      ensures !known ==> voices == old(voices)
      ensures known ==> var v := old(voices)[handle];
        voices == old(voices)[handle :=
          if flush then v.(running := false, queue := [], queuedBytes := 0) else v.(running := false)]
    {
      if handle !in voices { return false; }
      var v := voices[handle].(running := false);
      if flush { v := v.(queue := [], queuedBytes := 0); }
      voices := voices[handle := v];
      return true;
    }

    /** Pops the finished buffers at the front of a voice. */
    method PopFinished(v: Voice) returns (v': Voice, tags: seq<nat>)
      ensures (v', tags) == Drain(v)
    {
      hide Normalize, Bytes;
      v', tags := v, [];
      Join(Drain(v).1, [], []);
      while v'.queue != []
        invariant Drain(v).0 == Drain(v').0 && Drain(v).1 == tags + Drain(v').1
        decreases |v'.queue|
      {
        ghost var here := v';
        var q, plays := NormalizePosition(v'.queue[0]);
        v' := v'.(queue := [q] + v'.queue[1..]);
        if plays {
          Join(tags, [], []);
          return;
        }
        var bytes := Bytes(q.buffer);
        v' := v'.(queuedBytes := if bytes > v'.queuedBytes then 0 else v'.queuedBytes - bytes);
        v' := v'.(queue := v'.queue[1..]);
        assert v'.queue == here.queue[1..];
        Join(tags, if v'.notify then [q.buffer.tag] else [], Drain(v').1);
        if v'.notify { tags := tags + [q.buffer.tag]; }
      }
      Join(tags, [], []);
    }

    /** The output loop of `mix` for one running voice. */
    method PlayInto(v: Voice, step: real, destination: array<Pair>) returns (v': Voice, tags: seq<nat>)
      requires VoiceOk(v) && step > 0.0
      modifies destination
      ensures var p := Play(v, step, destination.Length);
        && v' == p.voice && tags == p.tags
        && destination[..] == Into(old(destination[..]), p.output)
    {
      hide VoiceOk, Drain, Moved, FrontSample, Into;
      var n := destination.Length;
      ghost var was, output, all := destination[..], [], Play(v, step, n);
      v', tags := v, [];
      IntoNothing(was);
      Join(all.output, [], []);
      Join(all.tags, [], []);
      var frame := 0;
      while frame < n
        invariant frame <= n && VoiceOk(v') && |output| == frame
        invariant var rest := Play(v', step, n - frame);
          all == Played(rest.voice, output + rest.output, tags + rest.tags)
        invariant destination[..] == Into(was, output)
      {
        ghost var here := v';
        DrainOk(v');
        var popped: seq<nat>;
        v', popped := PopFinished(v');
        if v'.queue == [] {
          tags := tags + popped;
          Join(output, [], []);
          return;
        }
        var sample := FrontOf(v');
        MovedOk(v', step);
        ghost var rest := Play(Moved(v', step), step, n - frame - 1);
        Join(output, [sample], rest.output);
        Join(tags, popped, rest.tags);
        IntoMore(was, output, sample);
        destination[frame] := AddPair(destination[frame], sample);
        tags := tags + popped;
        output := output + [sample];
        v' := Moved(v', step);
        frame := frame + 1;
      }
      Join(output, [], []);
      Join(tags, [], []);
    }

    static method FrontOf(v: Voice) returns (sample: Pair)
      requires VoiceOk(v) && v.queue != []
      ensures sample == FrontSample(v)
    {
      sample := Routed(v, Interpolated(v.queue[0]));
    }

    static lemma IntoNothing(was: seq<Pair>)
      ensures Into(was, []) == was
    {
    }

    static lemma IntoMore(was: seq<Pair>, output: seq<Pair>, sample: Pair)
      requires |output| < |was|
      ensures Into(was, output + [sample])
        == Into(was, output)[|output| := AddPair(Into(was, output)[|output|], sample)]
    {
    }

    method MixOne(v: Voice, outputRate: U32, destination: array<Pair>) returns (v': Voice, tags: seq<nat>)
      requires VoiceOk(v) && outputRate > 0 && destination.Length > 0
      modifies destination
      ensures var r := MixVoice(v, outputRate, destination.Length);
        && v' == r.voice && tags == r.tags
        && destination[..] == Into(old(destination[..]), r.output)
    {
      hide VoiceOk, Drain, Play, Into, Step;
      if !v.running {
        IntoNothing(destination[..]);
        return v, [];
      }
      StepPositive(v, outputRate);
      PlayOk(v, Step(v, outputRate), destination.Length);
      var played, first := PlayInto(v, Step(v, outputRate), destination);
      var drained, last := PopFinished(played);
      return drained, first + last;
    }

    /** Mixes every running voice into `destination`: each voice advances as if alone, the
        contributions add up, and each voice's completions come out in its own order. */
    method Mix(destination: array<Pair>, outputRate: U32) returns (completions: seq<(U32, nat)>)
      requires Valid()
      modifies this, destination
      ensures Valid() && voices.Keys == old(voices).Keys
      ensures forall h :: h in voices ==>
        voices[h] == MixVoice(old(voices)[h], outputRate, destination.Length).voice
      ensures destination[..]
        == Mixed(old(destination[..]), Outputs(old(voices), outputRate, destination.Length), old(voices).Keys)
      ensures forall i :: 0 <= i < destination.Length ==>
        var outputs := Outputs(old(voices), outputRate, destination.Length);
        && destination[i].left == old(destination[i]).left + LeftTotal(outputs, old(voices).Keys, i)
        && destination[i].right == old(destination[i]).right + RightTotal(outputs, old(voices).Keys, i)
      ensures forall h :: Of(completions, h) == Tags(old(voices), old(voices).Keys, outputRate, destination.Length, h)
    {
      hide VoiceOk, MixVoice, Mixed, Into, Of, Tagged;
      completions := [];
      ghost var was, n := voices, destination.Length;
      ghost var outputs := Outputs(was, outputRate, n);
      OfNothing();
      if outputRate == 0 || destination.Length == 0 {
        NothingMixed(was, outputRate, n);
        MixedNothing(destination[..], outputs, was.Keys);
        MixedFields(destination[..], outputs, was.Keys);
        return;
      }
      ghost var before := destination[..];
      MixedNothing(before, outputs, {});
      var todo := voices.Keys;
      ghost var visited: set<U32> := {};
      while todo != {}
        invariant todo <= was.Keys == voices.Keys && visited == was.Keys - todo
        invariant forall h :: h in was.Keys ==>
          voices[h] == if h in todo then was[h] else MixVoice(was[h], outputRate, n).voice
        invariant destination[..] == Mixed(before, outputs, visited)
        invariant forall h :: Of(completions, h) == Tags(was, visited, outputRate, n, h)
        decreases todo
      {
        var h :| h in todo;
        var v, tags := MixOne(voices[h], outputRate, destination);
        MixedMore(before, outputs, visited, h);
        TagsMore(completions, was, visited, outputRate, n, h, tags);
        completions := completions + Tagged(h, tags);
        voices := voices[h := v];
        todo := todo - {h};
        visited := visited + {h};
      }
      assert visited == was.Keys;
      MixedFields(before, outputs, was.Keys);
      assert forall i :: 0 <= i < n ==> destination[i] == destination[..][i] && before[i] == old(destination[i]);
      forall h | h in voices ensures VoiceOk(voices[h]) {
        MixVoiceOk(was[h], outputRate, n);
      }
    }

    static function Outputs(voices: map<U32, Voice>, outputRate: U32, n: nat): map<U32, seq<Pair>>
      requires forall h :: h in voices ==> VoiceOk(voices[h])
    {
      map h | h in voices :: MixVoice(voices[h], outputRate, n).output
    }

    /** The completions of voice `h` once the voices in `visited` have been mixed. */
    static function Tags(voices: map<U32, Voice>, visited: set<U32>, outputRate: U32, n: nat, h: U32): seq<nat>
      requires visited <= voices.Keys && forall h :: h in voices ==> VoiceOk(voices[h])
    {
      if h in visited then MixVoice(voices[h], outputRate, n).tags else []
    }

    static lemma OfNothing()
      ensures forall h :: Of([], h) == []
    {
    }

    static lemma NothingMixed(voices: map<U32, Voice>, outputRate: U32, n: nat)
      requires (forall h :: h in voices ==> VoiceOk(voices[h])) && (outputRate == 0 || n == 0)
      ensures forall h :: h in voices ==> MixVoice(voices[h], outputRate, n) == Played(voices[h], [], [])
    {
    }

    static lemma TagsMore(completions: seq<(U32, nat)>, voices: map<U32, Voice>, visited: set<U32>,
                          outputRate: U32, n: nat, h: U32, tags: seq<nat>)
      requires visited <= voices.Keys && (forall h :: h in voices ==> VoiceOk(voices[h]))
               && h in voices && h !in visited
      requires tags == MixVoice(voices[h], outputRate, n).tags
      requires forall g :: Of(completions, g) == Tags(voices, visited, outputRate, n, g)
      ensures forall g :: Of(completions + Tagged(h, tags), g) == Tags(voices, visited + {h}, outputRate, n, g)
    {
      hide VoiceOk, MixVoice, Of, Tagged;
      forall g ensures Of(completions + Tagged(h, tags), g) == Tags(voices, visited + {h}, outputRate, n, g) {
        OfJoin(completions, Tagged(h, tags), g);
        OfTagged(h, tags, g);
        Join(Of(completions, g), [], []);
      }
    }

    static lemma {:induction false} TotalSilent(outputs: map<U32, seq<Pair>>, handles: set<U32>, i: nat)
      requires handles <= outputs.Keys && forall h :: h in handles ==> i >= |outputs[h]|
      ensures Total(outputs, handles, i) == Pair(0.0, 0.0)
      decreases |handles|
    {
      hide Total;
      if handles == {} {
        TotalEmpty(outputs, i);
      } else {
        var h :| h in handles;
        TotalOf(outputs, handles, h, i);
        TotalSilent(outputs, handles - {h}, i);
      }
    }

    static lemma TotalEmpty(outputs: map<U32, seq<Pair>>, i: nat)
      ensures Total(outputs, {}, i) == Pair(0.0, 0.0)
    {
    }

    static lemma MixedNothing(was: seq<Pair>, outputs: map<U32, seq<Pair>>, handles: set<U32>)
      requires handles <= outputs.Keys && forall h :: h in handles ==> outputs[h] == []
      ensures Mixed(was, outputs, handles) == was
    {
      forall i | 0 <= i < |was| ensures Mixed(was, outputs, handles)[i] == was[i] {
        TotalSilent(outputs, handles, i);
      }
    }
  }

  // ------------------------------------------------------------- the whole mix in chunks

  /** Every voice after `n` output frames. */
  function Advanced(voices: map<U32, Voice>, outputRate: U32, n: nat): (r: map<U32, Voice>)
    requires forall h :: h in voices ==> VoiceOk(voices[h])
    ensures r.Keys == voices.Keys && forall h :: h in r ==> VoiceOk(r[h])
  {
    assert forall h :: h in voices ==> VoiceOk(MixVoice(voices[h], outputRate, n).voice) by {
      forall h | h in voices ensures VoiceOk(MixVoice(voices[h], outputRate, n).voice) {
        MixVoiceOk(voices[h], outputRate, n);
      }
    }
    map h | h in voices :: MixVoice(voices[h], outputRate, n).voice
  }

  lemma {:induction false} TotalSame(a: map<U32, seq<Pair>>, b: map<U32, seq<Pair>>, handles: set<U32>, i: nat, j: nat)
    requires handles <= a.Keys && handles <= b.Keys
    requires forall h :: h in handles ==> At(a[h], i) == At(b[h], j)
    ensures Total(a, handles, i) == Total(b, handles, j)
    decreases |handles|
  {
    hide At, AddPair, Total;
    if handles == {} {
      Mixer.TotalEmpty(a, i);
      Mixer.TotalEmpty(b, j);
    } else {
      var h :| h in handles;
      TotalOf(a, handles, h, i);
      TotalOf(b, handles, h, j);
      TotalSame(a, b, handles - {h}, i, j);
    }
  }

  /** Two sets of outputs have the same totals, one of them from a frame on. */
  ghost predicate Agree(all: map<U32, seq<Pair>>, from: nat, outputs: map<U32, seq<Pair>>, handles: set<U32>, n: nat)
    requires handles <= all.Keys && handles <= outputs.Keys
  {
    forall i: nat :: i < n ==> Total(all, handles, from + i) == Total(outputs, handles, i)
  }

  /** What each voice plays at a frame of the long call, it plays in one of the short ones. */
  lemma OutputsChunks(voices: map<U32, Voice>, outputRate: U32, n: nat, m: nat)
    requires forall h :: h in voices ==> VoiceOk(voices[h])
    ensures var all, a := Mixer.Outputs(voices, outputRate, n + m), Mixer.Outputs(voices, outputRate, n);
      var b := Mixer.Outputs(Advanced(voices, outputRate, n), outputRate, m);
      Agree(all, 0, a, voices.Keys, n) && Agree(all, n, b, voices.Keys, m)
  {
    hide VoiceOk, MixVoice, Total;
    var all, a := Mixer.Outputs(voices, outputRate, n + m), Mixer.Outputs(voices, outputRate, n);
    var b := Mixer.Outputs(Advanced(voices, outputRate, n), outputRate, m);
    forall h, i: nat | h in voices
      ensures i < n ==> At(all[h], i) == At(a[h], i)
      ensures i < m ==> At(all[h], n + i) == At(b[h], i)
    {
      ChunkInvariance(voices[h], outputRate, n, m);
    }
    forall i: nat | i < n ensures Total(all, voices.Keys, 0 + i) == Total(a, voices.Keys, i) {
      TotalSame(all, a, voices.Keys, i, i);
    }
    forall i: nat | i < m ensures Total(all, voices.Keys, n + i) == Total(b, voices.Keys, i) {
      TotalSame(all, b, voices.Keys, n + i, i);
    }
  }

  lemma MixedAt(was: seq<Pair>, outputs: map<U32, seq<Pair>>, handles: set<U32>, i: nat)
    requires handles <= outputs.Keys && i < |was|
    ensures Mixed(was, outputs, handles)[i] == AddPair(was[i], Total(outputs, handles, i))
  {
    hide Total, AddPair;
  }

  /** Part of a mix is the mix of that part when the totals agree. */
  lemma MixedPart(was: seq<Pair>, all: map<U32, seq<Pair>>, from: nat, part: seq<Pair>, outputs: map<U32, seq<Pair>>,
                  handles: set<U32>)
    requires handles <= all.Keys && handles <= outputs.Keys
    requires from + |part| <= |was| && part == was[from..from + |part|]
    requires Agree(all, from, outputs, handles, |part|)
    ensures Mixed(was, all, handles)[from..from + |part|] == Mixed(part, outputs, handles)
  {
    hide Total, AddPair, Mixed;
    var slice, mixed := Mixed(was, all, handles)[from..from + |part|], Mixed(part, outputs, handles);
    forall i: nat | i < |part| ensures slice[i] == mixed[i] {
      MixedAt(was, all, handles, from + i);
      MixedAt(part, outputs, handles, i);
    }
  }

  lemma MixedHalves(first: seq<Pair>, second: seq<Pair>, all: map<U32, seq<Pair>>, a: map<U32, seq<Pair>>,
                    b: map<U32, seq<Pair>>, handles: set<U32>)
    requires handles <= all.Keys && handles <= a.Keys && handles <= b.Keys
    requires Agree(all, 0, a, handles, |first|) && Agree(all, |first|, b, handles, |second|)
    ensures Mixed(first + second, all, handles) == Mixed(first, a, handles) + Mixed(second, b, handles)
  {
    hide Agree, Mixed;
    MixedPart(first + second, all, 0, first, a, handles);
    MixedPart(first + second, all, |first|, second, b, handles);
    Halves(Mixed(first + second, all, handles), |first|, |second|);
  }

  lemma Halves(whole: seq<Pair>, n: nat, m: nat)
    requires |whole| == n + m
    ensures whole[0..0 + n] + whole[n..n + m] == whole
  {
  }

  lemma TagsChunk(voices: map<U32, Voice>, outputRate: U32, n: nat, m: nat, h: U32)
    requires forall g :: g in voices ==> VoiceOk(voices[g])
    ensures Mixer.Tags(voices, voices.Keys, outputRate, n + m, h)
         == Mixer.Tags(voices, voices.Keys, outputRate, n, h)
            + Mixer.Tags(Advanced(voices, outputRate, n), voices.Keys, outputRate, m, h)
  {
    hide VoiceOk, MixVoice;
    if h in voices { ChunkInvariance(voices[h], outputRate, n, m); }
  }

  lemma OutputsOfAll(voices: map<U32, Voice>, outputRate: U32, n: nat, m: nat)
    requires forall h :: h in voices ==> VoiceOk(voices[h])
    ensures Mixer.Outputs(voices, outputRate, n).Keys == voices.Keys
    ensures Mixer.Outputs(voices, outputRate, n + m).Keys == voices.Keys
    ensures Mixer.Outputs(Advanced(voices, outputRate, n), outputRate, m).Keys == voices.Keys
  {
    hide VoiceOk, MixVoice;
  }

  /** A whole mix of `n + m` frames fills the destination, leaves the voices and reports
      each voice's completions as one of `n` frames and then one of `m` do. */
  lemma MixChunks(voices: map<U32, Voice>, outputRate: U32, first: seq<Pair>, second: seq<Pair>)
    requires forall h :: h in voices ==> VoiceOk(voices[h])
    ensures var n, m := |first|, |second|;
      var next := Advanced(voices, outputRate, n);
      && Mixed(first + second, Mixer.Outputs(voices, outputRate, n + m), voices.Keys)
         == Mixed(first, Mixer.Outputs(voices, outputRate, n), voices.Keys)
            + Mixed(second, Mixer.Outputs(next, outputRate, m), voices.Keys)
      && Advanced(voices, outputRate, n + m) == Advanced(next, outputRate, m)
      && forall h :: Mixer.Tags(voices, voices.Keys, outputRate, n + m, h)
           == Mixer.Tags(voices, voices.Keys, outputRate, n, h) + Mixer.Tags(next, voices.Keys, outputRate, m, h)
  {
    hide VoiceOk, MixVoice, Mixed, Agree, Mixer.Tags, Mixer.Outputs;
    var n, m := |first|, |second|;
    OutputsChunks(voices, outputRate, n, m);
    OutputsOfAll(voices, outputRate, n, m);
    MixedHalves(first, second, Mixer.Outputs(voices, outputRate, n + m), Mixer.Outputs(voices, outputRate, n),
                Mixer.Outputs(Advanced(voices, outputRate, n), outputRate, m), voices.Keys);
    forall h | h in voices
      ensures MixVoice(voices[h], outputRate, n + m).voice
           == MixVoice(Advanced(voices, outputRate, n)[h], outputRate, m).voice
    {
      ChunkInvariance(voices[h], outputRate, n, m);
    }
    forall h
      ensures Mixer.Tags(voices, voices.Keys, outputRate, n + m, h)
           == Mixer.Tags(voices, voices.Keys, outputRate, n, h)
              + Mixer.Tags(Advanced(voices, outputRate, n), voices.Keys, outputRate, m, h)
    {
      TagsChunk(voices, outputRate, n, m, h);
    }
  }
}
