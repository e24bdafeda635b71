/**
  Render clients of the audio system: the records kept per slot, the sections that
  change them while the client lock is held, and the render loop that drains them.
*/
module RenderClients {
  import opened Wrappers

  const MAX_CLIENTS := 8
  const MAX_QUEUED := 8
  const FRAME := 256
  const HANDLE_TAG := 0x4155

  type U32 = n: nat | n < 0x1_0000_0000

  datatype Stereo = Stereo(left: real, right: real)

  const SILENCE := Stereo(0.0, 0.0)

  function Add(a: Stereo, b: Stereo): Stereo {
    Stereo(a.left + b.left, a.right + b.right)
  }

  type Frame = f: seq<Stereo> | |f| == FRAME witness seq(FRAME, _ => SILENCE)

  datatype Counters = Counters(
    issued: nat, returned: nat, failed: nat, submitted: nat, consumed: nat,
    rejectedUntranslatable: nat, rejectedSuspended: nat, rejectedQueueFull: nat)

  datatype Client = Client(
    registered: bool, retiring: bool, suspended: bool, callback: U32, wrapper: U32,
    queue: seq<Frame>, offset: nat, credits: nat, inFlight: nat, counters: Counters)

  const ZERO_COUNTERS := Counters(0, 0, 0, 0, 0, 0, 0, 0)
  const FREE := Client(false, false, false, 0, 0, [], 0, 0, 0, ZERO_COUNTERS)

  function Min(a: nat, b: nat): nat {
    if a < b then a else b
  }

  function Handle(index: nat): U32
    requires index < MAX_CLIENTS
  {
    HANDLE_TAG * 0x1_0000 + index
  }

  function HandleIndex(handle: U32): Option<nat> {
    if handle / 0x1_0000 == HANDLE_TAG && handle % 0x1_0000 < MAX_CLIENTS
    then Some(handle % 0x1_0000) else None
  }

  // ------------------------------------------------ sections under the client lock

  function FirstFree(clients: seq<Client>, from: nat := 0): Option<nat>
    decreases |clients| - from
  {
    if from >= |clients| then None
    else if !clients[from].registered && !clients[from].retiring then Some(from)
    else FirstFree(clients, from + 1)
  }

  function Registered(c: Client, callback: U32, wrapper: U32): Client {
    c.(registered := true, callback := callback, wrapper := wrapper, offset := 0,
       credits := MAX_QUEUED, counters := ZERO_COUNTERS)
  }

  /** A client being unregistered while a callback of it is out. */
  function Retired(c: Client): Client {
    c.(registered := false, retiring := true, suspended := true, credits := 0, queue := [], offset := 0)
  }

  function Submitted(c: Client, frame: Option<Frame>): Client {
    if frame.None? then
      c.(counters := c.counters.(rejectedUntranslatable := c.counters.rejectedUntranslatable + 1))
    else if c.suspended then
      c.(counters := c.counters.(rejectedSuspended := c.counters.rejectedSuspended + 1))
    else if |c.queue| >= MAX_QUEUED then
      c.(counters := c.counters.(rejectedQueueFull := c.counters.rejectedQueueFull + 1))
    else
      c.(queue := c.queue + [frame.value], counters := c.counters.(submitted := c.counters.submitted + 1))
  }

  predicate Accepts(c: Client, frame: Option<Frame>) {
    frame.Some? && !c.suspended && |c.queue| < MAX_QUEUED
  }

  function Suspended(clients: seq<Client>, suspend: bool): seq<Client> {
    seq(|clients|, i requires 0 <= i < |clients| =>
      if clients[i].registered then clients[i].(suspended := suspend) else clients[i])
  }

  /** Whether the pump issues a callback to this client. */
  predicate Due(c: Client) {
    c.registered && !c.retiring && !c.suspended && c.callback != 0 && |c.queue| < MAX_QUEUED && c.credits != 0
  }

  function Issued(c: Client): Client
    requires c.credits > 0
  {
    c.(credits := c.credits - 1, inFlight := c.inFlight + 1,
       counters := c.counters.(issued := c.counters.issued + 1))
  }

  function IssuedAll(clients: seq<Client>): seq<Client> {
    seq(|clients|, i requires 0 <= i < |clients| => if Due(clients[i]) then Issued(clients[i]) else clients[i])
  }

  function DueIndices(clients: seq<Client>, n: nat): seq<nat>
    requires n <= |clients|
  {
    if n == 0 then []
    else DueIndices(clients, n - 1) + (if Due(clients[n - 1]) then [n - 1] else [])
  }

  lemma {:induction false} DueIndicesExact(clients: seq<Client>, n: nat)
    requires n <= |clients|
    ensures forall i :: i in DueIndices(clients, n) <==> 0 <= i < n && Due(clients[i])
    ensures forall a, b :: 0 <= a < b < |DueIndices(clients, n)| ==>
              DueIndices(clients, n)[a] < DueIndices(clients, n)[b]
  {
    if n > 0 {
      DueIndicesExact(clients, n - 1);
      var before, all := DueIndices(clients, n - 1), DueIndices(clients, n);
      forall a, b | 0 <= a < b < |all| ensures all[a] < all[b] {
        assert all[a] in before;
      }
    }
  }

  /** The record after a callback has come back, before a retired slot is freed. */
  function Returned(c: Client, invoked: bool): Client {
    c.(inFlight := if c.inFlight > 0 then c.inFlight - 1 else 0,
       counters := c.counters.(returned := c.counters.returned + 1,
                               failed := c.counters.failed + (if invoked then 0 else 1)))
  }

  predicate Finished(c: Client) {
    c.retiring && c.inFlight == 0
  }

  datatype Retirement = Rejected | Freed(wrapper: U32) | CallbackOut

  /** The locked section of `unregister_render_client`. */
  function Retire(c: Client): (Client, Retirement) {
    if !c.registered || c.retiring then (c, Rejected)
    else if c.inFlight == 0 then (FREE, Freed(c.wrapper))
    else (Retired(c), CallbackOut)
  }

  /** The locked section after a callback: the new record, and the wrapper to release
      when this was the last callback of a retiring client. */
  function Settle(c: Client, invoked: bool): (Client, Option<U32>) {
    var r := Returned(c, invoked);
    if Finished(r) then (FREE, Some(r.wrapper)) else (r, None)
  }

  // ------------------------------------------------------- rendering, closed form

  /** The queued frames laid end to end. */
  function Flat(queue: seq<Frame>): (s: seq<Stereo>)
    ensures |s| == |queue| * FRAME
  {
    seq(|queue| * FRAME, k requires 0 <= k < |queue| * FRAME => queue[k / FRAME][k % FRAME])
  }

  function Whole(position: nat): nat {
    position / FRAME
  }

  function Part(position: nat): nat {
    position % FRAME
  }

  predicate Positioned(c: Client) {
    c.offset < FRAME && (c.queue == [] ==> c.offset == 0)
  }

  /** How many of `n` output frames the client can fill. */
  function Filled(c: Client, n: nat): nat
    requires Positioned(c)
  {
    Min(n, |c.queue| * FRAME - c.offset)
  }

  function Played(c: Client, n: nat): (s: seq<Stereo>)
    requires Positioned(c)
    ensures |s| == Filled(c, n) <= n
  {
    Flat(c.queue)[c.offset..c.offset + Filled(c, n)]
  }

  function Rendered(c: Client, n: nat): Client
    requires Positioned(c)
  {
    var position := c.offset + Filled(c, n);
    var used := Whole(position);
    c.(queue := c.queue[used..], offset := Part(position),
       credits := if c.credits >= MAX_QUEUED then c.credits else Min(MAX_QUEUED, c.credits + used),
       counters := c.counters.(consumed := c.counters.consumed + used))
  }

  /** `samples` added into `s` from position `from` on. */
  function Laid(s: seq<Stereo>, from: nat, samples: seq<Stereo>): (r: seq<Stereo>)
    ensures |r| == |s|
  {
    seq(|s|, j requires 0 <= j < |s| =>
      if from <= j < from + |samples| then Add(s[j], samples[j - from]) else s[j])
  }

  lemma LaidTwice(s: seq<Stereo>, a: seq<Stereo>, b: seq<Stereo>)
    ensures Laid(Laid(s, 0, a), |a|, b) == Laid(s, 0, a + b)
  {
  }

  lemma LaidFields(s: seq<Stereo>, samples: seq<Stereo>)
    ensures forall j :: 0 <= j < |s| ==>
      var r := Laid(s, 0, samples)[j];
      && r.left == s[j].left + (if j < |samples| then samples[j].left else 0.0)
      && r.right == s[j].right + (if j < |samples| then samples[j].right else 0.0)
  {
  }

  predicate Active(c: Client) {
    c.registered && !c.suspended
  }

  function RenderedAll(clients: seq<Client>, n: nat): seq<Client>
    requires forall i :: 0 <= i < |clients| ==> Positioned(clients[i])
  {
    seq(|clients|, i requires 0 <= i < |clients| => if Active(clients[i]) then Rendered(clients[i], n) else clients[i])
  }

  /** Some client is active but none has a frame to play. */
  predicate Starved(clients: seq<Client>) {
    && (exists i :: 0 <= i < |clients| && Active(clients[i]))
    && (forall i :: 0 <= i < |clients| && Active(clients[i]) ==> clients[i].queue == [])
  }

  /** The output of `n` frames: what the first `k` clients play, added up. */
  function Mixed(clients: seq<Client>, k: nat, n: nat): (s: seq<Stereo>)
    requires k <= |clients| && forall i :: 0 <= i < |clients| ==> Positioned(clients[i])
    ensures |s| == n
  {
    if k == 0 then seq(n, _ => SILENCE)
    else if Active(clients[k - 1]) then Laid(Mixed(clients, k - 1, n), 0, Played(clients[k - 1], n))
    else Mixed(clients, k - 1, n)
  }

  /** What the active clients among the first `k` play at output frame `j`, left and right
      summed as numbers. */
  function LeftSum(clients: seq<Client>, k: nat, n: nat, j: nat): real
    requires k <= |clients| && forall i :: 0 <= i < |clients| ==> Positioned(clients[i])
  {
    if k == 0 then 0.0
    else
      LeftSum(clients, k - 1, n, j)
      + (if clients[k - 1].registered && !clients[k - 1].suspended && j < |Played(clients[k - 1], n)|
         then Played(clients[k - 1], n)[j].left else 0.0)
  }

  function RightSum(clients: seq<Client>, k: nat, n: nat, j: nat): real
    requires k <= |clients| && forall i :: 0 <= i < |clients| ==> Positioned(clients[i])
  {
    if k == 0 then 0.0
    else
      RightSum(clients, k - 1, n, j)
      + (if clients[k - 1].registered && !clients[k - 1].suspended && j < |Played(clients[k - 1], n)|
         then Played(clients[k - 1], n)[j].right else 0.0)
  }

  lemma {:induction false} MixedSums(clients: seq<Client>, k: nat, n: nat, j: nat)
    requires k <= |clients| && j < n && forall i :: 0 <= i < |clients| ==> Positioned(clients[i])
    ensures Mixed(clients, k, n)[j] == Stereo(LeftSum(clients, k, n, j), RightSum(clients, k, n, j))
    decreases k
  {
    hide Positioned, Played;
    if k > 0 { MixedSums(clients, k - 1, n, j); }
  }

  /** A client plays its unread queued samples in order, as many as are asked for or left. */
  lemma PlaysQueued(c: Client, n: nat, j: nat)
    requires Positioned(c)
    ensures var unread := |c.queue| * FRAME - c.offset;
      |Played(c, n)| == (if unread < n then unread else n)
    ensures j < |Played(c, n)| ==>
      var at := c.offset + j;
      at / FRAME < |c.queue| && Played(c, n)[j] == c.queue[at / FRAME][at % FRAME]
  {
  }

  /** What is left of a client: the samples behind those it played, and a credit back for
      every frame used up, never more than MAX_QUEUED in all. */
  lemma KeepsUnplayed(c: Client, n: nat, j: nat)
    requires Positioned(c)
    ensures var d, k := Rendered(c, n), |Played(c, n)|;
      && Positioned(d)
      && |d.queue| * FRAME - d.offset == |c.queue| * FRAME - c.offset - k
      && (j < |d.queue| * FRAME - d.offset ==>
            var at, was := d.offset + j, c.offset + k + j;
            && at / FRAME < |d.queue| && was / FRAME < |c.queue|
            && d.queue[at / FRAME][at % FRAME] == c.queue[was / FRAME][was % FRAME])
      && d.counters.consumed - c.counters.consumed == |c.queue| - |d.queue|
      && (c.credits <= MAX_QUEUED ==>
            d.credits == Min(MAX_QUEUED, c.credits + (|c.queue| - |d.queue|)))
      && d == c.(queue := d.queue, offset := d.offset, credits := d.credits,
                 counters := c.counters.(consumed := d.counters.consumed))
  {
    hide Flat, Whole, Part, Played;
    var k := Filled(c, n);
    RenderedPositioned(c, n);
    var position, used := c.offset + k, Whole(c.offset + k);
    Split(position, 0);
    var d := Rendered(c, n);
    assert |Played(c, n)| == k;
    if j < |d.queue| * FRAME - d.offset { SameSample(c.queue, used, d.offset + j); }
  }

  lemma SameSample(queue: seq<Frame>, used: nat, at: nat)
    requires used <= |queue| && at < (|queue| - used) * FRAME
    ensures var was := used * FRAME + at;
      at / FRAME < |queue[used..]| && was / FRAME < |queue|
      && queue[used..][at / FRAME][at % FRAME] == queue[was / FRAME][was % FRAME]
  {
  }

  /** With one active client the output is its own queued samples, silent past their end. */
  lemma {:induction false} OneClientPlays(clients: seq<Client>, k: nat, n: nat, j: nat, i: nat)
    requires k <= |clients| && forall a :: 0 <= a < |clients| ==> Positioned(clients[a])
    requires i < k && forall a :: 0 <= a < |clients| && a != i ==> !clients[a].registered || clients[a].suspended
    requires clients[i].registered && !clients[i].suspended && j < n
    ensures var at := clients[i].offset + j;
      if at < |clients[i].queue| * FRAME then
        && LeftSum(clients, k, n, j) == clients[i].queue[at / FRAME][at % FRAME].left
        && RightSum(clients, k, n, j) == clients[i].queue[at / FRAME][at % FRAME].right
      else
        LeftSum(clients, k, n, j) == 0.0 && RightSum(clients, k, n, j) == 0.0
    decreases k
  {
    hide Played, Positioned;
    PlaysQueued(clients[i], n, j);
    if k - 1 == i { SilentBelow(clients, i, n, j); } else { OneClientPlays(clients, k - 1, n, j, i); }
  }

  lemma {:induction false} SilentBelow(clients: seq<Client>, k: nat, n: nat, j: nat)
    requires k <= |clients| && forall a :: 0 <= a < |clients| ==> Positioned(clients[a])
    requires forall a :: 0 <= a < k ==> !clients[a].registered || clients[a].suspended
    ensures LeftSum(clients, k, n, j) == 0.0 && RightSum(clients, k, n, j) == 0.0
    decreases k
  {
    hide Played, Positioned;
    if k > 0 { SilentBelow(clients, k - 1, n, j); }
  }

  lemma FlatDrop(queue: seq<Frame>, used: nat)
    requires used <= |queue|
    ensures Flat(queue[used..]) == Flat(queue)[used * FRAME..]
  {
    var a, b := Flat(queue[used..]), Flat(queue)[used * FRAME..];
    assert |a| == |b|;
    forall k | 0 <= k < |a| ensures a[k] == b[k] {
      assert (used * FRAME + k) / FRAME == used + k / FRAME && (used * FRAME + k) % FRAME == k % FRAME;
    }
  }

  lemma FlatAppend(queue: seq<Frame>, frame: Frame)
    ensures Flat(queue + [frame]) == Flat(queue) + frame
  {
    var a, b := Flat(queue + [frame]), Flat(queue) + frame;
    forall k | 0 <= k < |a| ensures a[k] == b[k] {
      if k >= |queue| * FRAME { assert k / FRAME == |queue| && k % FRAME == k - |queue| * FRAME; }
    }
  }

  lemma Split(position: nat, more: nat)
    ensures Whole(position + more) == Whole(position) + Whole(Part(position) + more)
    ensures Part(position + more) == Part(Part(position) + more)
    ensures position == Whole(position) * FRAME + Part(position) && Part(position) < FRAME
  {
  }

  lemma RenderedPositioned(c: Client, n: nat)
    requires Positioned(c)
    ensures Positioned(Rendered(c, n))
    ensures Whole(c.offset + Filled(c, n)) <= |c.queue|
    ensures c.offset + Filled(c, n) <= |c.queue| * FRAME
  {
  }

  lemma FilledChunks(c: Client, n: nat, m: nat)
    requires Positioned(c)
    ensures Positioned(Rendered(c, n))
    ensures Filled(c, n + m) == Filled(c, n) + Filled(Rendered(c, n), m)
    ensures Filled(c, n) < n ==> Filled(Rendered(c, n), m) == 0
  {
    RenderedPositioned(c, n);
    var position := c.offset + Filled(c, n);
    Split(position, 0);
    hide Whole, Part;
    var d := Rendered(c, n);
    assert |d.queue| * FRAME - d.offset == |c.queue| * FRAME - position;
  }

  lemma PlayedChunks(c: Client, n: nat, m: nat)
    requires Positioned(c)
    ensures Positioned(Rendered(c, n))
    ensures Played(c, n) + Played(Rendered(c, n), m) == Played(c, n + m)
  {
    hide Whole, Part, Flat, Filled;
    FilledChunks(c, n, m);
    RenderedPositioned(c, n);
    var d, all := Rendered(c, n), Flat(c.queue);
    var position, more := c.offset + Filled(c, n), Filled(d, m);
    var used := Whole(position);
    Split(position, 0);
    RenderedPositioned(d, m);
    FlatDrop(c.queue, used);
    assert Flat(d.queue) == all[used * FRAME..];
    Slices(all, c.offset, position, used * FRAME, more);
  }

  lemma Slices<T>(s: seq<T>, a: nat, b: nat, k: nat, more: nat)
    requires a <= b && k <= b && b + more <= |s|
    ensures s[k..][b - k..b - k + more] == s[b..b + more]
    ensures s[a..b] + s[b..b + more] == s[a..b + more]
  {
  }

  /** Rendering `n` and then `m` frames plays the same samples and leaves the same
      record as rendering `n + m` frames at once. */
  lemma RenderChunks(c: Client, n: nat, m: nat)
    requires Positioned(c)
    ensures Positioned(Rendered(c, n))
    ensures Rendered(Rendered(c, n), m) == Rendered(c, n + m)
    ensures Filled(c, n) < n ==> Filled(Rendered(c, n), m) == 0
    ensures Played(c, n) + Played(Rendered(c, n), m) == Played(c, n + m)
  {
    hide Whole, Part, Flat, Filled, Played;
    PlayedChunks(c, n, m);
    FilledChunks(c, n, m);
    RenderedPositioned(c, n);
    var d := Rendered(c, n);
    RenderedPositioned(d, m);
    var position := c.offset + Filled(c, n);
    var used, used2 := Whole(position), Whole(d.offset + Filled(d, m));
    Split(position, Filled(d, m));
    assert c.queue[used..][used2..] == c.queue[used + used2..];
  }

  // ----------------------------------------------------------------- the system

  class AudioSystem {
    var clients: seq<Client>
    var underruns: nat
    var ticSamples: nat
    var rejectedUnregistered: nat

    ghost predicate Valid()
      reads this
    {
      |clients| == MAX_CLIENTS && forall i :: 0 <= i < MAX_CLIENTS ==> Positioned(clients[i])
    }

    constructor ()
      ensures Valid() && clients == seq(MAX_CLIENTS, _ => FREE)
      ensures underruns == ticSamples == rejectedUnregistered == 0
    {
      clients := seq(MAX_CLIENTS, _ => FREE);
      underruns, ticSamples, rejectedUnregistered := 0, 0, 0;
    }

    /** The locked section of `register_render_client`; `wrapper` is already allocated. */
    method Insert(callback: U32, wrapper: U32) returns (handle: Option<U32>)
      requires Valid()
      modifies this`clients
      ensures Valid()
      ensures match FirstFree(old(clients))
              case None => handle == None && clients == old(clients)
              case Some(i) =>
                i < MAX_CLIENTS && handle == Some(Handle(i)) &&
                clients == old(clients)[i := Registered(old(clients)[i], callback, wrapper)]
      ensures handle == None <==>
        forall k :: 0 <= k < MAX_CLIENTS ==> old(clients)[k].registered || old(clients)[k].retiring
      ensures handle.Some? ==> 0x4155_0000 <= handle.value < 0x4155_0000 + MAX_CLIENTS
      ensures handle.Some? ==>
        var i := handle.value - 0x4155_0000;
        && !old(clients)[i].registered && !old(clients)[i].retiring
        && (forall k :: 0 <= k < i ==> old(clients)[k].registered || old(clients)[k].retiring)
        && (forall k :: 0 <= k < MAX_CLIENTS && k != i ==> clients[k] == old(clients)[k])
        && var c := clients[i];
           && c.registered && !c.retiring && c.callback == callback && c.wrapper == wrapper
           && c.offset == 0 && c.credits == MAX_QUEUED && c.counters == ZERO_COUNTERS
    {
      for i := 0 to MAX_CLIENTS
        invariant clients == old(clients) && FirstFree(clients) == FirstFree(clients, i)
        invariant forall k :: 0 <= k < i ==> clients[k].registered || clients[k].retiring
      {
        if !clients[i].registered && !clients[i].retiring {
          clients := clients[i := Registered(clients[i], callback, wrapper)];
          return Some(Handle(i));
        }
      }
      return None;
    }

    method Submit(handle: U32, frame: Option<Frame>) returns (accepted: bool)
      requires Valid()
      modifies this`clients, this`rejectedUnregistered
      ensures Valid()
      ensures var i := HandleIndex(handle);
        if i.Some? && old(clients)[i.value].registered then
          && accepted == Accepts(old(clients)[i.value], frame)
          && clients == old(clients)[i.value := Submitted(old(clients)[i.value], frame)]
          && rejectedUnregistered == old(rejectedUnregistered)
        else
          !accepted && clients == old(clients) && rejectedUnregistered == old(rejectedUnregistered) + 1
      ensures forall i :: 0 <= i < MAX_CLIENTS && handle == 0x4155_0000 + i && old(clients)[i].registered ==>
        var c, d := old(clients)[i], clients[i];
        && (accepted <==> frame.Some? && !c.suspended && |c.queue| < MAX_QUEUED)
        && (accepted ==> d.queue == c.queue + [frame.value] && d.counters.submitted == c.counters.submitted + 1)
        && (!accepted ==> d.queue == c.queue && d.counters.submitted == c.counters.submitted)
        && (frame.None? <==> d.counters.rejectedUntranslatable == c.counters.rejectedUntranslatable + 1)
        && (frame.Some? && c.suspended <==> d.counters.rejectedSuspended == c.counters.rejectedSuspended + 1)
        && (frame.Some? && !c.suspended && |c.queue| >= MAX_QUEUED
            <==> d.counters.rejectedQueueFull == c.counters.rejectedQueueFull + 1)
        && d.offset == c.offset && d.credits == c.credits && d.inFlight == c.inFlight
    {
      var i := HandleIndex(handle);
      if i.None? || !clients[i.value].registered {
        rejectedUnregistered := rejectedUnregistered + 1;
        return false;
      }
      var c := clients[i.value];
      if frame.None? {
        c := c.(counters := c.counters.(rejectedUntranslatable := c.counters.rejectedUntranslatable + 1));
      } else if c.suspended {
        c := c.(counters := c.counters.(rejectedSuspended := c.counters.rejectedSuspended + 1));
      } else if |c.queue| >= MAX_QUEUED {
        c := c.(counters := c.counters.(rejectedQueueFull := c.counters.rejectedQueueFull + 1));
      } else {
        c := c.(queue := c.queue + [frame.value]);
        c := c.(counters := c.counters.(submitted := c.counters.submitted + 1));
        accepted := true;
        clients := clients[i.value := c];
        return;
      }
      clients := clients[i.value := c];
      return false;
    }

    method Unregister(handle: U32) returns (outcome: Retirement)
      requires Valid()
      modifies this`clients
      ensures Valid()
      ensures match HandleIndex(handle)
              case None => outcome == Rejected && clients == old(clients)
              case Some(i) =>
                outcome == Retire(old(clients)[i]).1 && clients == old(clients)[i := Retire(old(clients)[i]).0]
      ensures forall i :: 0 <= i < MAX_CLIENTS && handle == 0x4155_0000 + i ==>
        var c, d := old(clients)[i], clients[i];
        if !c.registered || c.retiring then outcome == Rejected && d == c
        else if c.inFlight == 0 then outcome == Freed(c.wrapper) && d == FREE
        else outcome == CallbackOut
             && d == c.(registered := false, retiring := true, suspended := true, credits := 0,
                        queue := [], offset := 0)
    {
      var i := HandleIndex(handle);
      if i.None? { return Rejected; }
      var c := clients[i.value];
      if !c.registered || c.retiring { return Rejected; }
      c := c.(registered := false, retiring := true, suspended := true);
      c := c.(credits := 0, queue := [], offset := 0);
      if c.inFlight == 0 {
        outcome := Freed(c.wrapper);
        c := FREE;
      } else {
        outcome := CallbackOut;
      }
      clients := clients[i.value := c];
    }

    /** The pump's locked section after one callback. */
    method AfterCallback(i: nat, invoked: bool) returns (wrapper: Option<U32>)
      requires Valid() && i < MAX_CLIENTS
      modifies this`clients
      ensures Valid()
      ensures wrapper == Settle(old(clients)[i], invoked).1
      ensures clients == old(clients)[i := Settle(old(clients)[i], invoked).0]
      ensures old(clients)[i].inFlight > 0 ==>
        var c, d := old(clients)[i], clients[i];
        if c.retiring && c.inFlight == 1 then wrapper == Some(c.wrapper) && d == FREE
        else wrapper == None && d.inFlight == c.inFlight - 1 && d.queue == c.queue && d.credits == c.credits
             && d.counters.returned == c.counters.returned + 1
             && d.counters.failed == c.counters.failed + (if invoked then 0 else 1)
    {
      var c := clients[i];
      if c.inFlight > 0 { c := c.(inFlight := c.inFlight - 1); }
      c := c.(counters := c.counters.(returned := c.counters.returned + 1));
      if !invoked { c := c.(counters := c.counters.(failed := c.counters.failed + 1)); }
      wrapper := None;
      if c.retiring && c.inFlight == 0 {
        wrapper := Some(c.wrapper);
        c := FREE;
      }
      clients := clients[i := c];
    }

    method Suspend(suspend: bool) returns (any: bool)
      requires Valid()
      modifies this`clients
      ensures Valid() && clients == Suspended(old(clients), suspend)
      ensures forall i :: 0 <= i < MAX_CLIENTS ==>
        clients[i] == if old(clients)[i].registered then old(clients)[i].(suspended := suspend) else old(clients)[i]
      ensures any <==> exists i :: 0 <= i < MAX_CLIENTS && old(clients)[i].registered
    {
      any := false;
      for i := 0 to MAX_CLIENTS
        invariant |clients| == MAX_CLIENTS
        invariant forall k :: 0 <= k < i ==> clients[k] == Suspended(old(clients), suspend)[k]
        invariant forall k :: i <= k < MAX_CLIENTS ==> clients[k] == old(clients)[k]
        invariant any <==> exists k :: 0 <= k < i && old(clients)[k].registered
      {
        if clients[i].registered {
          clients := clients[i := clients[i].(suspended := suspend)];
          any := true;
        }
      }
      assert clients == Suspended(old(clients), suspend);
    }

    /** The collecting half of one pump pass. */
    method Collect() returns (pending: seq<nat>)
      requires Valid()
      modifies this`clients
      ensures Valid() && clients == IssuedAll(old(clients))
      ensures pending == DueIndices(old(clients), MAX_CLIENTS)
      ensures forall i :: 0 <= i < MAX_CLIENTS ==>
        var c, d := old(clients)[i], clients[i];
        && (i in pending <==> c.registered && !c.retiring && !c.suspended && c.callback != 0
                              && |c.queue| < MAX_QUEUED && c.credits > 0)
        && (i in pending ==> d.credits == c.credits - 1 && d.inFlight == c.inFlight + 1 && d.queue == c.queue
                             && d.counters.issued == c.counters.issued + 1)
        && (i !in pending ==> d == c)
    {
      pending := [];
      for i := 0 to MAX_CLIENTS
        invariant |clients| == MAX_CLIENTS
        invariant forall k :: 0 <= k < i ==> clients[k] == IssuedAll(old(clients))[k]
        invariant forall k :: i <= k < MAX_CLIENTS ==> clients[k] == old(clients)[k]
        invariant pending == DueIndices(old(clients), i)
      {
        var c := clients[i];
        if !(!c.registered || c.retiring || c.suspended || c.callback == 0
             || |c.queue| >= MAX_QUEUED || c.credits == 0) {
          c := c.(credits := c.credits - 1, inFlight := c.inFlight + 1);
          c := c.(counters := c.counters.(issued := c.counters.issued + 1));
          clients := clients[i := c];
          pending := pending + [i];
        }
      }
      assert clients == IssuedAll(old(clients));
      DueIndicesExact(old(clients), MAX_CLIENTS);
    }

    method AddSpan(output: array<Stereo>, from: nat, samples: seq<Stereo>)
      requires from + |samples| <= output.Length
      modifies output
      ensures output[..] == Laid(old(output[..]), from, samples)
    {
      for i := 0 to |samples|
        invariant forall j :: 0 <= j < output.Length ==>
                    output[j] == if from <= j < from + i then Add(old(output[j]), samples[j - from])
                                 else old(output[j])
      {
        output[from + i] := Add(output[from + i], samples[i]);
      }
      assert output[..] == Laid(old(output[..]), from, samples);
    }

    /** Moves a client past `take` frames of its front buffer, freeing the buffer and
        returning a credit when it is used up. */
    method Advance(c: Client, take: nat) returns (c': Client)
      requires Positioned(c) && c.queue != [] && c.offset + take <= FRAME
      ensures c' == Rendered(c, take)
    {
      OneFrame(c, take);
      c' := c.(offset := c.offset + take);
      if c'.offset == FRAME {
        c' := c'.(queue := c'.queue[1..], offset := 0);
        c' := c'.(counters := c'.counters.(consumed := c'.counters.consumed + 1));
        if c'.credits < MAX_QUEUED {
          c' := c'.(credits := c'.credits + 1);
        }
      }
    }

    /** One pass of the loop below: as much of the front frame as the output still takes. */
    method RenderPass(ghost c: Client, c1: Client, done: nat, output: array<Stereo>, ghost was: seq<Stereo>)
      returns (c2: Client, done2: nat)
      requires Positioned(c) && done < output.Length && c1.queue != []
      requires done == Filled(c, done) && c1 == Rendered(c, done) && Positioned(c1)
      requires output[..] == Laid(was, 0, Played(c, done))
      modifies output
      ensures done < done2 <= output.Length
      ensures done2 == Filled(c, done2) && c2 == Rendered(c, done2) && Positioned(c2)
      ensures output[..] == Laid(was, 0, Played(c, done2))
    {
      hide Filled, Rendered, Flat, Played, Laid;
      var take := Min(FRAME - c1.offset, output.Length - done);
      var span := c1.queue[0][c1.offset..c1.offset + take];
      More(c, done, take);
      LaidTwice(was, Played(c, done), span);
      AddSpan(output, done, span);
      c2 := Advance(c1, take);
      done2 := done + take;
    }

    /** The client part of `render`: one client's frames added to the output. */
    method RenderOne(c: Client, output: array<Stereo>) returns (c': Client)
      requires Positioned(c)
      modifies output
      ensures c' == Rendered(c, output.Length)
      ensures output[..] == Laid(old(output[..]), 0, Played(c, output.Length))
      ensures forall j :: 0 <= j < output.Length ==>
        var p := Played(c, output.Length);
        && output[j].left == old(output[j].left) + (if j < |p| then p[j].left else 0.0)
        && output[j].right == old(output[j].right) + (if j < |p| then p[j].right else 0.0)
    {
      hide Filled, Rendered, Flat, Played, Positioned, Laid;
      var done := 0;
      c' := c;
      ghost var was := output[..];
      NothingYet(c, was);
      while done < output.Length && c'.queue != []
        invariant done <= output.Length
        invariant done == Filled(c, done) && c' == Rendered(c, done) && Positioned(c')
        invariant output[..] == Laid(was, 0, Played(c, done))
        decreases output.Length - done
      {
        c', done := RenderPass(c, c', done, output, was);
      }
      Exhausted(c, done, output.Length);
      LaidFields(was, Played(c, output.Length));
      assert forall j :: 0 <= j < output.Length ==> output[j] == output[..][j] && was[j] == old(output[j]);
    }

    static lemma OneWhole(position: nat)
      requires position <= FRAME
      ensures Whole(position) == (if position == FRAME then 1 else 0)
      ensures Part(position) == (if position == FRAME then 0 else position)
    {
    }

    /** Rendering no more than the rest of the front frame, as one loop pass does. */
    static lemma OneFrame(c: Client, take: nat)
      requires Positioned(c) && c.queue != [] && c.offset + take <= FRAME
      ensures Filled(c, take) == take
      ensures Played(c, take) == c.queue[0][c.offset..c.offset + take]
      ensures Rendered(c, take) ==
        if c.offset + take < FRAME then c.(offset := c.offset + take)
        else c.(queue := c.queue[1..], offset := 0,
                credits := if c.credits < MAX_QUEUED then c.credits + 1 else c.credits,
                counters := c.counters.(consumed := c.counters.consumed + 1))
    {
      assert c.queue[0..] == c.queue;
      OneWhole(c.offset + take);
    }

    static lemma More(c: Client, done: nat, take: nat)
      requires Positioned(c) && done == Filled(c, done)
      requires Positioned(Rendered(c, done))
      requires var d := Rendered(c, done); d.queue != [] && d.offset + take <= FRAME
      ensures var d := Rendered(c, done);
        && |Played(c, done)| == done
        && Played(c, done + take) == Played(c, done) + d.queue[0][d.offset..d.offset + take]
      ensures Filled(c, done + take) == done + take
      ensures Rendered(c, done + take) == Rendered(Rendered(c, done), take)
      ensures Positioned(Rendered(c, done + take))
    {
      hide Filled, Rendered, Flat, Add, Played;
      RenderedPositioned(c, done);
      var d := Rendered(c, done);
      OneFrame(d, take);
      RenderChunks(c, done, take);
      FilledChunks(c, done, take);
      RenderedPositioned(c, done + take);
    }

    static lemma NothingYet(c: Client, was: seq<Stereo>)
      requires Positioned(c)
      ensures Filled(c, 0) == 0 && Rendered(c, 0) == c
      ensures was == Laid(was, 0, Played(c, 0))
    {
    }

    static lemma Exhausted(c: Client, done: nat, n: nat)
      requires Positioned(c) && done <= n && done == Filled(c, done)
      requires done == n || Rendered(c, done).queue == []
      ensures Filled(c, n) == done && Rendered(c, n) == Rendered(c, done) && Played(c, n) == Played(c, done)
    {
    }

    method Silence(output: array<Stereo>)
      modifies output
      ensures output[..] == seq(output.Length, _ => SILENCE)
    {
      for j := 0 to output.Length
        invariant forall k :: 0 <= k < j ==> output[k] == SILENCE
      {
        output[j] := SILENCE;
      }
    }

    static lemma AllPositioned(clients: seq<Client>, n: nat)
      requires forall i :: 0 <= i < |clients| ==> Positioned(clients[i])
      ensures forall i :: 0 <= i < |clients| ==> Positioned(RenderedAll(clients, n)[i])
    {
      hide Rendered, Positioned;
      forall i | 0 <= i < |clients| ensures Positioned(RenderedAll(clients, n)[i]) {
        RenderedPositioned(clients[i], n);
      }
    }

    /** The client loop of `render`: what every active client plays, added into silence. */
    method Render(output: array<Stereo>)
      requires Valid()
      modifies this`clients, this`underruns, this`ticSamples, output
      ensures Valid()
      ensures output.Length == 0 ==>
        clients == old(clients) && underruns == old(underruns) && ticSamples == old(ticSamples)
      ensures output.Length > 0 ==>
        && clients == RenderedAll(old(clients), output.Length)
        && output[..] == Mixed(old(clients), MAX_CLIENTS, output.Length)
        && (forall j :: 0 <= j < output.Length ==>
              && output[j].left == LeftSum(old(clients), MAX_CLIENTS, output.Length, j)
              && output[j].right == RightSum(old(clients), MAX_CLIENTS, output.Length, j))
        && ticSamples == old(ticSamples) + output.Length
        && underruns == old(underruns) + (if Starved(old(clients)) then 1 else 0)
    {
      hide Flat, Filled, Played, Rendered, Laid, Positioned;
      if output.Length == 0 { return; }
      ghost var was := clients;
      Silence(output);
      var active, audio := false, false;
      for i := 0 to MAX_CLIENTS
        invariant |clients| == MAX_CLIENTS
        invariant forall k :: 0 <= k < i ==> clients[k] == RenderedAll(was, output.Length)[k]
        invariant forall k :: i <= k < MAX_CLIENTS ==> clients[k] == was[k]
        invariant output[..] == Mixed(was, i, output.Length)
        invariant active <==> exists k :: 0 <= k < i && Active(was[k])
        invariant audio <==> exists k :: 0 <= k < i && Active(was[k]) && was[k].queue != []
        invariant underruns == old(underruns) && ticSamples == old(ticSamples)
      {
        var c := clients[i];
        if c.registered && !c.suspended {
          active := true;
          if c.queue != [] { audio := true; }
          c := RenderOne(c, output);
          clients := clients[i := c];
        }
      }
      assert clients == RenderedAll(was, output.Length);
      AllPositioned(was, output.Length);
      forall j | 0 <= j < output.Length
        ensures output[..][j] == Stereo(LeftSum(was, MAX_CLIENTS, output.Length, j),
                                        RightSum(was, MAX_CLIENTS, output.Length, j))
      {
        MixedSums(was, MAX_CLIENTS, output.Length, j);
      }
      assert Starved(was) <==> active && !audio;
      if active && !audio { underruns := underruns + 1; }
      ticSamples := ticSamples + output.Length;
    }
  }
}
