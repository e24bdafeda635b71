/**
  `blocked_waits`: a single pass over a snapshot that finds the waits still open at
  its end, proved against a statement about the log that does not mention the pass.
*/
module BlockedWaits {
  import opened Wrappers
  import opened DiagnosticEvents

  const WAIT_BEGIN: U16 := 1
  const WAIT_END: U16 := 2
  const SIGNAL: U16 := 3
  const GUEST_STATE_ADOPTED: U16 := 8
  const NO_TIMEOUT: U32 := 0xFFFF_FFFF

  datatype BlockedWait = BlockedWait(
    thread: U32, objectId: U64, guestAddress: U32, source: U64, guestCaller: U32,
    waitingSinceNs: S64, timeoutMs: U32, lastSignal: Option<Event>,
    signalledAfterWaitBegan: bool, deadlockCandidate: bool)

  // ------------------------------------------------------------ specification

  /** Event `i` began a wait in its thread's last run of consecutive WaitBegin events,
      and that thread recorded no WaitEnd afterwards; both read over the first `n` events. */
  ghost predicate OpenAt(events: seq<Event>, i: nat, n: nat)
    requires i < n <= |events|
  {
    && events[i].kind == WAIT_BEGIN
    && forall k :: i < k < n && events[k].thread == events[i].thread ==>
         && events[k].kind != WAIT_END
         && (events[k].kind == WAIT_BEGIN ==>
               forall m :: i < m < k && events[m].thread == events[i].thread ==> events[m].kind == WAIT_BEGIN)
  }

  predicate Signals(e: Event, obj: U64) {
    e.objectId == obj && (e.kind == SIGNAL || e.kind == GUEST_STATE_ADOPTED)
  }

  /** Event `j` is the latest signal (or adopted guest state) of a nonzero object
      among the first `n` events. */
  ghost predicate LastSignalAt(events: seq<Event>, obj: U64, j: nat, n: nat)
    requires n <= |events|
  {
    && j < n && obj != 0 && Signals(events[j], obj)
    && forall k :: j < k < n ==> !Signals(events[k], obj)
  }

  ghost predicate NoSignal(events: seq<Event>, obj: U64, n: nat)
    requires n <= |events|
  {
    obj == 0 || forall k :: 0 <= k < n ==> !Signals(events[k], obj)
  }

  /** The entry `w` says about open wait `i` what the whole log says about it. */
  ghost predicate Describes(w: BlockedWait, events: seq<Event>, i: nat)
    requires i < |events|
  {
    var e := events[i];
    && w.thread == e.thread && w.objectId == e.objectId && w.guestAddress == e.guestAddress
    && w.source == e.source && w.guestCaller == e.guestCaller
    && w.waitingSinceNs == e.hostTimeNs && w.timeoutMs == e.value
    && (w.deadlockCandidate <==> e.value == NO_TIMEOUT)
    && match w.lastSignal
       case None => NoSignal(events, e.objectId, |events|) && !w.signalledAfterWaitBegan
       case Some(s) =>
         exists j: nat :: LastSignalAt(events, e.objectId, j, |events|) && s == events[j]
                     && (w.signalledAfterWaitBegan <==> s.sequence > e.sequence)
  }

  predicate Before(events: seq<Event>, a: nat, b: nat)
    requires a < |events| && b < |events|
  {
    events[a].thread < events[b].thread || (events[a].thread == events[b].thread && a < b)
  }

  predicate SortedBySequence(events: seq<Event>) {
    forall a, b :: 0 <= a < b < |events| ==> events[a].sequence < events[b].sequence
  }

  /** In a log ordered by sequence, as every snapshot is, the flag of an entry tells
      whether the latest signal lies after the wait's own record. */
  lemma FlagMeansLater(w: BlockedWait, events: seq<Event>, i: nat, j: nat)
    requires i < |events| && OpenAt(events, i, |events|) && Describes(w, events, i) && SortedBySequence(events)
    requires LastSignalAt(events, events[i].objectId, j, |events|)
    ensures w.lastSignal == Some(events[j])
    ensures w.signalledAfterWaitBegan <==> i < j
  {
  }

  // ------------------------------------------------------------------ the pass

  ghost predicate LastKindAt(events: seq<Event>, thread: U32, kind: U16, n: nat)
    requires n <= |events|
  {
    exists p :: 0 <= p < n && events[p].thread == thread && events[p].kind == kind
                && forall m :: p < m < n ==> events[m].thread != thread
  }

  predicate Increasing(s: seq<nat>) {
    forall a, b :: 0 <= a < b < |s| ==> s[a] < s[b]
  }

  ghost predicate OpenExactly(events: seq<Event>, open: seq<nat>, thread: U32, n: nat)
    requires n <= |events|
  {
    && Increasing(open)
    && (forall i :: i in open ==> i < n && events[i].thread == thread && OpenAt(events, i, n))
    && (forall i :: 0 <= i < n && events[i].thread == thread && OpenAt(events, i, n) ==> i in open)
  }

  ghost predicate OpenOk(events: seq<Event>, n: nat, open: map<U32, seq<nat>>)
    requires n <= |events|
  {
    && (forall t :: t in open ==> OpenExactly(events, open[t], t, n))
    && (forall i :: 0 <= i < n && OpenAt(events, i, n) ==> events[i].thread in open)
  }

  ghost predicate KindsOk(events: seq<Event>, n: nat, lastKind: map<U32, U16>)
    requires n <= |events|
  {
    && (forall t :: t in lastKind ==> LastKindAt(events, t, lastKind[t], n))
    && (forall i :: 0 <= i < n ==> events[i].thread in lastKind)
  }

  ghost predicate SignalsOk(events: seq<Event>, n: nat, lastSignal: map<U64, nat>)
    requires n <= |events|
  {
    && (forall x :: x in lastSignal ==> LastSignalAt(events, x, lastSignal[x], n))
    && (forall x: U64 :: x !in lastSignal ==> NoSignal(events, x, n))
  }

  /** Another thread's event, or one of no concern to waits, leaves the open waits alone. */
  lemma OpenKept(events: seq<Event>, open: seq<nat>, thread: U32, n: nat)
    requires n < |events| && OpenExactly(events, open, thread, n)
    requires events[n].thread != thread || (events[n].kind != WAIT_BEGIN && events[n].kind != WAIT_END)
    ensures OpenExactly(events, open, thread, n + 1)
  {
  }

  lemma OpenEnded(events: seq<Event>, thread: U32, n: nat)
    requires n < |events| && events[n].thread == thread && events[n].kind == WAIT_END
    ensures OpenExactly(events, [], thread, n + 1)
  {
  }

  lemma OpenContinued(events: seq<Event>, open: seq<nat>, thread: U32, n: nat)
    requires n < |events| && OpenExactly(events, open, thread, n)
    requires events[n].thread == thread && events[n].kind == WAIT_BEGIN
    requires LastKindAt(events, thread, WAIT_BEGIN, n)
    ensures OpenExactly(events, open + [n], thread, n + 1)
  {
    var p :| 0 <= p < n && events[p].thread == thread && events[p].kind == WAIT_BEGIN
          && forall m :: p < m < n ==> events[m].thread != thread;
    forall i | 0 <= i < n && events[i].thread == thread
      ensures OpenAt(events, i, n) <==> OpenAt(events, i, n + 1)
    {
      if OpenAt(events, i, n) {
        forall m | i < m < n && events[m].thread == thread ensures events[m].kind == WAIT_BEGIN {
          assert m <= p;
        }
      }
    }
    assert OpenAt(events, n, n + 1);
    var grown := open + [n];
    assert Increasing(grown) by {
      forall a, b | 0 <= a < b < |grown| ensures grown[a] < grown[b] {
        assert grown[a] in open;
      }
    }
    forall i | i in grown ensures i == n || i in open { }
    forall i | i in open ensures i in grown { }
    assert grown[|open|] == n;
  }

  lemma OpenRestarted(events: seq<Event>, thread: U32, n: nat)
    requires n < |events| && events[n].thread == thread && events[n].kind == WAIT_BEGIN
    requires (forall i :: 0 <= i < n ==> events[i].thread != thread)
             || exists kind :: kind != WAIT_BEGIN && LastKindAt(events, thread, kind, n)
    ensures OpenExactly(events, [n], thread, n + 1)
  {
  }

  lemma Began(events: seq<Event>, n: nat, open: map<U32, seq<nat>>, lastKind: map<U32, U16>, kept: seq<nat>)
    requires n < |events| && OpenOk(events, n, open) && KindsOk(events, n, lastKind)
    requires events[n].kind == WAIT_BEGIN
    requires var t := events[n].thread;
      kept == if t in open && t in lastKind && lastKind[t] == WAIT_BEGIN then open[t] else []
    ensures OpenExactly(events, kept + [n], events[n].thread, n + 1)
  {
    var t := events[n].thread;
    if t in lastKind && lastKind[t] == WAIT_BEGIN {
      assert LastKindAt(events, t, WAIT_BEGIN, n);
      if t !in open {
        assert OpenExactly(events, [], t, n);
      }
      OpenContinued(events, kept, t, n);
    } else {
      if t in lastKind { assert LastKindAt(events, t, lastKind[t], n); }
      OpenRestarted(events, t, n);
    }
  }

  /** Replacing the entry of the event's own thread by what is open for it now. */
  lemma OpenStep(events: seq<Event>, n: nat, open: map<U32, seq<nat>>, mine: seq<nat>)
    requires n < |events| && OpenOk(events, n, open)
    requires OpenExactly(events, mine, events[n].thread, n + 1)
    ensures OpenOk(events, n + 1, open[events[n].thread := mine])
  {
    var open' := open[events[n].thread := mine];
    forall t | t in open' ensures OpenExactly(events, open'[t], t, n + 1) {
      if t != events[n].thread { OpenKept(events, open[t], t, n); }
    }
    forall i | 0 <= i < n + 1 && OpenAt(events, i, n + 1) ensures events[i].thread in open' {
      if i < n { assert OpenAt(events, i, n); }
    }
  }

  lemma OpenSame(events: seq<Event>, n: nat, open: map<U32, seq<nat>>)
    requires n < |events| && OpenOk(events, n, open)
    requires events[n].kind != WAIT_BEGIN && events[n].kind != WAIT_END
    ensures OpenOk(events, n + 1, open)
  {
    forall t | t in open ensures OpenExactly(events, open[t], t, n + 1) { OpenKept(events, open[t], t, n); }
    forall i | 0 <= i < n + 1 && OpenAt(events, i, n + 1) ensures events[i].thread in open {
      assert i < n && OpenAt(events, i, n);
    }
  }

  lemma KindsStep(events: seq<Event>, n: nat, lastKind: map<U32, U16>)
    requires n < |events| && KindsOk(events, n, lastKind)
    ensures KindsOk(events, n + 1, lastKind[events[n].thread := events[n].kind])
  {
  }

  lemma SignalsStep(events: seq<Event>, n: nat, lastSignal: map<U64, nat>)
    requires n < |events| && SignalsOk(events, n, lastSignal)
    ensures var e := events[n];
      SignalsOk(events, n + 1,
        if (e.kind == SIGNAL || e.kind == GUEST_STATE_ADOPTED) && e.objectId != 0
        then lastSignal[e.objectId := n] else lastSignal)
  {
  }

  lemma ScanStart(events: seq<Event>)
    ensures OpenOk(events, 0, map[]) && KindsOk(events, 0, map[]) && SignalsOk(events, 0, map[])
  {
  }

  method Scan(events: seq<Event>)
    returns (open: map<U32, seq<nat>>, lastSignal: map<U64, nat>)
    ensures OpenOk(events, |events|, open)
    ensures SignalsOk(events, |events|, lastSignal)
  {
    open, lastSignal := map[], map[];
    var lastKind: map<U32, U16> := map[];
    ScanStart(events);
    hide OpenOk, KindsOk, SignalsOk;
    for n := 0 to |events|
      invariant OpenOk(events, n, open) && KindsOk(events, n, lastKind) && SignalsOk(events, n, lastSignal)
    {
      var e := events[n];
      KindsStep(events, n, lastKind);
      SignalsStep(events, n, lastSignal);
      if e.kind == WAIT_BEGIN {
        var kept := if e.thread in open && e.thread in lastKind && lastKind[e.thread] == WAIT_BEGIN
                    then open[e.thread] else [];
        Began(events, n, open, lastKind, kept);
        OpenStep(events, n, open, kept + [n]);
        open := open[e.thread := kept + [n]];
      } else if e.kind == WAIT_END {
        OpenEnded(events, e.thread, n);
        OpenStep(events, n, open, []);
        open := open[e.thread := []];
      } else {
        OpenSame(events, n, open);
        if e.kind == SIGNAL || e.kind == GUEST_STATE_ADOPTED {
          if e.objectId != 0 { lastSignal := lastSignal[e.objectId := n]; }
        }
      }
      lastKind := lastKind[e.thread := e.kind];
    }
  }

  // ---------------------------------------------------------------- the report

  lemma Least(s: set<U32>) returns (least: U32)
    requires s != {}
    ensures least in s && forall t :: t in s ==> least <= t
  {
    var t :| t in s;
    if s == {t} {
      least := t;
    } else {
      var l := Least(s - {t});
      assert s == (s - {t}) + {t};
      least := if l < t then l else t;
    }
  }

  method Entry(events: seq<Event>, i: nat, lastSignal: map<U64, nat>) returns (w: BlockedWait)
    requires i < |events| && SignalsOk(events, |events|, lastSignal)
    ensures Describes(w, events, i)
  {
    var e := events[i];
    w := BlockedWait(e.thread, e.objectId, e.guestAddress, e.source, e.guestCaller,
                     e.hostTimeNs, e.value, None, false, e.value == NO_TIMEOUT);
    if e.objectId in lastSignal {
      var s := events[lastSignal[e.objectId]];
      w := w.(lastSignal := Some(s), signalledAfterWaitBegan := s.sequence > e.sequence);
      assert LastSignalAt(events, e.objectId, lastSignal[e.objectId], |events|);
    }
  }

  ghost predicate Listed(events: seq<Event>, waits: seq<BlockedWait>, at: seq<nat>) {
    && |waits| == |at|
    && (forall k :: 0 <= k < |at| ==>
          at[k] < |events| && OpenAt(events, at[k], |events|) && Describes(waits[k], events, at[k]))
    && (forall a, b :: 0 <= a < b < |at| ==> Before(events, at[a], at[b]))
  }

  lemma ListedMore(events: seq<Event>, waits: seq<BlockedWait>, at: seq<nat>, w: BlockedWait, i: nat)
    requires Listed(events, waits, at)
    requires i < |events| && OpenAt(events, i, |events|) && Describes(w, events, i)
    requires forall k :: 0 <= k < |at| ==> Before(events, at[k], i)
    ensures Listed(events, waits + [w], at + [i])
  {
  }

  /** The entries of one thread, appended after those of every smaller thread. */
  method ReportThread(events: seq<Event>, thread: U32, mine: seq<nat>, lastSignal: map<U64, nat>,
                      waits: seq<BlockedWait>, ghost at: seq<nat>)
    returns (waits': seq<BlockedWait>)
    requires Listed(events, waits, at) && SignalsOk(events, |events|, lastSignal)
    requires OpenExactly(events, mine, thread, |events|)
    requires forall k :: 0 <= k < |at| ==> events[at[k]].thread < thread
    ensures Listed(events, waits', at + mine)
  {
    waits' := waits;
    ghost var at' := at;
    for k := 0 to |mine|
      invariant at' == at + mine[..k] && Listed(events, waits', at')
    {
      assert mine[k] in mine;
      var w := Entry(events, mine[k], lastSignal);
      forall j | 0 <= j < |at'| ensures Before(events, at'[j], mine[k]) {
        if j >= |at| { assert at'[j] == mine[j - |at|] && mine[j - |at|] in mine; }
      }
      ListedMore(events, waits', at', w, mine[k]);
      waits', at' := waits' + [w], at' + [mine[k]];
      assert mine[..k + 1] == mine[..k] + [mine[k]];
    }
    assert mine[..|mine|] == mine;
  }

  /** Entry by entry the list describes the waits at these log positions: every open wait,
      once, by ascending thread and then by log order, and nothing else. */
  ghost predicate Reports(events: seq<Event>, waits: seq<BlockedWait>, at: seq<nat>) {
    && |waits| == |at|
    && (forall k :: 0 <= k < |at| ==>
          at[k] < |events| && OpenAt(events, at[k], |events|) && Describes(waits[k], events, at[k]))
    && (forall i :: 0 <= i < |events| && OpenAt(events, i, |events|) ==> i in at)
    && (forall a, b :: 0 <= a < b < |at| ==> Before(events, at[a], at[b]))
  }

  method Report(events: seq<Event>) returns (waits: seq<BlockedWait>)
    ensures exists at: seq<nat> :: Reports(events, waits, at)
  {
    hide OpenAt, Describes, Before;
    var open, lastSignal := Scan(events);
    waits := [];
    ghost var at: seq<nat> := [];
    var rest := open.Keys;
    while rest != {}
      invariant rest <= open.Keys && Listed(events, waits, at)
      invariant forall k :: 0 <= k < |at| ==> events[at[k]].thread in open.Keys - rest
      invariant forall s, t :: s in open.Keys - rest && t in rest ==> s < t
      invariant forall t :: t in open.Keys - rest ==> forall i :: i in open[t] ==> i in at
      decreases rest
    {
      ghost var least := Least(rest);
      var thread :| thread in rest && forall t :: t in rest ==> thread <= t;
      ghost var done := at;
      waits := ReportThread(events, thread, open[thread], lastSignal, waits, at);
      at := at + open[thread];
      forall k | 0 <= k < |at| ensures events[at[k]].thread in open.Keys - (rest - {thread}) {
        if k >= |done| { assert open[thread][k - |done|] in open[thread]; }
      }
      forall s, t | s in open.Keys - (rest - {thread}) && t in rest - {thread} ensures s < t {
        assert t in rest && (s == thread || s in open.Keys - rest);
      }
      rest := rest - {thread};
    }
    forall i | 0 <= i < |events| && OpenAt(events, i, |events|) ensures i in at {
      assert OpenExactly(events, open[events[i].thread], events[i].thread, |events|);
    }
    assert Reports(events, waits, at);
  }
}
