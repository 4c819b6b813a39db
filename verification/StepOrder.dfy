/** First come, first served among equals, through every step and every run. */
module StepOrder {
  import opened Base
  import opened PriorityInheritance
  import opened PriorityChains
  import opened PriorityQueueOrder

  /**
   Of the threads that wait before and after: two of unchanged priority keep their order, and one
   that reached another's unchanged priority stands behind it.  A newcomer stands behind everybody
   whose priority, like its own, did not change and who is at least as urgent.
   */
  ghost predicate ServedInOrder(ts: seq<Thread>, q: seq<nat>, ts': seq<Thread>, q': seq<nat>) {
    && (forall x, y :: Before(q, x, y) && x in q' && y in q' && Unmoved(ts, ts', x) && Unmoved(ts, ts', y) ==> Before(q', x, y))
    && (forall x, y :: x in q && y in q && x in q' && y in q' && Overtaken(ts, ts', x, y) ==> Before(q', y, x))
    && (forall n, y :: Newcomer(ts, q, ts', q', n, y) ==> Before(q', y, n))
  }

  ghost predicate Newcomer(ts: seq<Thread>, q: seq<nat>, ts': seq<Thread>, q': seq<nat>, n: nat, y: nat) {
    && n in q' && n !in q && y in q && y in q' && Unmoved(ts, ts', n) && Unmoved(ts, ts', y)
    && ts'[y].currentPriority <= ts'[n].currentPriority
  }

  /** The same queue, and the waiters at the same priorities. */
  lemma FromSame(ts: seq<Thread>, q: seq<nat>, ts': seq<Thread>)
    requires |ts| == |ts'| && Below(q, |ts|) && forall w :: w in q ==> Unmoved(ts, ts', w)
    ensures ServedInOrder(ts, q, ts', q)
  {
  }

  /** A newcomer is queued, then priorities are passed on. */
  lemma FromEnqueue(ts: seq<Thread>, q: seq<nat>, t: nat, ts1: seq<Thread>, q1: seq<nat>, ts': seq<Thread>, q': seq<nat>)
    requires t < |ts| == |ts1| == |ts'| && Sorted(ts, q) && NoDup(q) && t !in q && q1 == Enqueue(ts, q, t) && Below(q1, |ts|)
    requires forall u :: 0 <= u < |ts| ==> ts1[u].currentPriority == ts[u].currentPriority
    requires FirstComeFirstServed(ts1, q1, ts', q') && forall w :: w in q' ==> w in q1
    ensures ServedInOrder(ts, q, ts', q')
  {
    EnqueueOrder(ts, q, t);
    EnqueueMembers(ts, q, t);
    forall x, y | Before(q, x, y) && Unmoved(ts, ts', x) && Unmoved(ts, ts', y) ensures Before(q', x, y) {
      assert Before(q1, x, y);
    }
    forall x, y | x in q && y in q && Overtaken(ts, ts', x, y) ensures Before(q', y, x) {
      assert x in q1 && y in q1 && Overtaken(ts1, ts', x, y);
    }
    forall n, y | Newcomer(ts, q, ts', q', n, y) ensures Before(q', y, n) {
      NewcomerQueued(ts, q, t, ts1, q1, ts', q', n, y);
    }
  }

  lemma NewcomerQueued(ts: seq<Thread>, q: seq<nat>, t: nat, ts1: seq<Thread>, q1: seq<nat>, ts': seq<Thread>, q': seq<nat>, n: nat, y: nat)
    requires t < |ts| == |ts1| == |ts'| && Sorted(ts, q) && NoDup(q) && t !in q && q1 == Enqueue(ts, q, t) && Below(q1, |ts|)
    requires forall u :: 0 <= u < |ts| ==> ts1[u].currentPriority == ts[u].currentPriority
    requires FirstComeFirstServed(ts1, q1, ts', q') && Newcomer(ts, q, ts', q', n, y)
    requires forall w :: w in q' ==> w in q1
    ensures Before(q', y, n)
  {
    EnqueueMembers(ts, q, t);
    assert n == t;
    EnqueueOrder(ts, q, t);
    assert Before(q1, y, t) && Unmoved(ts1, ts', y) && Unmoved(ts1, ts', t);
  }

  /** A waiter left the queue, then priorities were passed on. */
  lemma FromWithout(ts: seq<Thread>, q: seq<nat>, t: nat, ts1: seq<Thread>, q1: seq<nat>, ts': seq<Thread>, q': seq<nat>)
    requires t < |ts| == |ts1| == |ts'| && NoDup(q) && q1 == Without(q, t) && Below(q1, |ts|)
    requires forall u :: 0 <= u < |ts| ==> ts1[u].currentPriority == ts[u].currentPriority
    requires FirstComeFirstServed(ts1, q1, ts', q') && forall w :: w in q' ==> w in q1
    ensures ServedInOrder(ts, q, ts', q')
  {
    WithoutMembers(q, t);
    forall x, y | Before(q, x, y) && x in q' && y in q' && Unmoved(ts, ts', x) && Unmoved(ts, ts', y) ensures Before(q', x, y) {
      WithoutOrder(q, t, x, y);
      assert Before(q1, x, y) && Unmoved(ts1, ts', x) && Unmoved(ts1, ts', y);
    }
    forall x, y | x in q' && y in q' && Overtaken(ts, ts', x, y) ensures Before(q', y, x) {
      assert x in q1 && y in q1 && Overtaken(ts1, ts', x, y);
    }
  }

  /** The first waiter left the queue; nobody's priority that waits changed. */
  lemma FromTail(ts: seq<Thread>, q: seq<nat>, ts': seq<Thread>)
    requires |ts| == |ts'| && q != [] && NoDup(q) && Below(q, |ts|) && forall w :: w in q ==> Unmoved(ts, ts', w)
    ensures ServedInOrder(ts, q, ts', q[1..])
  {
    var q' := q[1..];
    TailNoDup(q);
    forall x, y | Before(q, x, y) && x in q' && y in q' ensures Before(q', x, y) {
      var i, j :| 0 <= i < j < |q| && q[i] == x && q[j] == y;
      assert q'[i - 1] == x && q'[j - 1] == y;
    }
  }

  // -------------------------------------------------------------------- steps

  /** Queue `k` before and after. */
  ghost predicate KeepsOrder(s: State, s': State, k: nat)
    requires k < |s.mutexes|
  {
    |s'.mutexes| == |s.mutexes| && ServedInOrder(s.threads, s.mutexes[k].waiters, s'.threads, s'.mutexes[k].waiters)
  }

  /** Nothing that waits, and no priority of a waiter, changed. */
  lemma Undisturbed(s: State, s': State, k: nat)
    requires Inv(s) && k < |s.mutexes| == |s'.mutexes| && |s'.threads| == |s.threads|
    requires s'.mutexes[k].waiters == s.mutexes[k].waiters
    requires forall u :: u in s.mutexes[k].waiters && u < |s.threads| ==> s'.threads[u].currentPriority == s.threads[u].currentPriority
    ensures KeepsOrder(s, s', k)
  {
    FromSame(s.threads, s.mutexes[k].waiters, s'.threads);
  }

  /** Falling asleep changes the one queue only, and no priority. */
  lemma SleptQueue(s: State, t: nat, m: nat, k: nat, s2: State)
    requires MaySleep(s, t, m) && k < |s.mutexes| && s2 == SleepAndMark(s, t, m)
    ensures |s2.mutexes| == |s.mutexes| && |s2.threads| == |s.threads|
    ensures Sorted(s.threads, s.mutexes[k].waiters) && NoDup(s.mutexes[k].waiters) && t !in s.mutexes[k].waiters
    ensures s2.mutexes[k].waiters == if k == m then Enqueue(s.threads, s.mutexes[k].waiters, t) else s.mutexes[k].waiters
    ensures forall u :: 0 <= u < |s.threads| ==> s2.threads[u].currentPriority == s.threads[u].currentPriority
  {
    assert MutexLinks(s, k) && MutexOk(s, k) && ThreadLinks(s, t);
  }

  /** The order between two states of equal priorities and queues carries over. */
  lemma FromLater(s: State, s2: State, s': State, k: nat)
    requires k < |s.mutexes| && k < |s2.mutexes| && |s'.mutexes| == |s.mutexes| && |s.threads| == |s2.threads| == |s'.threads|
    requires Below(s.mutexes[k].waiters, |s.threads|) && s2.mutexes[k].waiters == s.mutexes[k].waiters
    requires forall u :: 0 <= u < |s.threads| ==> s2.threads[u].currentPriority == s.threads[u].currentPriority
    requires FirstComeFirstServed(s2.threads, s2.mutexes[k].waiters, s'.threads, s'.mutexes[k].waiters)
    requires forall w :: w in s'.mutexes[k].waiters <==> w in s.mutexes[k].waiters
    ensures KeepsOrder(s, s', k)
  {
    var ts, q, ts', q' := s.threads, s.mutexes[k].waiters, s'.threads, s'.mutexes[k].waiters;
    forall x, y | Before(q, x, y) && Unmoved(ts, ts', x) && Unmoved(ts, ts', y) ensures Before(q', x, y) {
      assert Unmoved(s2.threads, ts', x) && Unmoved(s2.threads, ts', y);
    }
    forall x, y | x in q && y in q && Overtaken(ts, ts', x, y) ensures Before(q', y, x) {
      assert Overtaken(s2.threads, ts', x, y);
    }
  }

  lemma SleepOrder(s: State, t: nat, m: nat, k: nat)
    requires MaySleep(s, t, m) && k < |s.mutexes|
    ensures KeepsOrder(s, Take(s, t, m, true).0, k)
  {
    var s2, s' := SleepAndMark(s, t, m), Take(s, t, m, true).0;
    TakeThenUpdate(s, t, m, s2);
    TakeUpdates(s, t, m, k, s2);
    SleptQueue(s, t, m, k, s2);
    if k == m {
      FromEnqueue(s.threads, s.mutexes[k].waiters, t, s2.threads, s2.mutexes[k].waiters, s'.threads, s'.mutexes[k].waiters);
    } else {
      FromLater(s, s2, s', k);
    }
  }

  /** Passing on the priority of a new sleeper keeps every queue's order. */
  lemma TakeUpdates(s: State, t: nat, m: nat, k: nat, s2: State)
    requires MaySleep(s, t, m) && k < |s.mutexes| && s2 == SleepAndMark(s, t, m) && InRange(s2)
    ensures var s' := Take(s, t, m, true).0;
            && |s2.mutexes| == |s.mutexes| == |s'.mutexes| && |s2.threads| == |s.threads| == |s'.threads|
            && FirstComeFirstServed(s2.threads, s2.mutexes[k].waiters, s'.threads, s'.mutexes[k].waiters)
  {
    var s' := Take(s, t, m, true).0;
    SleepLeavesHole(s, t, m);
    if s' == s2 {
      SameOrder(s2.threads, s2.mutexes[k].waiters, s2.threads);
    } else {
      UpdateKeepsOrder(s2, s.mutexes[m].owner.value, s.threads[t].currentPriority, k);
    }
  }

  lemma TakeOrder(s: State, t: nat, m: nat, wait: bool, k: nat)
    requires Inv(s) && Enabled(s, DoTake(t, m, wait)) && k < |s.mutexes|
    ensures KeepsOrder(s, Take(s, t, m, wait).0, k)
  {
    assert MutexLinks(s, m) && MutexLinks(s, k);
    if wait && MaySleep(s, t, m) {
      SleepOrder(s, t, m, k);
    } else {
      Undisturbed(s, Take(s, t, m, wait).0, k);
    }
  }

  lemma ReleaseOrder(s: State, t: nat, m: nat, k: nat)
    requires Inv(s) && Enabled(s, DoRelease(t, m)) && k < |s.mutexes|
    ensures KeepsOrder(s, Release(s, t, m).0, k)
  {
    var s' := Release(s, t, m).0;
    assert MutexLinks(s, m) && MutexLinks(s, k);
    assert t !in s.mutexes[k].waiters;
    if k == m && s'.mutexes[k].waiters != s.mutexes[k].waiters {
      FromTail(s.threads, s.mutexes[k].waiters, s'.threads);
    } else {
      Undisturbed(s, s', k);
    }
  }

  lemma DropOrder(s: State, t: nat, m: nat, k: nat)
    requires Inv(s) && t < |s.threads| && Blocked(s, t) && s.threads[t].pending == Some(m) && k < |s.mutexes| && m < |s.mutexes|
    ensures KeepsOrder(s, Drop(s, t, m), k)
  {
    var s1, s' := Leave(s, t, m), Drop(s, t, m);
    DropUpdates(s, t, m, k, s1);
    LeftQueue(s, t, m, k, s1);
    if k == m {
      FromWithout(s.threads, s.mutexes[k].waiters, t, s1.threads, s1.mutexes[k].waiters, s'.threads, s'.mutexes[k].waiters);
    } else {
      FromLater(s, s1, s', k);
    }
  }

  /** Leaving a queue changes that queue only, and no priority. */
  lemma LeftQueue(s: State, t: nat, m: nat, k: nat, s1: State)
    requires Inv(s) && t < |s.threads| && k < |s.mutexes| && m < |s.mutexes| && s1 == Leave(s, t, m)
    ensures |s1.mutexes| == |s.mutexes| && |s1.threads| == |s.threads|
    ensures NoDup(s.mutexes[k].waiters) && Below(s1.mutexes[k].waiters, |s.threads|)
    ensures s1.mutexes[k].waiters == if k == m then Without(s.mutexes[k].waiters, t) else s.mutexes[k].waiters
    ensures forall u :: 0 <= u < |s.threads| ==> s1.threads[u].currentPriority == s.threads[u].currentPriority
  {
    assert MutexLinks(s, k);
    WithoutBelow(s.mutexes[m].waiters, t, |s.threads|);
  }

  lemma DropUpdates(s: State, t: nat, m: nat, k: nat, s1: State)
    requires Inv(s) && t < |s.threads| && Blocked(s, t) && s.threads[t].pending == Some(m) && k < |s.mutexes| && m < |s.mutexes|
    requires s1 == Leave(s, t, m)
    ensures InRange(s1) && |s1.mutexes| == |s.mutexes| && |s1.threads| == |s.threads|
    ensures var s' := Drop(s, t, m);
            && SameLinks(s1, s')
            && FirstComeFirstServed(s1.threads, s1.mutexes[k].waiters, s'.threads, s'.mutexes[k].waiters)
  {
    var s' := Drop(s, t, m);
    LeaveLeavesHole(s, t, m);
    if s' == s1 {
      SameOrder(s1.threads, s1.mutexes[k].waiters, s1.threads);
    } else {
      var o := s1.mutexes[m].owner.value;
      UpdateKeepsOrder(s1, o, Deserved(s1, o), k);
    }
  }

  lemma DetachOrder(s: State, t: nat, k: nat)
    requires Inv(s) && t < |s.threads| && k < |s.mutexes|
    ensures KeepsOrder(s, Detach(s, t), k)
  {
    assert MutexLinks(s, k) && ThreadLinks(s, t);
    if s.threads[t].stat != Closed && Blocked(s, t) {
      var m := s.threads[t].pending.value;
      var s2, s' := Drop(s, t, m), Detach(s, t);
      DropOrder(s, t, m, k);
      SamePriorities(s, s2, s', k);
    } else {
      Undisturbed(s, Detach(s, t), k);
    }
  }

  /** Only priorities and queues matter for the order. */
  lemma SamePriorities(s: State, s2: State, s': State, k: nat)
    requires k < |s.mutexes| && KeepsOrder(s, s2, k) && s'.mutexes == s2.mutexes && |s'.threads| == |s2.threads| == |s.threads|
    requires forall u :: 0 <= u < |s.threads| ==> s'.threads[u].currentPriority == s2.threads[u].currentPriority
    ensures KeepsOrder(s, s', k)
  {
    var ts, q, ts', q' := s.threads, s.mutexes[k].waiters, s'.threads, s'.mutexes[k].waiters;
    forall x, y | x in q && y in q && x in q' && y in q' && Overtaken(ts, ts', x, y) ensures Before(q', y, x) {
      assert Overtaken(ts, s2.threads, x, y);
    }
    forall n, y | Newcomer(ts, q, ts', q', n, y) ensures Before(q', y, n) {
      assert Newcomer(ts, q, s2.threads, q', n, y);
    }
  }

  /** Every step serves every queue in order. */
  lemma StepKeepsOrder(s: State, op: Op, k: nat)
    requires Inv(s) && k < |s.mutexes|
    ensures KeepsOrder(s, Step(s, op), k)
  {
    if Enabled(s, op) {
      match op
      case DoTake(t, m, wait) => TakeOrder(s, t, m, wait, k);
      case DoRelease(t, m) => ReleaseOrder(s, t, m, k);
      case DoDetach(t) => DetachOrder(s, t, k);
      case Dispatch(t, stat) => Undisturbed(s, Step(s, op), k);
    } else {
      Undisturbed(s, s, k);
    }
  }

  // --------------------------------------------------------------------- runs

  /** Thread `x` waits for mutex `k` at priority `p` in every state of the run. */
  ghost predicate WaitsThroughout(s: State, ops: seq<Op>, k: nat, x: nat, p: nat)
    requires Inv(s)
    decreases |ops|
  {
    && k < |s.mutexes| && x in s.mutexes[k].waiters && x < |s.threads| && s.threads[x].currentPriority == p
    && (ops != [] ==> WaitsThroughout(Step(s, ops[0]), ops[1..], k, x, p))
  }

  /** Two threads that wait all the time at unchanged priorities never change places, whatever others do. */
  lemma {:induction false} RunKeepsOrder(s: State, ops: seq<Op>, k: nat, x: nat, px: nat, y: nat, py: nat)
    requires Inv(s) && WaitsThroughout(s, ops, k, x, px) && WaitsThroughout(s, ops, k, y, py)
    requires Before(s.mutexes[k].waiters, x, y)
    ensures k < |Run(s, ops).mutexes| && Before(Run(s, ops).mutexes[k].waiters, x, y)
    decreases |ops|
  {
    if ops != [] {
      StepKeepsOrder(s, ops[0], k);
      RunKeepsOrder(Step(s, ops[0]), ops[1..], k, x, px, y, py);
    }
  }
}
