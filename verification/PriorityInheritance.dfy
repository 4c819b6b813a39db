/**
 Mutexes with nested priority inheritance (rt-thread/src/ipc.c, with the
 priority change of rt-thread/src/thread.c).

 Smaller numbers are more urgent.  A thread that holds mutexes runs at the most
 urgent of its own priority and the priorities of the mutexes it holds; a
 mutex's priority is that of its most urgent waiter.  Threads and mutexes are
 identified by their index in the kernel's tables.
 */
module PriorityInheritance {
  import opened Base

  const NO_WAITER: nat := 0xff
  const HOLD_MAX: nat := 0xff

  datatype Stat = Ready | Running | Suspended | Closed

  datatype Thread = Thread(
    initPriority: nat, currentPriority: nat, stat: Stat,
    taken: seq<nat>, pending: Option<nat>)

  datatype Mutex = Mutex(owner: Option<nat>, hold: nat, priority: nat, waiters: seq<nat>)

  datatype State = State(threads: seq<Thread>, mutexes: seq<Mutex>) {
    function WithThread(t: nat, th: Thread): State
      requires t < |threads|
    {
      this.(threads := threads[t := th])
    }

    function WithMutex(m: nat, mx: Mutex): State
      requires m < |mutexes|
    {
      this.(mutexes := mutexes[m := mx])
    }
  }

  // ---------------------------------------------------------------- links

  ghost predicate InRange(s: State) {
    && (forall m :: 0 <= m < |s.mutexes| ==>
          && (s.mutexes[m].owner.Some? ==> s.mutexes[m].owner.value < |s.threads|)
          && Below(s.mutexes[m].waiters, |s.threads|))
    && (forall t :: 0 <= t < |s.threads| ==>
          && Below(s.threads[t].taken, |s.mutexes|)
          && (s.threads[t].pending.Some? ==> s.threads[t].pending.value < |s.mutexes|))
  }

  ghost predicate MutexLinks(s: State, m: nat)
    requires InRange(s) && m < |s.mutexes|
  {
    var mx := s.mutexes[m];
    && NoDup(mx.waiters)
    && mx.hold <= HOLD_MAX
    && (mx.owner.Some? <==> mx.hold > 0)
    && (mx.owner.None? ==> mx.waiters == [])
    && (mx.owner.Some? ==> m in s.threads[mx.owner.value].taken && mx.owner.value !in mx.waiters)
    && (forall w :: w in mx.waiters ==> s.threads[w].stat == Suspended && s.threads[w].pending == Some(m))
  }

  ghost predicate ThreadLinks(s: State, t: nat)
    requires InRange(s) && t < |s.threads|
  {
    var th := s.threads[t];
    && NoDup(th.taken)
    && th.initPriority <= NO_WAITER
    && th.currentPriority <= NO_WAITER
    && (forall m :: m in th.taken ==> s.mutexes[m].owner == Some(t))
    && (th.stat == Suspended && th.pending.Some? ==> t in s.mutexes[th.pending.value].waiters)
    && (th.stat in {Ready, Running} ==> th.pending.None?)
  }

  /** Ownership, waiting and taken lists agree with each other. */
  ghost predicate Linked(s: State) {
    && InRange(s)
    && (forall m :: 0 <= m < |s.mutexes| ==> MutexLinks(s, m))
    && (forall t :: 0 <= t < |s.threads| ==> ThreadLinks(s, t))
  }

  // ----------------------------------------------------------- priorities

  ghost predicate Sorted(ts: seq<Thread>, q: seq<nat>) {
    && Below(q, |ts|)
    && (forall i, j :: 0 <= i < j < |q| ==> InOrder(ts, q, i, j))
  }

  ghost predicate InOrder(ts: seq<Thread>, q: seq<nat>, i: nat, j: nat)
    requires Below(q, |ts|) && i < |q| && j < |q|
  {
    ts[q[i]].currentPriority <= ts[q[j]].currentPriority
  }

  /** The priority of the first waiter, or NO_WAITER. */
  function HeadPriority(ts: seq<Thread>, q: seq<nat>): nat
    requires Below(q, |ts|)
  {
    if q == [] then NO_WAITER else ts[q[0]].currentPriority
  }

  /** The most urgent of `p` and the priorities of the mutexes in `taken`. */
  function MinTaken(ms: seq<Mutex>, taken: seq<nat>, p: nat): (r: nat)
    requires Below(taken, |ms|)
    ensures r <= p
    ensures forall m :: m in taken ==> r <= ms[m].priority
    ensures r == p || exists m :: m in taken && r == ms[m].priority
  {
    if taken == [] then p
    else
      var k := |taken| - 1;
      assert forall m :: m in taken <==> m in taken[..k] || m == taken[k];
      var r := MinTaken(ms, taken[..k], p);
      if r > ms[taken[k]].priority then ms[taken[k]].priority else r
  }

  /** The priority a thread deserves: its own or one inherited through a mutex it holds. */
  function Deserved(s: State, t: nat): (r: nat)
    requires InRange(s) && t < |s.threads|
    ensures r <= s.threads[t].initPriority
    ensures forall m :: m in s.threads[t].taken ==> r <= s.mutexes[m].priority
    ensures r == s.threads[t].initPriority || exists m :: m in s.threads[t].taken && r == s.mutexes[m].priority
  {
    MinTaken(s.mutexes, s.threads[t].taken, s.threads[t].initPriority)
  }

  ghost predicate MutexOk(s: State, m: nat)
    requires InRange(s) && m < |s.mutexes|
  {
    && Sorted(s.threads, s.mutexes[m].waiters)
    && s.mutexes[m].priority == HeadPriority(s.threads, s.mutexes[m].waiters)
  }

  ghost predicate ThreadOk(s: State, t: nat)
    requires InRange(s) && t < |s.threads|
  {
    s.threads[t].currentPriority == Deserved(s, t)
  }

  /** The invariant with a hole at the threads of `except`. */
  ghost predicate InvBut(s: State, except: set<nat>) {
    && Linked(s)
    && (forall m :: 0 <= m < |s.mutexes| ==> MutexOk(s, m))
    && (forall t :: 0 <= t < |s.threads| && t !in except ==> ThreadOk(s, t))
  }

  ghost predicate Inv(s: State) {
    InvBut(s, {})
  }

  // ------------------------------------------------------------ wait queue

  /** The first position whose waiter is less urgent than priority `p`. */
  function Slot(ts: seq<Thread>, q: seq<nat>, p: nat): (k: nat)
    requires Below(q, |ts|)
    ensures k <= |q|
    ensures forall j :: 0 <= j < k ==> ts[q[j]].currentPriority <= p
    ensures k < |q| ==> p < ts[q[k]].currentPriority
  {
    if q == [] || p < ts[q[0]].currentPriority then 0 else 1 + Slot(ts, q[1..], p)
  }

  /** Priority-ordered insertion behind the waiters of equal priority (`_ipc_list_suspend`). */
  function Enqueue(ts: seq<Thread>, q: seq<nat>, t: nat): (r: seq<nat>)
    requires t < |ts| && Below(q, |ts|)
    ensures |r| == |q| + 1 && Below(r, |ts|)
  {
    var k := Slot(ts, q, ts[t].currentPriority);
    q[..k] + [t] + q[k..]
  }

  /** Everybody in front of the new waiter is at least as urgent, and the one behind it is less urgent. */
  lemma EnqueuePlace(ts: seq<Thread>, q: seq<nat>, t: nat) returns (k: nat)
    requires t < |ts| && Below(q, |ts|)
    ensures k <= |q| && Enqueue(ts, q, t)[k] == t && Deleted(Enqueue(ts, q, t), k) == q
    ensures forall j :: 0 <= j < k ==> ts[q[j]].currentPriority <= ts[t].currentPriority
    ensures k < |q| ==> ts[t].currentPriority < ts[q[k]].currentPriority
  {
    k := Slot(ts, q, ts[t].currentPriority);
    assert q == q[..k] + q[k..];
  }

  lemma EnqueueMembers(ts: seq<Thread>, q: seq<nat>, t: nat)
    requires t < |ts| && Below(q, |ts|)
    ensures forall w :: w in Enqueue(ts, q, t) <==> w in q || w == t
  {
    var k := Slot(ts, q, ts[t].currentPriority);
    assert q == q[..k] + q[k..];
  }

  lemma EnqueueNoDup(ts: seq<Thread>, q: seq<nat>, t: nat)
    requires t < |ts| && Below(q, |ts|) && NoDup(q) && t !in q
    ensures NoDup(Enqueue(ts, q, t))
  {
    var k := Slot(ts, q, ts[t].currentPriority);
    var r := Enqueue(ts, q, t);
    forall x, y | 0 <= x < y < |r| ensures Differ(r, x, y) {
      var x', y' := if x < k then x else x - 1, if y < k then y else y - 1;
      if x != k && y != k {
        assert Differ(q, x', y');
      }
    }
  }

  lemma EnqueueSorted(ts: seq<Thread>, q: seq<nat>, t: nat)
    requires t < |ts| && Sorted(ts, q)
    ensures Sorted(ts, Enqueue(ts, q, t))
  {
    var k := Slot(ts, q, ts[t].currentPriority);
    var r := Enqueue(ts, q, t);
    forall i, j | 0 <= i < j < |r| ensures InOrder(ts, r, i, j) {
      var i', j' := if i < k then i else i - 1, if j < k then j else j - 1;
      if i != k && j != k {
        assert InOrder(ts, q, i', j');
      } else if i == k {
        assert k < j' ==> InOrder(ts, q, k, j');
      }
    }
  }

  lemma WithoutSorted(ts: seq<Thread>, q: seq<nat>, t: nat)
    requires Sorted(ts, q)
    ensures Sorted(ts, Without(q, t))
  {
    WithoutBelow(q, t, |ts|);
    var k, r := IndexOf(q, t), Without(q, t);
    forall i, j | 0 <= i < j < |r| ensures InOrder(ts, r, i, j) {
      assert InOrder(ts, q, if i < k then i else i + 1, if j < k then j else j + 1);
    }
  }

  /** Sortedness depends only on the priorities of the queued threads. */
  lemma SortedSame(ts: seq<Thread>, ts': seq<Thread>, q: seq<nat>)
    requires Sorted(ts, q) && Below(q, |ts'|)
    requires forall w :: w in q ==> w < |ts| && w < |ts'| && ts'[w].currentPriority == ts[w].currentPriority
    ensures Sorted(ts', q)
    ensures HeadPriority(ts', q) == HeadPriority(ts, q)
  {
    forall i, j | 0 <= i < j < |q| ensures InOrder(ts', q, i, j) {
      assert q[i] in q && q[j] in q && InOrder(ts, q, i, j);
    }
    assert q != [] ==> q[0] in q;
  }

  /** A mutex with the same queue, at the same priorities, stays as it is. */
  lemma MutexOkSame(s: State, s': State, m: nat)
    requires InRange(s) && InRange(s') && m < |s.mutexes| && m < |s'.mutexes| && MutexOk(s, m)
    requires s'.mutexes[m].waiters == s.mutexes[m].waiters && s'.mutexes[m].priority == s.mutexes[m].priority
    requires forall w :: w in s.mutexes[m].waiters ==>
               w < |s.threads| && w < |s'.threads| && s'.threads[w].currentPriority == s.threads[w].currentPriority
    ensures MutexOk(s', m)
  {
    SortedSame(s.threads, s'.threads, s.mutexes[m].waiters);
  }

  // ----------------------------------------------- the walk up the chain

  function SetPriority(s: State, t: nat, p: nat): State
    requires t < |s.threads|
  {
    s.WithThread(t, s.threads[t].(currentPriority := p))
  }

  /** Is `t` asleep on a mutex? */
  predicate Blocked(s: State, t: nat)
    requires t < |s.threads|
  {
    s.threads[t].stat == Suspended && s.threads[t].pending.Some?
  }

  /** `t` gets priority `p` and moves to its new place in the queue it waits in. */
  function Requeue(s: State, t: nat, p: nat): State
    requires InRange(s) && t < |s.threads|
  {
    var s1 := SetPriority(s, t, p);
    if !Blocked(s, t) then s1
    else
      var m := s.threads[t].pending.value;
      WithoutBelow(s.mutexes[m].waiters, t, |s.threads|);
      var q := Enqueue(s1.threads, Without(s.mutexes[m].waiters, t), t);
      s1.WithMutex(m, s.mutexes[m].(waiters := q, priority := HeadPriority(s1.threads, q)))
  }

  function SumPriorities(ts: seq<Thread>): nat {
    if ts == [] then 0 else ts[0].currentPriority + SumPriorities(ts[1..])
  }

  lemma {:induction false} SumUpdate(ts: seq<Thread>, t: nat, th: Thread)
    requires t < |ts|
    ensures SumPriorities(ts[t := th]) == SumPriorities(ts) - ts[t].currentPriority + th.currentPriority
  {
    if t == 0 {
      assert ts[t := th][1..] == ts[1..];
    } else {
      assert ts[t := th][1..] == ts[1..][t - 1 := th];
      SumUpdate(ts[1..], t - 1, th);
    }
  }

  lemma {:induction false} SumBound(ts: seq<Thread>)
    requires forall i :: 0 <= i < |ts| ==> ts[i].currentPriority <= NO_WAITER
    ensures SumPriorities(ts) <= NO_WAITER * |ts|
  {
    if ts != [] {
      SumBound(ts[1..]);
    }
  }

  /** Only `t`'s current priority is out of date, and `p` is what it deserves. */
  ghost predicate OutOfDate(s: State, t: nat, p: nat) {
    && t < |s.threads|
    && InvBut(s, {t})
    && p == Deserved(s, t)
    && p != s.threads[t].currentPriority
  }

  ghost predicate Boosts(s: State, t: nat, p: nat)
    requires t < |s.threads|
  {
    p < s.threads[t].currentPriority
  }

  /** Priority still to be lost (boosting) or regained (restoring). */
  ghost function Slack(s: State, up: bool): int {
    if up then SumPriorities(s.threads) else NO_WAITER * |s.threads| - SumPriorities(s.threads)
  }

  lemma SlackDrops(s: State, t: nat, p: nat)
    requires Linked(s) && t < |s.threads|
    requires p != s.threads[t].currentPriority && p <= NO_WAITER
    ensures Requeue(s, t, p).threads == SetPriority(s, t, p).threads
    ensures var up := Boosts(s, t, p); 0 <= Slack(Requeue(s, t, p), up) < Slack(s, up)
  {
    SumUpdate(s.threads, t, s.threads[t].(currentPriority := p));
    var s1 := SetPriority(s, t, p);
    forall i | 0 <= i < |s1.threads| ensures s1.threads[i].currentPriority <= NO_WAITER {
      assert ThreadLinks(s, i);
    }
    SumBound(s1.threads);
  }

  /** Same ownership, holds, states and membership of queues; only priorities and queue order may differ. */
  ghost predicate SameLinks(s: State, s': State) {
    && |s'.threads| == |s.threads| && |s'.mutexes| == |s.mutexes|
    && (forall t :: 0 <= t < |s.threads| ==>
          s'.threads[t] == s.threads[t].(currentPriority := s'.threads[t].currentPriority))
    && (forall m :: 0 <= m < |s.mutexes| ==>
          && s'.mutexes[m].owner == s.mutexes[m].owner
          && s'.mutexes[m].hold == s.mutexes[m].hold
          && |s'.mutexes[m].waiters| == |s.mutexes[m].waiters|
          && (forall w :: w in s'.mutexes[m].waiters <==> w in s.mutexes[m].waiters))
  }

  /** Moving a waiter within its queue changes only the order. */
  lemma MovedMembers(ts: seq<Thread>, q: seq<nat>, t: nat)
    requires t < |ts| && Below(q, |ts|) && Below(Without(q, t), |ts|) && NoDup(q) && t in q
    ensures var q1 := Enqueue(ts, Without(q, t), t);
            NoDup(q1) && |q1| == |q| && forall w :: w in q1 <==> w in q
  {
    WithoutMembers(q, t);
    EnqueueMembers(ts, Without(q, t), t);
    EnqueueNoDup(ts, Without(q, t), t);
  }

  /** One priority and the order of one queue changed. */
  lemma ReorderedLinks(s: State, s': State, t: nat, p: nat, m: nat, q: seq<nat>, r: nat)
    requires t < |s.threads| && m < |s.mutexes|
    requires s' == s.WithThread(t, s.threads[t].(currentPriority := p)).WithMutex(m, s.mutexes[m].(waiters := q, priority := r))
    requires |q| == |s.mutexes[m].waiters| && forall w :: w in q <==> w in s.mutexes[m].waiters
    ensures SameLinks(s, s')
  {
  }

  /** Such a change keeps ownership, waiting and taken lists in agreement. */
  lemma ReorderedLinked(s: State, s': State, t: nat, p: nat, m: nat)
    requires Linked(s) && SameLinks(s, s') && t < |s.threads| && p <= NO_WAITER
    requires s'.threads == s.threads[t := s.threads[t].(currentPriority := p)]
    requires forall k :: 0 <= k < |s.mutexes| && k != m ==> s'.mutexes[k] == s.mutexes[k]
    requires m < |s.mutexes| ==> NoDup(s'.mutexes[m].waiters)
    ensures Linked(s')
  {
    forall k | 0 <= k < |s.mutexes| ensures NoDup(s'.mutexes[k].waiters) {
      assert MutexLinks(s, k);
    }
    forall u | 0 <= u < |s.threads| ensures s'.threads[u].currentPriority <= NO_WAITER {
      assert ThreadLinks(s, u);
    }
    LinksCarryOver(s, s');
  }

  lemma RequeueLinks(s: State, t: nat, p: nat)
    requires Linked(s) && t < |s.threads| && p <= NO_WAITER
    ensures SameLinks(s, Requeue(s, t, p)) && Linked(Requeue(s, t, p))
  {
    var s1 := Requeue(s, t, p);
    if Blocked(s, t) {
      var m := s.threads[t].pending.value;
      assert ThreadLinks(s, t) && MutexLinks(s, m);
      WithoutBelow(s.mutexes[m].waiters, t, |s.threads|);
      var ts := SetPriority(s, t, p).threads;
      var q := Enqueue(ts, Without(s.mutexes[m].waiters, t), t);
      MovedMembers(ts, s.mutexes[m].waiters, t);
      MovedLinks(s, s1, t, p, m, q, HeadPriority(ts, q));
    } else {
      ReorderedLinked(s, s1, t, p, |s.mutexes|);
    }
  }

  /** One priority changed, and one queue was put in another order. */
  lemma MovedLinks(s: State, s': State, t: nat, p: nat, m: nat, q: seq<nat>, r: nat)
    requires Linked(s) && t < |s.threads| && m < |s.mutexes| && p <= NO_WAITER
    requires s' == s.WithThread(t, s.threads[t].(currentPriority := p)).WithMutex(m, s.mutexes[m].(waiters := q, priority := r))
    requires NoDup(q) && |q| == |s.mutexes[m].waiters| && forall w :: w in q <==> w in s.mutexes[m].waiters
    ensures SameLinks(s, s') && Linked(s')
  {
    ReorderedLinks(s, s', t, p, m, q, r);
    ReorderedLinked(s, s', t, p, m);
  }

  lemma LinksCarryOver(s: State, s': State)
    requires Linked(s) && SameLinks(s, s')
    requires forall t :: 0 <= t < |s.threads| ==> s'.threads[t].currentPriority <= NO_WAITER
    requires forall m :: 0 <= m < |s.mutexes| ==> NoDup(s'.mutexes[m].waiters)
    ensures Linked(s')
  {
    forall m | 0 <= m < |s.mutexes| ensures Below(s'.mutexes[m].waiters, |s.threads|) {
      var q := s'.mutexes[m].waiters;
      forall i | 0 <= i < |q| ensures q[i] < |s.threads| {
        assert q[i] in s.mutexes[m].waiters;
      }
    }
    assert InRange(s');
    forall m | 0 <= m < |s.mutexes| ensures MutexLinks(s', m) {
      assert MutexLinks(s, m);
    }
    forall t | 0 <= t < |s.threads| ensures ThreadLinks(s', t) {
      assert ThreadLinks(s, t);
    }
  }

  /** A waiter is never more urgent than the head of its sorted queue. */
  lemma HeadIsMin(ts: seq<Thread>, q: seq<nat>, w: nat)
    requires Sorted(ts, q) && w in q
    ensures w < |ts| && HeadPriority(ts, q) <= ts[w].currentPriority
  {
    var i :| 0 <= i < |q| && q[i] == w;
    assert 0 < i ==> InOrder(ts, q, 0, i);
  }

  /** Moving `t` to its new place keeps the queue sorted, and its head moves with `t`. */
  lemma RequeueQueue(ts: seq<Thread>, q: seq<nat>, t: nat, p: nat)
    requires t < |ts| && Sorted(ts, q) && NoDup(q) && t in q
    ensures Below(Without(q, t), |ts|)
    ensures var ts1 := ts[t := ts[t].(currentPriority := p)];
            var q1 := Enqueue(ts1, Without(q, t), t);
            && Sorted(ts1, q1)
            && (if p < ts[t].currentPriority then HeadPriority(ts1, q1) <= HeadPriority(ts, q)
                else HeadPriority(ts, q) <= HeadPriority(ts1, q1))
  {
    var ts1 := ts[t := ts[t].(currentPriority := p)];
    var r := Without(q, t);
    WithoutSorted(ts, q, t);
    WithoutMembers(q, t);
    SortedSame(ts, ts1, r);
    EnqueueSorted(ts1, r, t);
    EnqueueMembers(ts1, r, t);
    var q1 := Enqueue(ts1, r, t);
    assert q[0] in q1 && q1[0] in q;
    HeadIsMin(ts1, q1, q[0]);
    HeadIsMin(ts, q, q1[0]);
  }

  lemma RequeueMutexes(s: State, t: nat, p: nat)
    requires OutOfDate(s, t, p)
    ensures var s1 := Requeue(s, t, p);
            && SameLinks(s, s1) && Linked(s1)
            && (forall m :: 0 <= m < |s.mutexes| ==> MutexOk(s1, m))
            && (forall m :: 0 <= m < |s.mutexes| ==>
                  if Boosts(s, t, p) then s1.mutexes[m].priority <= s.mutexes[m].priority
                  else s.mutexes[m].priority <= s1.mutexes[m].priority)
  {
    var s1 := Requeue(s, t, p);
    assert ThreadLinks(s, t);
    RequeueLinks(s, t, p);
    forall m | 0 <= m < |s.mutexes|
      ensures MutexOk(s1, m)
      ensures if Boosts(s, t, p) then s1.mutexes[m].priority <= s.mutexes[m].priority
              else s.mutexes[m].priority <= s1.mutexes[m].priority
    {
      assert MutexOk(s, m) && MutexLinks(s, m);
      var q := s.mutexes[m].waiters;
      if Blocked(s, t) && s.threads[t].pending.value == m {
        RequeueQueue(s.threads, q, t, p);
      } else {
        assert t !in q;
        MutexOkSame(s, s1, m);
      }
    }
  }

  /** Lowering (or raising) mutex priorities lowers (or raises) what a holder deserves. */
  lemma DeservedMonotone(s: State, s': State, t: nat)
    requires InRange(s) && InRange(s') && |s'.mutexes| == |s.mutexes| && t < |s.threads| && t < |s'.threads|
    requires s'.threads[t].taken == s.threads[t].taken && s'.threads[t].initPriority == s.threads[t].initPriority
    requires forall m :: m in s.threads[t].taken ==> s'.mutexes[m].priority <= s.mutexes[m].priority
    ensures Deserved(s', t) <= Deserved(s, t)
  {
  }

  lemma DeservedSame(s: State, s': State, t: nat)
    requires InRange(s) && InRange(s') && |s'.mutexes| == |s.mutexes| && t < |s.threads| && t < |s'.threads|
    requires s'.threads[t].taken == s.threads[t].taken && s'.threads[t].initPriority == s.threads[t].initPriority
    requires forall m :: m in s.threads[t].taken ==> s'.mutexes[m].priority == s.mutexes[m].priority
    ensures Deserved(s', t) == Deserved(s, t)
  {
    DeservedMonotone(s, s', t);
    DeservedMonotone(s', s, t);
  }

  /** The thread that holds what `t` sleeps on. */
  ghost function WaitsFor(s: State, t: nat): Option<nat>
    requires InRange(s) && t < |s.threads|
  {
    if Blocked(s, t) then s.mutexes[s.threads[t].pending.value].owner else None
  }

  /** After one requeue only the next thread on the chain may be out of date, in the same direction. */
  lemma RequeueMovesHole(s: State, t: nat, p: nat)
    requires OutOfDate(s, t, p)
    ensures var s1 := Requeue(s, t, p);
            && Linked(s1) && SameLinks(s, s1)
            && WaitsFor(s1, t) == WaitsFor(s, t)
            && (Blocked(s, t) ==> WaitsFor(s, t).Some?)
            && (match WaitsFor(s, t)
                case None => Inv(s1)
                case Some(o) =>
                  && o < |s.threads| && o != t
                  && InvBut(s1, {o})
                  && (if Boosts(s, t, p) then Deserved(s1, o) <= s1.threads[o].currentPriority
                      else s1.threads[o].currentPriority <= Deserved(s1, o)))
  {
    var s1 := Requeue(s, t, p);
    RequeueMutexes(s, t, p);
    assert ThreadLinks(s, t);
    var w := WaitsFor(s, t);
    assert Blocked(s, t) ==> MutexLinks(s, s.threads[t].pending.value);
    if w.Some? {
      assert MutexLinks(s, s.threads[t].pending.value);
      assert ThreadLinks(s, w.value) && ThreadOk(s, w.value);
      if Boosts(s, t, p) {
        DeservedMonotone(s, s1, w.value);
      } else {
        DeservedMonotone(s1, s, w.value);
      }
    }
    OthersDeserve(s, s1, t, p, w);
  }

  /** All threads but the one `t` waits for are at the priority they deserve. */
  lemma OthersDeserve(s: State, s1: State, t: nat, p: nat, w: Option<nat>)
    requires OutOfDate(s, t, p) && s1 == Requeue(s, t, p) && Linked(s1) && SameLinks(s, s1) && w == WaitsFor(s, t)
    ensures forall u :: 0 <= u < |s.threads| && w != Some(u) ==> ThreadOk(s1, u)
  {
    assert ThreadLinks(s, t);
    forall u | 0 <= u < |s.threads| && w != Some(u) ensures ThreadOk(s1, u) {
      assert ThreadLinks(s, u);
      assert u != t ==> ThreadOk(s, u);
      DeservedSame(s, s1, u);
    }
  }

  /** What `_thread_update_priority` does: give `t` priority `p`, requeue it, and go on to the
      thread it waits for when that one's deserved priority changed. */
  function UpdatePriority(s: State, t: nat, p: nat): (s': State)
    requires OutOfDate(s, t, p)
    ensures Inv(s') && SameLinks(s, s')
    ensures Monotone(s, s', Boosts(s, t, p))
    decreases Slack(s, Boosts(s, t, p))
  {
    assert ThreadLinks(s, t);
    RequeueMovesHole(s, t, p);
    SlackDrops(s, t, p);
    RequeueMonotone(s, t, p);
    var s1 := Requeue(s, t, p);
    if !Blocked(s, t) then s1
    else
      var m := s.threads[t].pending.value;
      assert WaitsFor(s1, t) == s1.mutexes[m].owner;
      var o := s1.mutexes[m].owner.value;
      var q := Deserved(s1, o);
      if q == s1.threads[o].currentPriority then s1
      else
        var s2 := UpdatePriority(s1, o, q);
        SameLinksTrans(s, s1, s2);
        MonotoneTrans(s, s1, s2, Boosts(s, t, p));
        s2
  }

  lemma RequeueMonotone(s: State, t: nat, p: nat)
    requires OutOfDate(s, t, p)
    ensures Monotone(s, Requeue(s, t, p), Boosts(s, t, p))
  {
    assert ThreadLinks(s, t);
    SlackDrops(s, t, p);
  }

  lemma SameLinksTrans(s: State, s1: State, s2: State)
    requires SameLinks(s, s1) && SameLinks(s1, s2)
    ensures SameLinks(s, s2)
  {
  }

  lemma MonotoneTrans(s: State, s1: State, s2: State, up: bool)
    requires Monotone(s, s1, up) && Monotone(s1, s2, up)
    ensures Monotone(s, s2, up)
  {
  }

  /** Every priority moved one way: to more urgent (`up`) or to less urgent. */
  ghost predicate Monotone(s: State, s': State, up: bool) {
    && |s'.threads| == |s.threads|
    && forall t :: 0 <= t < |s.threads| ==>
      if up then s'.threads[t].currentPriority <= s.threads[t].currentPriority
      else s.threads[t].currentPriority <= s'.threads[t].currentPriority
  }

  // ------------------------------------------------------------ operations

  datatype TakeResult = Taken | Full | Timeout | Sleeping

  /** `t` goes to sleep in `m`'s queue. */
  function Sleep(s: State, t: nat, m: nat): State
    requires InRange(s) && t < |s.threads| && m < |s.mutexes|
  {
    s.WithThread(t, s.threads[t].(stat := Suspended, pending := Some(m)))
     .WithMutex(m, s.mutexes[m].(waiters := Enqueue(s.threads, s.mutexes[m].waiters, t)))
  }

  /** `t` takes the free mutex `m`. */
  function Grab(s: State, t: nat, m: nat): State
    requires t < |s.threads| && m < |s.mutexes|
  {
    s.WithThread(t, s.threads[t].(taken := [m] + s.threads[t].taken))
     .WithMutex(m, s.mutexes[m].(owner := Some(t), hold := 1, priority := NO_WAITER))
  }

  lemma GrabLinks(s: State, t: nat, m: nat)
    requires Linked(s) && t < |s.threads| && m < |s.mutexes| && s.mutexes[m].owner.None?
    ensures Linked(Grab(s, t, m)) && m !in s.threads[t].taken
  {
    var s1 := Grab(s, t, m);
    assert ThreadLinks(s, t);
    ConsNoDup(m, s.threads[t].taken);
    assert InRange(s1);
    forall k | 0 <= k < |s.mutexes| ensures MutexLinks(s1, k) {
      assert MutexLinks(s, k);
    }
    forall u | 0 <= u < |s.threads| ensures ThreadLinks(s1, u) {
      assert ThreadLinks(s, u);
    }
  }

  lemma GrabKeeps(s: State, t: nat, m: nat)
    requires Inv(s) && t < |s.threads| && m < |s.mutexes| && s.mutexes[m].owner.None?
    ensures Inv(Grab(s, t, m))
  {
    var s1 := Grab(s, t, m);
    GrabLinks(s, t, m);
    forall k | 0 <= k < |s.mutexes| ensures MutexOk(s1, k) {
      assert MutexLinks(s, k) && MutexOk(s, k);
      MutexOkSame(s, s1, k);
    }
    forall u | 0 <= u < |s.threads| ensures ThreadOk(s1, u) {
      assert ThreadLinks(s, u) && ThreadOk(s, u);
      if u == t {
        assert forall k :: k in s1.threads[t].taken <==> k == m || k in s.threads[t].taken;
      } else {
        DeservedSame(s, s1, u);
      }
    }
  }

  lemma SleepKeepsLinks(s: State, t: nat, m: nat)
    requires MaySleep(s, t, m)
    ensures Linked(Sleep(s, t, m))
  {
    var s1 := Sleep(s, t, m);
    assert MutexLinks(s, m) && ThreadLinks(s, t);
    EnqueueMembers(s.threads, s.mutexes[m].waiters, t);
    assert t !in s.mutexes[m].waiters;
    EnqueueNoDup(s.threads, s.mutexes[m].waiters, t);
    assert InRange(s1);
    forall k | 0 <= k < |s.mutexes| ensures MutexLinks(s1, k) {
      assert MutexLinks(s, k);
    }
    forall u | 0 <= u < |s.threads| ensures ThreadLinks(s1, u) {
      assert ThreadLinks(s, u);
    }
  }

  /** The state after `t` fell asleep and `m`'s priority was lowered to `t`'s if that is more urgent. */
  function SleepAndMark(s: State, t: nat, m: nat): State
    requires InRange(s) && t < |s.threads| && m < |s.mutexes|
  {
    var s1 := Sleep(s, t, m);
    var p := s.threads[t].currentPriority;
    if p < s.mutexes[m].priority then s1.WithMutex(m, s1.mutexes[m].(priority := p)) else s1
  }

  /** `t` may fall asleep in `m`'s queue: it runs, and another thread holds `m`. */
  ghost predicate MaySleep(s: State, t: nat, m: nat) {
    && Inv(s) && t < |s.threads| && m < |s.mutexes|
    && s.threads[t].stat == Running
    && s.mutexes[m].owner.Some? && s.mutexes[m].owner != Some(t)
  }

  lemma MarkKeepsLinks(s: State, m: nat, p: nat)
    requires Linked(s) && m < |s.mutexes|
    ensures Linked(s.WithMutex(m, s.mutexes[m].(priority := p)))
  {
    var s1 := s.WithMutex(m, s.mutexes[m].(priority := p));
    forall u | 0 <= u < |s.threads| ensures s1.threads[u].currentPriority <= NO_WAITER {
      assert ThreadLinks(s, u);
    }
    forall k | 0 <= k < |s.mutexes| ensures NoDup(s1.mutexes[k].waiters) {
      assert MutexLinks(s, k);
    }
    LinksCarryOver(s, s1);
  }

  lemma EnqueueHead(ts: seq<Thread>, q: seq<nat>, t: nat)
    requires t < |ts| && Sorted(ts, q) && ts[t].currentPriority <= NO_WAITER
    ensures Sorted(ts, Enqueue(ts, q, t))
    ensures HeadPriority(ts, Enqueue(ts, q, t)) ==
            if ts[t].currentPriority < HeadPriority(ts, q) then ts[t].currentPriority else HeadPriority(ts, q)
  {
    EnqueueSorted(ts, q, t);
  }

  lemma SleepMutexes(s: State, t: nat, m: nat)
    requires MaySleep(s, t, m)
    ensures var s2 := SleepAndMark(s, t, m);
            && Linked(s2)
            && (forall k :: 0 <= k < |s.mutexes| ==> MutexOk(s2, k))
            && (forall k :: 0 <= k < |s.mutexes| && k != m ==> s2.mutexes[k].priority == s.mutexes[k].priority)
  {
    var s1, s2 := Sleep(s, t, m), SleepAndMark(s, t, m);
    SleepKeepsLinks(s, t, m);
    MarkKeepsLinks(s1, m, s2.mutexes[m].priority);
    assert s2 == s1.WithMutex(m, s1.mutexes[m].(priority := s2.mutexes[m].priority));
    assert ThreadLinks(s, t) && MutexOk(s, m);
    EnqueueHead(s.threads, s.mutexes[m].waiters, t);
    assert forall u :: 0 <= u < |s.threads| ==> s2.threads[u].currentPriority == s.threads[u].currentPriority;
    SortedSame(s.threads, s2.threads, s2.mutexes[m].waiters);
    forall k | 0 <= k < |s.mutexes| && k != m ensures MutexOk(s2, k) {
      assert MutexOk(s, k);
      MutexOkSame(s, s2, k);
    }
  }

  lemma SleepLeavesHole(s: State, t: nat, m: nat)
    requires MaySleep(s, t, m)
    ensures var s2 := SleepAndMark(s, t, m);
            var o := s.mutexes[m].owner.value;
            var p := s.threads[t].currentPriority;
            && o < |s.threads|
            && InvBut(s2, {o})
            && s2.threads[o] == s.threads[o]
            && (if p < s.threads[o].currentPriority then Deserved(s2, o) == p else ThreadOk(s2, o))
            && (p < s.threads[o].currentPriority ==> p < s.mutexes[m].priority)
  {
    var s2 := SleepAndMark(s, t, m);
    var o := s.mutexes[m].owner.value;
    SleepMutexes(s, t, m);
    assert MutexLinks(s, m) && ThreadOk(s, o);
    forall u | 0 <= u < |s.threads| && u != o ensures ThreadOk(s2, u) {
      assert ThreadLinks(s, u) && ThreadOk(s, u);
      DeservedSame(s, s2, u);
    }
  }

  /** `rt_mutex_take` by the running thread `t`; `wait` is false for a zero timeout. */
  function Take(s: State, t: nat, m: nat, wait: bool): (r: (State, TakeResult))
    requires Inv(s) && t < |s.threads| && m < |s.mutexes| && s.threads[t].stat == Running
    ensures Inv(r.0)
  {
    var mx := s.mutexes[m];
    if mx.owner == Some(t) then
      if mx.hold < HOLD_MAX then
        HoldKeeps(s, m, mx.hold + 1);
        (s.WithMutex(m, mx.(hold := mx.hold + 1)), Taken)
      else (s, Full)
    else if mx.owner.None? then
      GrabKeeps(s, t, m);
      (Grab(s, t, m), Taken)
    else if !wait then (s, Timeout)
    else
      SleepLeavesHole(s, t, m);
      var s2 := SleepAndMark(s, t, m);
      var p := s.threads[t].currentPriority;
      var o := mx.owner.value;
      if p < mx.priority && p < s2.threads[o].currentPriority
      then (UpdatePriority(s2, o, p), Sleeping)
      else (s2, Sleeping)
  }

  lemma HoldKeeps(s: State, m: nat, h: nat)
    requires Inv(s) && m < |s.mutexes| && s.mutexes[m].owner.Some? && 0 < h <= HOLD_MAX
    ensures Inv(s.WithMutex(m, s.mutexes[m].(hold := h)))
  {
    HoldKeepsBut(s, m, h, {});
  }

  lemma HoldKeepsBut(s: State, m: nat, h: nat, except: set<nat>)
    requires InvBut(s, except) && m < |s.mutexes| && s.mutexes[m].owner.Some? && 0 < h <= HOLD_MAX
    ensures InvBut(s.WithMutex(m, s.mutexes[m].(hold := h)), except)
  {
    var s1 := s.WithMutex(m, s.mutexes[m].(hold := h));
    assert InRange(s1);
    forall k | 0 <= k < |s.mutexes| ensures MutexLinks(s1, k) && MutexOk(s1, k) {
      assert MutexLinks(s, k) && MutexOk(s, k);
      MutexOkSame(s, s1, k);
    }
    forall u | 0 <= u < |s.threads| ensures ThreadLinks(s1, u) && (u !in except ==> ThreadOk(s1, u)) {
      assert ThreadLinks(s, u) && (u !in except ==> ThreadOk(s, u));
      DeservedSame(s, s1, u);
    }
  }

  /** The last hold is given back: `m` leaves `t`'s taken list, and `t` drops to what the rest deserves. */
  function GiveUp(s: State, t: nat, m: nat): Thread
    requires InRange(s) && t < |s.threads| && m < |s.mutexes|
  {
    var th := s.threads[t];
    var rest := Without(th.taken, m);
    WithoutBelow(th.taken, m, |s.mutexes|);
    if th.currentPriority == s.mutexes[m].priority
    then th.(taken := rest, currentPriority := MinTaken(s.mutexes, rest, th.initPriority))
    else th.(taken := rest)
  }

  /** `m` becomes free; `th` is the former owner's new record. */
  function Free(s: State, t: nat, th: Thread, m: nat): State
    requires t < |s.threads| && m < |s.mutexes|
  {
    s.WithThread(t, th).WithMutex(m, s.mutexes[m].(owner := None, hold := 0, priority := NO_WAITER))
  }

  /** The first waiter wakes up as the owner of `m`. */
  function WokenOwner(th: Thread, m: nat): Thread {
    th.(taken := [m] + th.taken, pending := None, stat := Ready)
  }

  /** `m` goes to its first waiter `n`. */
  function HandOff(s: State, t: nat, th: Thread, m: nat, n: nat): State
    requires InRange(s) && t < |s.threads| && m < |s.mutexes| && n < |s.threads|
    requires s.mutexes[m].waiters != []
  {
    var rest := s.mutexes[m].waiters[1..];
    State(s.threads[t := th][n := WokenOwner(s.threads[n], m)],
          s.mutexes[m := Mutex(Some(n), 1, HeadPriority(s.threads, rest), rest)])
  }

  /** `th` is `t`'s record after `m` left its taken list, at the priority the rest deserves. */
  ghost predicate GaveUp(s: State, t: nat, m: nat, th: Thread)
    requires t < |s.threads| && m < |s.mutexes|
  {
    && th == s.threads[t].(taken := th.taken, currentPriority := th.currentPriority)
    && NoDup(th.taken) && Below(th.taken, |s.mutexes|) && m !in th.taken
    && (forall k :: k in th.taken ==> k in s.threads[t].taken)
    && (forall k :: k in s.threads[t].taken && k != m ==> k in th.taken)
    && th.currentPriority == MinTaken(s.mutexes, th.taken, th.initPriority)
    && th.currentPriority <= NO_WAITER
  }

  /** `t` runs and holds `m`. */
  ghost predicate MayRelease(s: State, t: nat, m: nat) {
    && Inv(s) && t < |s.threads| && m < |s.mutexes|
    && s.threads[t].stat == Running && s.mutexes[m].owner == Some(t)
  }

  lemma GiveUpDeserves(s: State, t: nat, m: nat)
    requires MayRelease(s, t, m)
    ensures GaveUp(s, t, m, GiveUp(s, t, m))
  {
    assert ThreadLinks(s, t) && ThreadOk(s, t);
    WithoutBelow(s.threads[t].taken, m, |s.mutexes|);
    WithoutMembers(s.threads[t].taken, m);
  }

  /** What a thread deserves depends only on the mutexes it holds. */
  lemma MinTakenSame(ms: seq<Mutex>, ms': seq<Mutex>, taken: seq<nat>, p: nat)
    requires Below(taken, |ms|) && Below(taken, |ms'|)
    requires forall m :: m in taken ==> ms'[m].priority == ms[m].priority
    ensures MinTaken(ms', taken, p) == MinTaken(ms, taken, p)
  {
  }

  lemma FreeLinks(s: State, t: nat, th: Thread, m: nat)
    requires MayRelease(s, t, m) && GaveUp(s, t, m, th) && s.mutexes[m].waiters == []
    ensures Linked(Free(s, t, th, m))
  {
    var s1 := Free(s, t, th, m);
    assert InRange(s1);
    forall k | 0 <= k < |s.mutexes| ensures MutexLinks(s1, k) {
      assert MutexLinks(s, k);
    }
    forall u | 0 <= u < |s.threads| ensures ThreadLinks(s1, u) {
      assert ThreadLinks(s, u);
    }
  }

  lemma FreeKeeps(s: State, t: nat, th: Thread, m: nat)
    requires MayRelease(s, t, m) && GaveUp(s, t, m, th) && s.mutexes[m].waiters == []
    ensures Inv(Free(s, t, th, m))
  {
    var s1 := Free(s, t, th, m);
    FreeLinks(s, t, th, m);
    forall k | 0 <= k < |s.mutexes| ensures MutexOk(s1, k) {
      assert MutexLinks(s, k) && MutexOk(s, k);
      assert t !in s.mutexes[k].waiters;
      MutexOkSame(s, s1, k);
    }
    forall u | 0 <= u < |s.threads| ensures ThreadOk(s1, u) {
      assert ThreadLinks(s, u) && ThreadOk(s, u);
      MinTakenSame(s.mutexes, s1.mutexes, s1.threads[u].taken, s.threads[u].initPriority);
    }
  }

  /** `t` gives up `m`, and `n` is next in line for it. */
  ghost predicate MayHandOff(s: State, t: nat, th: Thread, m: nat, n: nat) {
    && MayRelease(s, t, m) && GaveUp(s, t, m, th)
    && s.mutexes[m].waiters != [] && n == s.mutexes[m].waiters[0]
    && n < |s.threads| && t != n && m !in s.threads[n].taken
    && s.threads[n].pending == Some(m) && s.threads[n].stat == Suspended
  }

  lemma NextInLine(s: State, t: nat, th: Thread, m: nat)
    requires MayRelease(s, t, m) && GaveUp(s, t, m, th) && s.mutexes[m].waiters != []
    ensures MayHandOff(s, t, th, m, s.mutexes[m].waiters[0])
    ensures InRange(HandOff(s, t, th, m, s.mutexes[m].waiters[0]))
  {
    var n := s.mutexes[m].waiters[0];
    assert MutexLinks(s, m) && n in s.mutexes[m].waiters && ThreadLinks(s, n);
  }

  lemma HandOffMutex(s: State, t: nat, th: Thread, m: nat, n: nat, k: nat)
    requires MayHandOff(s, t, th, m, n) && k < |s.mutexes|
    requires InRange(HandOff(s, t, th, m, n))
    ensures MutexLinks(HandOff(s, t, th, m, n), k)
  {
    assert MutexLinks(s, k);
    if k == m {
      TailNoDup(s.mutexes[m].waiters);
    }
  }

  lemma HandOffQueue(s: State, t: nat, th: Thread, m: nat, n: nat, k: nat)
    requires MayHandOff(s, t, th, m, n) && k < |s.mutexes|
    requires InRange(HandOff(s, t, th, m, n))
    ensures MutexOk(HandOff(s, t, th, m, n), k)
  {
    var ts := HandOff(s, t, th, m, n).threads;
    assert MutexLinks(s, k) && MutexOk(s, k);
    var q := s.mutexes[k].waiters;
    SortedSame(s.threads, ts, q);
    if k == m {
      SortedTail(ts, q);
      assert |q| > 1 ==> q[1] in q;
    }
  }

  lemma SortedTail(ts: seq<Thread>, q: seq<nat>)
    requires Sorted(ts, q) && q != []
    ensures Sorted(ts, q[1..])
  {
    forall i, j | 0 <= i < j < |q| - 1 ensures InOrder(ts, q[1..], i, j) {
      assert InOrder(ts, q, i + 1, j + 1);
    }
  }

  lemma HandOffThread(s: State, t: nat, th: Thread, m: nat, n: nat, u: nat)
    requires MayHandOff(s, t, th, m, n) && u < |s.threads|
    requires InRange(HandOff(s, t, th, m, n))
    ensures ThreadLinks(HandOff(s, t, th, m, n), u)
  {
    assert ThreadLinks(s, u) && MutexLinks(s, m) && ThreadLinks(s, n);
    TailNoDup(s.mutexes[m].waiters);
    ConsNoDup(m, s.threads[n].taken);
  }

  lemma HandOffNewOwner(s: State, t: nat, th: Thread, m: nat, n: nat)
    requires MayHandOff(s, t, th, m, n) && InRange(HandOff(s, t, th, m, n))
    ensures ThreadOk(HandOff(s, t, th, m, n), n)
  {
    var s1 := HandOff(s, t, th, m, n);
    var q := s.mutexes[m].waiters;
    assert ThreadLinks(s, n) && ThreadOk(s, n) && MutexOk(s, m);
    assert |q| > 1 ==> InOrder(s.threads, q, 0, 1);
    assert s.threads[n].currentPriority <= s1.mutexes[m].priority;
    assert forall k :: k in s1.threads[n].taken <==> k == m || k in s.threads[n].taken;
  }

  lemma HandOffDeserves(s: State, t: nat, th: Thread, m: nat, n: nat, u: nat)
    requires MayHandOff(s, t, th, m, n) && u < |s.threads|
    requires InRange(HandOff(s, t, th, m, n))
    ensures ThreadOk(HandOff(s, t, th, m, n), u)
  {
    var s1 := HandOff(s, t, th, m, n);
    if u == n {
      HandOffNewOwner(s, t, th, m, n);
    } else {
      assert ThreadLinks(s, u) && ThreadOk(s, u);
      MinTakenSame(s.mutexes, s1.mutexes, s1.threads[u].taken, s.threads[u].initPriority);
    }
  }

  lemma HandOffKeeps(s: State, t: nat, th: Thread, m: nat, n: nat)
    requires MayHandOff(s, t, th, m, n) && InRange(HandOff(s, t, th, m, n))
    ensures Inv(HandOff(s, t, th, m, n))
  {
    var s1 := HandOff(s, t, th, m, n);
    forall k | 0 <= k < |s.mutexes| ensures MutexLinks(s1, k) && MutexOk(s1, k) {
      HandOffMutex(s, t, th, m, n, k);
      HandOffQueue(s, t, th, m, n, k);
    }
    forall u | 0 <= u < |s.threads| ensures ThreadLinks(s1, u) && ThreadOk(s1, u) {
      HandOffThread(s, t, th, m, n, u);
      HandOffDeserves(s, t, th, m, n, u);
    }
  }

  /** `rt_mutex_release` by the running thread `t`; false when `t` is not the owner. */
  function Release(s: State, t: nat, m: nat): (r: (State, bool))
    requires Inv(s) && t < |s.threads| && m < |s.mutexes| && s.threads[t].stat == Running
    ensures Inv(r.0)
    ensures r.1 <==> s.mutexes[m].owner == Some(t)
    ensures !r.1 ==> r.0 == s
  {
    var mx := s.mutexes[m];
    if mx.owner != Some(t) then (s, false)
    else
      assert MutexLinks(s, m);
      var th := GiveUp(s, t, m);
      GiveUpDeserves(s, t, m);
      if mx.hold > 1 then
        HoldKeeps(s, m, mx.hold - 1);
        (s.WithMutex(m, mx.(hold := mx.hold - 1)), true)
      else if mx.waiters == [] then
        FreeKeeps(s, t, th, m);
        (Free(s, t, th, m), true)
      else
        NextInLine(s, t, th, m);
        HandOffKeeps(s, t, th, m, mx.waiters[0]);
        (HandOff(s, t, th, m, mx.waiters[0]), true)
  }

  /** `t` leaves `m`'s queue and closes (`rt_thread_detach` up to the priority update). */
  function Leave(s: State, t: nat, m: nat): State
    requires InRange(s) && t < |s.threads| && m < |s.mutexes|
  {
    var q := Without(s.mutexes[m].waiters, t);
    WithoutBelow(s.mutexes[m].waiters, t, |s.threads|);
    s.WithThread(t, s.threads[t].(stat := Closed))
     .WithMutex(m, s.mutexes[m].(waiters := q, priority := HeadPriority(s.threads, q)))
  }

  lemma LeaveMutexLink(s: State, t: nat, m: nat, k: nat)
    requires Linked(s) && t < |s.threads| && Blocked(s, t) && s.threads[t].pending == Some(m)
    requires m < |s.mutexes| && InRange(Leave(s, t, m)) && k < |s.mutexes|
    ensures MutexLinks(Leave(s, t, m), k)
  {
    assert MutexLinks(s, k);
    if k == m {
      WithoutMembers(s.mutexes[m].waiters, t);
    }
  }

  lemma LeaveThreadLink(s: State, t: nat, m: nat, u: nat)
    requires Linked(s) && t < |s.threads| && Blocked(s, t) && s.threads[t].pending == Some(m)
    requires m < |s.mutexes| && InRange(Leave(s, t, m)) && u < |s.threads|
    ensures ThreadLinks(Leave(s, t, m), u)
  {
    assert ThreadLinks(s, u) && MutexLinks(s, m);
    WithoutMembers(s.mutexes[m].waiters, t);
  }

  lemma LeaveLinks(s: State, t: nat, m: nat)
    requires Inv(s) && t < |s.threads| && Blocked(s, t) && s.threads[t].pending == Some(m)
    ensures m < |s.mutexes| && t in s.mutexes[m].waiters && Linked(Leave(s, t, m))
  {
    var s1 := Leave(s, t, m);
    WithoutBelow(s.mutexes[m].waiters, t, |s.threads|);
    assert ThreadLinks(s, t);
    assert InRange(s1);
    forall k | 0 <= k < |s.mutexes| ensures MutexLinks(s1, k) {
      LeaveMutexLink(s, t, m, k);
    }
    forall u | 0 <= u < |s.threads| ensures ThreadLinks(s1, u) {
      LeaveThreadLink(s, t, m, u);
    }
  }

  lemma LeaveQueue(ts: seq<Thread>, q: seq<nat>, t: nat)
    requires Sorted(ts, q) && NoDup(q) && t in q
    requires forall i :: 0 <= i < |ts| ==> ts[i].currentPriority <= NO_WAITER
    ensures Sorted(ts, Without(q, t))
    ensures HeadPriority(ts, q) <= HeadPriority(ts, Without(q, t))
    ensures HeadPriority(ts, q) < ts[t].currentPriority ==> HeadPriority(ts, Without(q, t)) == HeadPriority(ts, q)
  {
    WithoutSorted(ts, q, t);
    WithoutMembers(q, t);
    var r := Without(q, t);
    if r != [] {
      assert r[0] in q;
      HeadIsMin(ts, q, r[0]);
    }
    if q[0] != t {
      assert q[0] in r;
      HeadIsMin(ts, r, q[0]);
    }
  }

  lemma LeaveMutexes(s: State, t: nat, m: nat)
    requires Inv(s) && t < |s.threads| && Blocked(s, t) && s.threads[t].pending == Some(m)
    requires Linked(Leave(s, t, m)) && t in s.mutexes[m].waiters
    ensures var s1 := Leave(s, t, m);
            && (forall k :: 0 <= k < |s.mutexes| ==> MutexOk(s1, k))
            && (forall k :: 0 <= k < |s.mutexes| && k != m ==> s1.mutexes[k] == s.mutexes[k])
            && s.mutexes[m].priority <= s1.mutexes[m].priority
            && s.mutexes[m].priority <= s.threads[t].currentPriority
            && (s.mutexes[m].priority < s.threads[t].currentPriority ==> s1.mutexes[m].priority == s.mutexes[m].priority)
  {
    var s1 := Leave(s, t, m);
    assert MutexLinks(s, m) && MutexOk(s, m);
    forall u | 0 <= u < |s.threads| ensures s.threads[u].currentPriority <= NO_WAITER {
      assert ThreadLinks(s, u);
    }
    LeaveQueue(s.threads, s.mutexes[m].waiters, t);
    HeadIsMin(s.threads, s.mutexes[m].waiters, t);
    assert forall u :: 0 <= u < |s.threads| ==> s1.threads[u].currentPriority == s.threads[u].currentPriority;
    SortedSame(s.threads, s1.threads, s1.mutexes[m].waiters);
    forall k | 0 <= k < |s.mutexes| && k != m ensures MutexOk(s1, k) {
      assert MutexOk(s, k);
      MutexOkSame(s, s1, k);
    }
  }

  lemma LeaveLeavesHole(s: State, t: nat, m: nat)
    requires Inv(s) && t < |s.threads| && Blocked(s, t) && s.threads[t].pending == Some(m)
    ensures m < |s.mutexes| && s.mutexes[m].owner.Some?
    ensures var s1 := Leave(s, t, m);
            var o := s.mutexes[m].owner.value;
            && o < |s.threads| && o != t
            && InvBut(s1, {o})
            && (s.threads[o].currentPriority != s.threads[t].currentPriority ==> ThreadOk(s1, o))
  {
    var s1 := Leave(s, t, m);
    LeaveLinks(s, t, m);
    LeaveMutexes(s, t, m);
    assert MutexLinks(s, m);
    var o := s.mutexes[m].owner.value;
    forall u | 0 <= u < |s.threads| && u != o ensures ThreadOk(s1, u) {
      assert ThreadLinks(s, u) && ThreadOk(s, u);
      MinTakenSame(s.mutexes, s1.mutexes, s.threads[u].taken, s.threads[u].initPriority);
    }
    assert ThreadOk(s, o);
    if s.threads[o].currentPriority != s.threads[t].currentPriority {
      if s1.mutexes[m].priority == s.mutexes[m].priority {
        MinTakenSame(s.mutexes, s1.mutexes, s.threads[o].taken, s.threads[o].initPriority);
      } else {
        MinTakenAbove(s.mutexes, s1.mutexes, s.threads[o].taken, s.threads[o].initPriority, m);
      }
    }
  }

  /** Raising the priority number of a mutex that was not the minimum changes nothing. */
  lemma MinTakenAbove(ms: seq<Mutex>, ms': seq<Mutex>, taken: seq<nat>, p: nat, m: nat)
    requires Below(taken, |ms|) && Below(taken, |ms'|) && m in taken
    requires forall k :: k in taken && k != m ==> ms'[k].priority == ms[k].priority
    requires MinTaken(ms, taken, p) < ms[m].priority <= ms'[m].priority
    ensures MinTaken(ms', taken, p) == MinTaken(ms, taken, p)
  {
  }

  lemma CloseKeeps(s: State, t: nat, th: Thread)
    requires Inv(s) && t < |s.threads|
    requires th == s.threads[t].(stat := th.stat, pending := th.pending)
    requires !Blocked(s, t)
    requires th.pending == None || (th.pending == s.threads[t].pending && th.stat == Closed)
    requires th.stat in {Ready, Running} ==> th.pending == None
    ensures Inv(s.WithThread(t, th))
  {
    var s1 := s.WithThread(t, th);
    assert InRange(s1);
    forall k | 0 <= k < |s.mutexes| ensures MutexLinks(s1, k) && MutexOk(s1, k) {
      assert MutexLinks(s, k) && MutexOk(s, k);
      assert t !in s.mutexes[k].waiters;
      MutexOkSame(s, s1, k);
    }
    forall u | 0 <= u < |s.threads| ensures ThreadLinks(s1, u) && ThreadOk(s1, u) {
      assert ThreadLinks(s, u) && ThreadOk(s, u);
    }
  }

  /** `rt_mutex_drop_thread` on a closing thread: the queue closes up and the owner's priority follows. */
  function Drop(s: State, t: nat, m: nat): (s': State)
    requires Inv(s) && t < |s.threads| && Blocked(s, t) && s.threads[t].pending == Some(m)
    ensures Inv(s') && SameLinks(Leave(s, t, m), s')
  {
    LeaveLeavesHole(s, t, m);
    var s1 := Leave(s, t, m);
    var o := s1.mutexes[m].owner.value;
    var p := Deserved(s1, o);
    if s1.threads[o].currentPriority == s1.threads[t].currentPriority && p != s1.threads[o].currentPriority
    then UpdatePriority(s1, o, p) else s1
  }

  /** `rt_thread_detach` of `t`: it closes, and leaves the queue it sleeps in. */
  function Detach(s: State, t: nat): (s': State)
    requires Inv(s) && t < |s.threads|
    ensures Inv(s')
  {
    if s.threads[t].stat == Closed then s
    else if !Blocked(s, t) then
      assert ThreadLinks(s, t);
      CloseKeeps(s, t, s.threads[t].(stat := Closed));
      s.WithThread(t, s.threads[t].(stat := Closed))
    else
      var s2 := Drop(s, t, s.threads[t].pending.value);
      CloseKeeps(s2, t, s2.threads[t].(pending := None));
      s2.WithThread(t, s2.threads[t].(pending := None))
  }
}
