/**
 First come, first served among waiters of equal priority: the order the wait
 queues keep while the priorities of queued threads change.
 */
module PriorityQueueOrder {
  import opened Base
  import opened PriorityInheritance

  /** `x` stands before `y` in the queue. */
  ghost predicate Before(q: seq<nat>, x: nat, y: nat) {
    exists i, j :: 0 <= i < j < |q| && q[i] == x && q[j] == y
  }

  ghost predicate Unmoved(ts: seq<Thread>, ts': seq<Thread>, x: nat) {
    x < |ts| == |ts'| && ts'[x].currentPriority == ts[x].currentPriority
  }

  /** `x` arrived at the priority at which `y` already was. */
  ghost predicate Overtaken(ts: seq<Thread>, ts': seq<Thread>, x: nat, y: nat) {
    && x < |ts| && Unmoved(ts, ts', y) && !Unmoved(ts, ts', x)
    && ts'[y].currentPriority == ts'[x].currentPriority
  }

  /** Waiters whose priority stayed keep their order; one whose priority changed queues behind its new equals. */
  ghost predicate FirstComeFirstServed(ts: seq<Thread>, q: seq<nat>, ts': seq<Thread>, q': seq<nat>)
    requires |ts| == |ts'| && Below(q, |ts|)
  {
    && (forall x, y :: Before(q, x, y) && Unmoved(ts, ts', x) && Unmoved(ts, ts', y) ==> Before(q', x, y))
    && (forall x, y :: x in q && y in q && Overtaken(ts, ts', x, y) ==> Before(q', y, x))
  }

  lemma EnqueueKeepsOrder(ts: seq<Thread>, q: seq<nat>, t: nat, x: nat, y: nat)
    requires t < |ts| && Below(q, |ts|) && Before(q, x, y)
    ensures Before(Enqueue(ts, q, t), x, y)
  {
    var k := Slot(ts, q, ts[t].currentPriority);
    var r := Enqueue(ts, q, t);
    var i, j :| 0 <= i < j < |q| && q[i] == x && q[j] == y;
    assert r[if i < k then i else i + 1] == x && r[if j < k then j else j + 1] == y;
  }

  lemma NewcomerBehind(ts: seq<Thread>, q: seq<nat>, t: nat, w: nat)
    requires t < |ts| && Sorted(ts, q) && NoDup(q) && t !in q && w in q
    ensures w < |ts|
    ensures Before(Enqueue(ts, q, t), w, t) <==> ts[w].currentPriority <= ts[t].currentPriority
  {
    var k := Slot(ts, q, ts[t].currentPriority);
    var r := Enqueue(ts, q, t);
    var i :| 0 <= i < |q| && q[i] == w;
    var i' := if i < k then i else i + 1;
    assert r[k] == t && r[i'] == w;
    assert k < i ==> InOrder(ts, q, k, i);
    if Before(r, w, t) {
      var x, y :| 0 <= x < y < |r| && r[x] == w && r[y] == t;
      EnqueueNoDup(ts, q, t);
      SameIndex(r, x, i');
      SameIndex(r, y, k);
    }
  }

  /** A newcomer stands behind exactly the waiters that are at least as urgent; the others keep their order. */
  lemma EnqueueOrder(ts: seq<Thread>, q: seq<nat>, t: nat)
    requires t < |ts| && Sorted(ts, q) && NoDup(q) && t !in q
    ensures forall x, y :: Before(q, x, y) ==> Before(Enqueue(ts, q, t), x, y)
    ensures forall w :: w in q ==>
              (Before(Enqueue(ts, q, t), w, t) <==> ts[w].currentPriority <= ts[t].currentPriority)
  {
    forall x, y | Before(q, x, y) ensures Before(Enqueue(ts, q, t), x, y) {
      EnqueueKeepsOrder(ts, q, t, x, y);
    }
    forall w | w in q ensures Before(Enqueue(ts, q, t), w, t) <==> ts[w].currentPriority <= ts[t].currentPriority {
      NewcomerBehind(ts, q, t, w);
    }
  }

  lemma WithoutOrder(q: seq<nat>, t: nat, x: nat, y: nat)
    requires NoDup(q) && Before(q, x, y) && x != t && y != t
    ensures Before(Without(q, t), x, y)
  {
    var i, j :| 0 <= i < j < |q| && q[i] == x && q[j] == y;
    var k := IndexOf(q, t);
    if k < |q| {
      var r := Without(q, t);
      assert k != i && k != j;
      assert r[if i < k then i else i - 1] == x && r[if j < k then j else j - 1] == y;
    }
  }

  lemma RequeueOrder(ts: seq<Thread>, q: seq<nat>, t: nat, p: nat)
    requires t < |ts| && Sorted(ts, q) && NoDup(q) && t in q && p != ts[t].currentPriority
    ensures Below(Without(q, t), |ts|)
    ensures var ts1 := ts[t := ts[t].(currentPriority := p)];
            FirstComeFirstServed(ts, q, ts1, Enqueue(ts1, Without(q, t), t))
  {
    var ts1 := ts[t := ts[t].(currentPriority := p)];
    var r := Without(q, t);
    WithoutSorted(ts, q, t);
    WithoutMembers(q, t);
    SortedSame(ts, ts1, r);
    EnqueueOrder(ts1, r, t);
    forall x, y | Before(q, x, y) && x != t && y != t ensures Before(r, x, y) {
      WithoutOrder(q, t, x, y);
    }
  }

  lemma SameOrder(ts: seq<Thread>, q: seq<nat>, ts': seq<Thread>)
    requires |ts| == |ts'| && Below(q, |ts|)
    requires forall x :: x in q ==> Unmoved(ts, ts', x)
    ensures FirstComeFirstServed(ts, q, ts', q)
  {
  }

  /** Two moves in the same direction compose. */
  lemma OrderComposes(ts: seq<Thread>, q: seq<nat>, ts1: seq<Thread>, q1: seq<nat>, ts2: seq<Thread>, q2: seq<nat>, up: bool)
    requires |ts| == |ts1| == |ts2| && Below(q, |ts|) && Below(q1, |ts|)
    requires forall w :: w in q1 <==> w in q
    requires FirstComeFirstServed(ts, q, ts1, q1) && FirstComeFirstServed(ts1, q1, ts2, q2)
    requires forall x :: 0 <= x < |ts| ==>
               if up then ts2[x].currentPriority <= ts1[x].currentPriority <= ts[x].currentPriority
               else ts[x].currentPriority <= ts1[x].currentPriority <= ts2[x].currentPriority
    ensures FirstComeFirstServed(ts, q, ts2, q2)
  {
  }

  lemma RequeueKeepsOrder(s: State, t: nat, p: nat, m: nat)
    requires OutOfDate(s, t, p) && m < |s.mutexes|
    ensures var s1 := Requeue(s, t, p);
            && |s1.threads| == |s.threads| && |s1.mutexes| == |s.mutexes|
            && FirstComeFirstServed(s.threads, s.mutexes[m].waiters, s1.threads, s1.mutexes[m].waiters)
  {
    assert ThreadLinks(s, t) && MutexLinks(s, m) && MutexOk(s, m);
    var q := s.mutexes[m].waiters;
    if Blocked(s, t) && s.threads[t].pending == Some(m) {
      RequeueOrder(s.threads, q, t, p);
    } else {
      assert t !in q;
      SameOrder(s.threads, q, Requeue(s, t, p).threads);
    }
  }

  /** If the walk goes on after the first thread, it goes on at the owner, in the same direction. */
  lemma WalkGoesOn(s: State, t: nat, p: nat, s1: State) returns (o: nat, q: nat)
    requires OutOfDate(s, t, p) && s1 == Requeue(s, t, p) && UpdatePriority(s, t, p) != s1
    ensures OutOfDate(s1, o, q) && UpdatePriority(s, t, p) == UpdatePriority(s1, o, q)
    ensures Boosts(s1, o, q) == Boosts(s, t, p) && 0 <= Slack(s1, Boosts(s, t, p)) < Slack(s, Boosts(s, t, p))
  {
    assert ThreadLinks(s, t);
    RequeueMovesHole(s, t, p);
    SlackDrops(s, t, p);
    o := WaitsFor(s1, t).value;
    q := Deserved(s1, o);
  }

  /** The walk up the wait chain keeps every queue first come, first served among equals. */
  lemma {:induction false} UpdateKeepsOrder(s: State, t: nat, p: nat, m: nat)
    requires OutOfDate(s, t, p) && m < |s.mutexes|
    ensures var s' := UpdatePriority(s, t, p);
            FirstComeFirstServed(s.threads, s.mutexes[m].waiters, s'.threads, s'.mutexes[m].waiters)
    decreases Slack(s, Boosts(s, t, p))
  {
    var s1, s' := Requeue(s, t, p), UpdatePriority(s, t, p);
    RequeueKeepsOrder(s, t, p, m);
    if s' != s1 {
      var o, q := WalkGoesOn(s, t, p, s1);
      UpdateKeepsOrder(s1, o, q, m);
      RequeueMonotone(s, t, p);
      RequeueMovesHole(s, t, p);
      MovesCompose(s, s1, s', m, Boosts(s, t, p));
    }
  }

  /** Two changes of priorities in the same direction keep the order if each does. */
  lemma MovesCompose(s: State, s1: State, s2: State, m: nat, up: bool)
    requires InRange(s) && InRange(s1) && SameLinks(s, s1) && SameLinks(s1, s2) && m < |s.mutexes|
    requires Monotone(s, s1, up) && Monotone(s1, s2, up)
    requires FirstComeFirstServed(s.threads, s.mutexes[m].waiters, s1.threads, s1.mutexes[m].waiters)
    requires FirstComeFirstServed(s1.threads, s1.mutexes[m].waiters, s2.threads, s2.mutexes[m].waiters)
    ensures FirstComeFirstServed(s.threads, s.mutexes[m].waiters, s2.threads, s2.mutexes[m].waiters)
  {
    OrderComposes(s.threads, s.mutexes[m].waiters, s1.threads, s1.mutexes[m].waiters, s2.threads, s2.mutexes[m].waiters, up);
  }
}
