/**
 When a thread is sure to run at its effective priority: exactly if it is not
 part of a deadlock, or a thread of the most urgent priority there is waits
 behind it.  The threads of a deadlock can keep each other at any more urgent
 priority, because each inherits it from the one before.
 */
module EffectivePriority {
  import opened Base
  import opened PriorityInheritance
  import opened PriorityChains

  // -------------------------------------------------------------- one cycle

  /** The threads on the wait chain of `t`, which are its cycle if it is on one. */
  ghost function CycleOf(s: State, t: nat): set<nat>
    requires InRange(s)
  {
    set u: nat | u < |s.threads| && Behind(s, t, u)
  }

  /** A set of threads each of which waits for one in the set and is waited for by exactly one in it. */
  ghost predicate Cycle(s: State, c: set<nat>)
    requires InRange(s)
  {
    && (forall u {:trigger InCycle(s, c, u)} :: u in c ==> InCycle(s, c, u))
    && (forall v, w, u :: Precedes(s, c, v, u) && Precedes(s, c, w, u) ==> v == w)
  }

  ghost predicate InCycle(s: State, c: set<nat>, u: nat)
    requires InRange(s)
  {
    && u < |s.threads| && WaitsFor(s, u).Some? && WaitsFor(s, u).value in c
    && exists w :: Precedes(s, c, w, u)
  }

  ghost predicate Precedes(s: State, c: set<nat>, w: nat, u: nat)
    requires InRange(s)
  {
    w in c && w < |s.threads| && WaitsFor(s, w) == Some(u)
  }

  lemma {:induction false} Onward(s: State, u: nat, v: nat, a: nat, w: nat, b: nat)
    requires InRange(s) && Reaches(s, u, v, a) && Reaches(s, u, w, b) && a <= b
    ensures Reaches(s, v, w, b - a)
    decreases a
  {
    if a > 0 {
      Onward(s, WaitsFor(s, u).value, v, a - 1, w, b - 1);
    }
  }

  /** Of two threads on the way from `u` that both wait for `u`, one comes first, and the chain ends there. */
  lemma {:induction false} OneBefore(s: State, u: nat, v: nat, a: nat, w: nat, b: nat)
    requires InRange(s) && Reaches(s, u, v, a) && Reaches(s, u, w, b) && v < |s.threads| && w < |s.threads|
    requires WaitsFor(s, v) == Some(u) && WaitsFor(s, w) == Some(u)
    ensures v == w
    decreases a + b
  {
    if a < b {
      Onward(s, u, v, a, w, b);
      OneBefore(s, u, v, a, w, b - a - 1);
    } else if b < a {
      Onward(s, u, w, b, v, a);
      OneBefore(s, u, v, a - b - 1, w, b);
    } else {
      Onward(s, u, v, a, w, b);
    }
  }

  /** A thread on a cycle waits for a thread and is waited for by one on its own chain. */
  lemma OnItsChain(s: State, t: nat)
    requires InRange(s) && OnCycle(s, t)
    ensures t < |s.threads| && WaitsFor(s, t).Some? && WaitsFor(s, t).value < |s.threads|
    ensures exists w: nat :: w < |s.threads| && Behind(s, t, w) && WaitsFor(s, w) == Some(t)
  {
    var n: nat :| n > 0 && Reaches(s, t, t, n);
    var w := LastStep(s, t, t, n);
    assert Behind(s, t, w);
  }

  lemma {:induction false} LastStep(s: State, u: nat, t: nat, n: nat) returns (w: nat)
    requires InRange(s) && n > 0 && Reaches(s, u, t, n)
    ensures w < |s.threads| && Reaches(s, u, w, n - 1) && WaitsFor(s, w) == Some(t)
    decreases n
  {
    if n == 1 {
      w := u;
    } else {
      w := LastStep(s, WaitsFor(s, u).value, t, n - 1);
    }
  }

  lemma {:induction false} Chained(s: State, u: nat, v: nat, a: nat, w: nat, b: nat)
    requires InRange(s) && Reaches(s, u, v, a) && Reaches(s, v, w, b)
    ensures Reaches(s, u, w, a + b)
    decreases a
  {
    if a > 0 {
      Chained(s, WaitsFor(s, u).value, v, a - 1, w, b);
    }
  }

  lemma BehindTrans(s: State, u: nat, v: nat, w: nat)
    requires InRange(s) && Behind(s, u, v) && Behind(s, v, w)
    ensures Behind(s, u, w)
  {
    var a: nat :| Reaches(s, u, v, a);
    var b: nat :| Reaches(s, v, w, b);
    Chained(s, u, v, a, w, b);
  }

  /** The chain of a thread on a cycle leads back to it from everywhere. */
  lemma BackAgain(s: State, t: nat, u: nat)
    requires InRange(s) && OnCycle(s, t) && Behind(s, t, u)
    ensures Behind(s, u, t)
  {
    var n: nat :| n > 0 && Reaches(s, t, t, n);
    var k: nat :| Reaches(s, t, u, k);
    Around(s, t, n, u, k);
  }

  lemma {:induction false} Around(s: State, t: nat, n: nat, u: nat, k: nat)
    requires InRange(s) && n > 0 && Reaches(s, t, t, n) && Reaches(s, t, u, k)
    ensures Behind(s, u, t)
    decreases k
  {
    if k <= n {
      Onward(s, t, u, k, t, n);
    } else {
      Onward(s, t, t, n, u, k);
      Around(s, t, n, u, k - n);
    }
  }

  lemma IsCycle(s: State, t: nat)
    requires InRange(s) && OnCycle(s, t)
    ensures t in CycleOf(s, t) && Cycle(s, CycleOf(s, t))
  {
    var c := CycleOf(s, t);
    OnItsChain(s, t);
    assert Reaches(s, t, t, 0);
    forall u | u in c ensures InCycle(s, c, u) {
      Neighbours(s, t, u);
    }
    forall v, w, u | Precedes(s, c, v, u) && Precedes(s, c, w, u) ensures v == w {
      OneNeighbour(s, t, v, w, u);
    }
  }

  lemma Neighbours(s: State, t: nat, u: nat)
    requires InRange(s) && OnCycle(s, t) && u < |s.threads| && Behind(s, t, u)
    ensures InCycle(s, CycleOf(s, t), u)
  {
    CycleBehind(s, t, u);
    OnItsChain(s, u);
    var v := WaitsFor(s, u).value;
    assert Reaches(s, v, v, 0) && Reaches(s, u, v, 1);
    assert Behind(s, u, v);
    BehindTrans(s, t, u, v);
    var w: nat :| w < |s.threads| && Behind(s, u, w) && WaitsFor(s, w) == Some(u);
    BehindTrans(s, t, u, w);
    assert Precedes(s, CycleOf(s, t), w, u);
  }

  lemma OneNeighbour(s: State, t: nat, v: nat, w: nat, u: nat)
    requires InRange(s) && OnCycle(s, t) && Behind(s, t, v) && Behind(s, t, w) && v < |s.threads| && w < |s.threads|
    requires WaitsFor(s, v) == Some(u) && WaitsFor(s, w) == Some(u)
    ensures v == w
  {
    assert u < |s.threads|;
    assert Reaches(s, u, u, 0) && Reaches(s, v, u, 1);
    assert Behind(s, v, u);
    BehindTrans(s, t, v, u);
    BackAgain(s, t, u);
    BehindTrans(s, u, t, v);
    BehindTrans(s, u, t, w);
    var a: nat :| Reaches(s, u, v, a);
    var b: nat :| Reaches(s, u, w, b);
    OneBefore(s, u, v, a, w, b);
  }

  // ------------------------------------------------- the priorities of a cycle

  /** The waiter of `m` that is on the cycle `c`. */
  ghost function Member(s: State, c: set<nat>, m: nat): (r: Option<nat>)
    requires m < |s.mutexes|
    ensures r.Some? ==> r.value in s.mutexes[m].waiters && r.value in c
    ensures r.None? ==> forall w :: w in s.mutexes[m].waiters ==> w !in c
  {
    if w :| w in s.mutexes[m].waiters && w in c then Some(w) else None
  }

  ghost function JammedThread(s: State, c: set<nat>, u: nat): Thread
    requires u < |s.threads|
  {
    if u in c then s.threads[u].(currentPriority := 0) else s.threads[u]
  }

  ghost function JammedMutex(s: State, c: set<nat>, m: nat): Mutex
    requires m < |s.mutexes|
  {
    match Member(s, c, m)
    case None => s.mutexes[m]
    case Some(w) => s.mutexes[m].(waiters := [w] + Without(s.mutexes[m].waiters, w), priority := 0)
  }

  /** The same ownership and waits with the threads of `c` at priority 0. */
  ghost function Jammed(s: State, c: set<nat>): State {
    State(seq(|s.threads|, u requires 0 <= u < |s.threads| => JammedThread(s, c, u)),
          seq(|s.mutexes|, m requires 0 <= m < |s.mutexes| => JammedMutex(s, c, m)))
  }

  lemma JammedMembers(s: State, c: set<nat>, m: nat)
    requires InRange(s) && m < |s.mutexes| && MutexLinks(s, m)
    ensures var q, q' := s.mutexes[m].waiters, JammedMutex(s, c, m).waiters;
            NoDup(q') && |q'| == |q| && forall w :: w in q' <==> w in q
  {
    var q := s.mutexes[m].waiters;
    if Member(s, c, m).Some? {
      var w := Member(s, c, m).value;
      WithoutMembers(q, w);
      ConsNoDup(w, Without(q, w));
    }
  }

  lemma JammedLinks(s: State, c: set<nat>)
    requires Linked(s)
    ensures SameLinks(s, Jammed(s, c)) && Linked(Jammed(s, c))
  {
    var s' := Jammed(s, c);
    forall m | 0 <= m < |s.mutexes|
      ensures var q, q' := s.mutexes[m].waiters, s'.mutexes[m].waiters;
              NoDup(q') && |q'| == |q| && forall w :: w in q' <==> w in q
    {
      assert MutexLinks(s, m);
      JammedMembers(s, c, m);
    }
    forall u | 0 <= u < |s.threads| ensures s'.threads[u].currentPriority <= NO_WAITER {
      assert ThreadLinks(s, u);
    }
    LinksCarryOver(s, s');
  }

  /** Only one waiter of a mutex is on the cycle. */
  lemma OneMember(s: State, c: set<nat>, m: nat, v: nat, w: nat)
    requires Linked(s) && Cycle(s, c) && m < |s.mutexes|
    requires v in s.mutexes[m].waiters && w in s.mutexes[m].waiters && v in c && w in c
    ensures v == w
  {
    assert MutexLinks(s, m);
    var o := s.mutexes[m].owner.value;
    assert Precedes(s, c, v, o) && Precedes(s, c, w, o);
  }

  /** A mutex with a waiter `w` on the cycle: `w` moves to the front. */
  lemma JammedQueue(s: State, c: set<nat>, m: nat, w: nat, ts: seq<Thread>)
    requires Inv(s) && Cycle(s, c) && m < |s.mutexes| && w in s.mutexes[m].waiters && w in c
    requires |ts| == |s.threads| && forall u :: 0 <= u < |ts| ==> ts[u] == JammedThread(s, c, u)
    ensures Sorted(ts, [w] + Without(s.mutexes[m].waiters, w))
  {
    assert MutexLinks(s, m) && MutexOk(s, m);
    var q := s.mutexes[m].waiters;
    var r := Without(q, w);
    WithoutMembers(q, w);
    WithoutSorted(s.threads, q, w);
    forall v | v in r ensures v < |s.threads| && ts[v].currentPriority == s.threads[v].currentPriority {
      if v in c {
        OneMember(s, c, m, v, w);
      }
    }
    SortedSame(s.threads, ts, r);
    FirstSorted(ts, w, r);
  }

  lemma FirstSorted(ts: seq<Thread>, w: nat, r: seq<nat>)
    requires w < |ts| && ts[w].currentPriority == 0 && Sorted(ts, r)
    ensures Sorted(ts, [w] + r)
  {
    var q := [w] + r;
    forall i, j | 0 <= i < j < |q| ensures InOrder(ts, q, i, j) {
      assert i > 0 ==> InOrder(ts, r, i - 1, j - 1);
    }
  }

  /** `s'` has the threads and mutexes of the jammed state. */
  ghost predicate IsJam(s: State, c: set<nat>, s': State) {
    && |s'.threads| == |s.threads| && |s'.mutexes| == |s.mutexes|
    && (forall u :: 0 <= u < |s.threads| ==> s'.threads[u] == JammedThread(s, c, u))
    && (forall m :: 0 <= m < |s.mutexes| ==> s'.mutexes[m] == JammedMutex(s, c, m))
  }

  lemma JammedMutexOk(s: State, c: set<nat>, m: nat, s': State)
    requires Inv(s) && Cycle(s, c) && m < |s.mutexes| && Linked(s') && IsJam(s, c, s')
    ensures MutexOk(s', m)
  {
    var w := Member(s, c, m);
    if w.None? {
      MutexOkSame(s, s', m);
    } else {
      JammedQueue(s, c, m, w.value, s'.threads);
    }
  }

  /** A thread on the cycle inherits priority 0 from the one before it. */
  lemma JammedOwner(s: State, c: set<nat>, u: nat, s': State)
    requires Inv(s) && Cycle(s, c) && u in c && Linked(s') && IsJam(s, c, s')
    ensures u < |s.threads| && ThreadOk(s', u)
  {
    assert InCycle(s, c, u);
    var w: nat :| Precedes(s, c, w, u);
    var m := s.threads[w].pending.value;
    assert ThreadLinks(s, w) && MutexLinks(s, m);
    assert w in s.mutexes[m].waiters && Member(s, c, m).Some?;
    assert m in s'.threads[u].taken && s'.mutexes[m].priority == 0;
  }

  /** No mutex of a thread outside is waited for on the cycle. */
  lemma JammedOutsider(s: State, c: set<nat>, u: nat, s': State)
    requires Inv(s) && Cycle(s, c) && u < |s.threads| && u !in c && Linked(s') && IsJam(s, c, s')
    ensures ThreadOk(s', u)
  {
    assert ThreadLinks(s, u) && ThreadOk(s, u);
    forall m | m in s.threads[u].taken ensures s'.mutexes[m].priority == s.mutexes[m].priority {
      OutsideMutex(s, c, u, m);
    }
    DeservedSame(s, s', u);
  }

  lemma OwnerInCycle(s: State, c: set<nat>, m: nat, w: nat)
    requires Linked(s) && Cycle(s, c) && m < |s.mutexes| && w in s.mutexes[m].waiters && w in c
    ensures s.mutexes[m].owner.Some? && s.mutexes[m].owner.value in c
  {
    assert MutexLinks(s, m) && InCycle(s, c, w);
  }

  lemma OutsideMutex(s: State, c: set<nat>, u: nat, m: nat)
    requires Linked(s) && Cycle(s, c) && u !in c && m < |s.mutexes| && s.mutexes[m].owner == Some(u)
    ensures Member(s, c, m).None?
  {
    if Member(s, c, m).Some? {
      OwnerInCycle(s, c, m, Member(s, c, m).value);
    }
  }

  /** The invariant allows a cycle any priority as long as its threads agree. */
  lemma JammedInv(s: State, c: set<nat>)
    requires Inv(s) && Cycle(s, c)
    ensures SameLinks(s, Jammed(s, c)) && Inv(Jammed(s, c))
  {
    var s' := Jammed(s, c);
    JammedLinks(s, c);
    assert IsJam(s, c, s');
    forall m | 0 <= m < |s.mutexes| ensures MutexOk(s', m) {
      JammedMutexOk(s, c, m, s');
    }
    forall u | 0 <= u < |s.threads| ensures ThreadOk(s', u) {
      if u in c {
        JammedOwner(s, c, u, s');
      } else {
        JammedOutsider(s, c, u, s');
      }
    }
  }

  // ------------------------------------------------------ the exact condition

  lemma {:induction false} SameReaches(s: State, s': State, u: nat, t: nat, n: nat)
    requires InRange(s) && InRange(s') && SameEdges(s, s')
    ensures Reaches(s', u, t, n) <==> Reaches(s, u, t, n)
    decreases n
  {
    if n > 0 && u < |s.threads| && WaitsFor(s, u).Some? {
      SameReaches(s, s', WaitsFor(s, u).value, t, n - 1);
    }
  }

  lemma SameBehind(s: State, s': State, u: nat, t: nat)
    requires InRange(s) && InRange(s') && SameEdges(s, s')
    ensures Behind(s', u, t) <==> Behind(s, u, t)
    ensures OnCycle(s', t) <==> OnCycle(s, t)
  {
    forall n: nat ensures Reaches(s', u, t, n) <==> Reaches(s, u, t, n) {
      SameReaches(s, s', u, t, n);
    }
    forall n: nat ensures Reaches(s', t, t, n) <==> Reaches(s, t, t, n) {
      SameReaches(s, s', t, t, n);
    }
  }

  /** `t` is at its effective priority in every sound state with the ownership, waits and own priorities of `s`. */
  ghost predicate SurelyEffective(s: State, t: nat) {
    forall s' :: SameLinks(s, s') && Inv(s') && t < |s'.threads| ==> IsEffective(s', t, s'.threads[t].currentPriority)
  }

  /** A thread behind `t` has the most urgent priority there is as its own. */
  ghost predicate TopBehind(s: State, t: nat)
    requires InRange(s)
  {
    exists u: nat :: u < |s.threads| && Behind(s, u, t) && s.threads[u].initPriority == 0
  }

  lemma TopIsEffective(s: State, t: nat)
    requires Inv(s) && t < |s.threads| && TopBehind(s, t)
    ensures IsEffective(s, t, s.threads[t].currentPriority)
  {
    var u: nat :| u < |s.threads| && Behind(s, u, t) && s.threads[u].initPriority == 0;
    var n: nat :| Reaches(s, u, t, n);
    ChainUrgency(s, u, t, n);
  }

  /**
   A thread is sure to run at its effective priority exactly if it is not on a wait-for cycle, or
   a thread behind it has priority 0.
   */
  lemma EffectiveExactly(s: State, t: nat)
    requires Inv(s) && t < |s.threads|
    ensures SurelyEffective(s, t) <==> !OnCycle(s, t) || TopBehind(s, t)
  {
    if !OnCycle(s, t) || TopBehind(s, t) {
      forall s' | SameLinks(s, s') && Inv(s') && t < |s'.threads|
        ensures IsEffective(s', t, s'.threads[t].currentPriority)
      {
        StillEffective(s, s', t);
      }
    } else {
      var c := CycleOf(s, t);
      IsCycle(s, t);
      JammedInv(s, c);
      NotEffective(s, Jammed(s, c), t);
    }
  }

  lemma StillEffective(s: State, s': State, t: nat)
    requires Inv(s) && SameLinks(s, s') && Inv(s') && t < |s.threads| && (!OnCycle(s, t) || TopBehind(s, t))
    ensures IsEffective(s', t, s'.threads[t].currentPriority)
  {
    SameLinksSameEdges(s, s');
    if !OnCycle(s, t) {
      SameBehind(s, s', t, t);
      RunsAtEffectivePriority(s', t);
    } else {
      var u: nat :| u < |s.threads| && Behind(s, u, t) && s.threads[u].initPriority == 0;
      SameBehind(s, s', u, t);
      TopIsEffective(s', t);
    }
  }

  lemma NotEffective(s: State, s': State, t: nat)
    requires Inv(s) && SameLinks(s, s') && Inv(s') && t < |s.threads|
    requires s'.threads[t].currentPriority == 0 && !TopBehind(s, t)
    ensures !IsEffective(s', t, s'.threads[t].currentPriority)
  {
    SameLinksSameEdges(s, s');
    forall u: nat | u < |s.threads| && Behind(s', u, t) ensures s'.threads[u].initPriority != 0 {
      SameBehind(s, s', u, t);
    }
  }
}
