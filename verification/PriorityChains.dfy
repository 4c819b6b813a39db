/**
 What the priority-inheritance invariant means along whole wait chains and over
 whole runs: the priority a thread runs at is the most urgent own priority among
 all threads blocked, directly or through others, behind it.
 */
module PriorityChains {
  import opened Base
  import opened PriorityInheritance

  // ------------------------------------------------------------------ runs

  datatype Op =
    | DoTake(t: nat, m: nat, wait: bool)
    | DoRelease(t: nat, m: nat)
    | DoDetach(t: nat)
    | Dispatch(t: nat, stat: Stat)  // scheduling, or sleeping on something else than a mutex

  /** Take and release act for a running thread; the rest of the kernel moves threads that wait for no mutex. */
  predicate Enabled(s: State, op: Op) {
    && op.t < |s.threads|
    && match op
       case DoTake(t, m, _) => m < |s.mutexes| && s.threads[t].stat == Running
       case DoRelease(t, m) => m < |s.mutexes| && s.threads[t].stat == Running
       case DoDetach(_) => true
       case Dispatch(t, stat) => stat != Closed && s.threads[t].stat != Closed && s.threads[t].pending.None?
  }

  function Step(s: State, op: Op): (s': State)
    requires Inv(s)
    ensures Inv(s')
  {
    if !Enabled(s, op) then s
    else match op
      case DoTake(t, m, wait) => Take(s, t, m, wait).0
      case DoRelease(t, m) => Release(s, t, m).0
      case DoDetach(t) => Detach(s, t)
      case Dispatch(t, stat) =>
        CloseKeeps(s, t, s.threads[t].(stat := stat));
        s.WithThread(t, s.threads[t].(stat := stat))
  }

  function Run(s: State, ops: seq<Op>): (s': State)
    requires Inv(s)
    ensures Inv(s')
    decreases |ops|
  {
    if ops == [] then s else Run(Step(s, ops[0]), ops[1..])
  }

  /** Nothing is held and every thread runs at its own priority. */
  ghost predicate Initial(s: State) {
    && (forall t :: 0 <= t < |s.threads| ==>
          var th := s.threads[t];
          th.initPriority <= NO_WAITER && th.currentPriority == th.initPriority && th.taken == [] && th.pending.None?)
    && (forall m :: 0 <= m < |s.mutexes| ==> s.mutexes[m] == Mutex(None, 0, NO_WAITER, []))
  }

  lemma InitialInv(s: State)
    requires Initial(s)
    ensures Inv(s)
  {
    assert InRange(s);
    forall m | 0 <= m < |s.mutexes| ensures MutexLinks(s, m) && MutexOk(s, m) {
    }
    forall t | 0 <= t < |s.threads| ensures ThreadLinks(s, t) && ThreadOk(s, t) {
    }
  }

  // ---------------------------------------------------------------- chains

  /** `u` reaches `t` along exactly `n` wait-for edges. */
  ghost predicate Reaches(s: State, u: nat, t: nat, n: nat)
    requires InRange(s)
    decreases n
  {
    && u < |s.threads|
    && if n == 0 then u == t else WaitsFor(s, u).Some? && Reaches(s, WaitsFor(s, u).value, t, n - 1)
  }

  /** `u` is blocked behind `t`, directly or through other threads (or is `t`). */
  ghost predicate Behind(s: State, u: nat, t: nat)
    requires InRange(s)
  {
    exists n: nat :: Reaches(s, u, t, n)
  }

  /** No thread on a wait chain is less urgent than one blocked behind it. */
  lemma {:induction false} ChainUrgency(s: State, u: nat, t: nat, n: nat)
    requires Inv(s) && Reaches(s, u, t, n)
    ensures t < |s.threads|
    ensures s.threads[t].currentPriority <= s.threads[u].currentPriority <= s.threads[u].initPriority
    decreases n
  {
    assert ThreadOk(s, u) && ThreadLinks(s, u);
    if n > 0 {
      var m, o := s.threads[u].pending.value, WaitsFor(s, u).value;
      assert MutexLinks(s, m) && MutexOk(s, m) && ThreadOk(s, o);
      HeadIsMin(s.threads, s.mutexes[m].waiters, u);
      ChainUrgency(s, o, t, n - 1);
    }
  }

  /** `p` is the most urgent own priority among the threads blocked, directly or not, behind `t`, and `t` itself. */
  ghost predicate IsEffective(s: State, t: nat, p: nat)
    requires InRange(s)
  {
    && (forall u :: 0 <= u < |s.threads| && Behind(s, u, t) ==> p <= s.threads[u].initPriority)
    && (exists u :: 0 <= u < |s.threads| && Behind(s, u, t) && p == s.threads[u].initPriority)
  }

  ghost predicate Ranked(s: State, rank: seq<nat>)
    requires InRange(s)
  {
    && |rank| == |s.threads|
    && forall u :: 0 <= u < |s.threads| && WaitsFor(s, u).Some? ==> rank[u] < rank[WaitsFor(s, u).value]
  }

  /** No deadlock: the wait-for graph has no cycle. */
  ghost predicate Acyclic(s: State)
    requires InRange(s)
  {
    exists rank :: Ranked(s, rank)
  }

  lemma {:induction false} ReachesExtend(s: State, u: nat, v: nat, t: nat, n: nat)
    requires InRange(s) && Reaches(s, u, v, n) && v < |s.threads| && WaitsFor(s, v) == Some(t) && t < |s.threads|
    ensures Reaches(s, u, t, n + 1)
    decreases n
  {
    if n > 0 {
      ReachesExtend(s, WaitsFor(s, u).value, v, t, n - 1);
    } else {
      assert Reaches(s, t, t, 0);
    }
  }

  /** Thread `t` is part of a deadlock: it waits, through others, for itself. */
  ghost predicate OnCycle(s: State, t: nat)
    requires InRange(s)
  {
    exists n: nat :: n > 0 && Reaches(s, t, t, n)
  }

  /** A wait chain that has met a cycle never leaves it, as a thread waits for one other at most. */
  lemma {:induction false} CycleAbsorbs(s: State, v: nat, n: nat, t: nat, k: nat)
    requires InRange(s) && n > 0 && Reaches(s, v, v, n) && Reaches(s, v, t, k)
    ensures OnCycle(s, t)
    decreases k
  {
    if k > 0 {
      var w := WaitsFor(s, v).value;
      ReachesExtend(s, w, v, w, n - 1);
      CycleAbsorbs(s, w, n, t, k - 1);
    }
  }

  /** Whoever has a cycle behind it is on that cycle. */
  lemma CycleBehind(s: State, v: nat, t: nat)
    requires InRange(s) && OnCycle(s, v) && Behind(s, v, t)
    ensures OnCycle(s, t)
  {
    var n: nat :| n > 0 && Reaches(s, v, v, n);
    var k: nat :| Reaches(s, v, t, k);
    CycleAbsorbs(s, v, n, t, k);
  }

  /** `t` reaches every thread of `path`. */
  ghost predicate ReachesAll(s: State, t: nat, path: seq<nat>)
    requires InRange(s)
  {
    forall i :: 0 <= i < |path| ==> Behind(s, t, path[i])
  }

  /** A thread that waits for `t`, not on a cycle, is none of those that `t` reaches. */
  lemma OneStepBack(s: State, h: nat, t: nat, path: seq<nat>)
    requires InRange(s) && h < |s.threads| && t < |s.threads| && WaitsFor(s, h) == Some(t)
    requires !OnCycle(s, t) && ReachesAll(s, t, path)
    ensures !OnCycle(s, h) && h != t && h !in path && ReachesAll(s, h, [t] + path)
  {
    assert Reaches(s, t, t, 0) && Reaches(s, h, t, 1);
    assert Behind(s, h, t);
    if OnCycle(s, h) {
      CycleBehind(s, h, t);
    }
    if h in path {
      var i :| 0 <= i < |path| && path[i] == h;
      var k: nat :| Reaches(s, t, path[i], k);
      ReachesExtend(s, t, h, t, k);
    }
    forall i | 0 <= i < |path| + 1 ensures Behind(s, h, ([t] + path)[i]) {
      if i > 0 {
        var k: nat :| Reaches(s, t, path[i - 1], k);
        assert Reaches(s, h, path[i - 1], k + 1);
      }
    }
  }

  /** Somebody behind `t`, which is not on a cycle, has exactly the priority `t` runs at. */
  lemma {:induction false} Inherited(s: State, t: nat, path: seq<nat>) returns (u: nat, n: nat)
    requires Inv(s) && t < |s.threads| && !OnCycle(s, t)
    requires NoDup(path) && Below(path, |s.threads|) && t !in path && ReachesAll(s, t, path)
    ensures Reaches(s, u, t, n) && s.threads[u].initPriority == s.threads[t].currentPriority
    decreases |s.threads| - |path|
  {
    assert ThreadOk(s, t) && ThreadLinks(s, t);
    if s.threads[t].currentPriority == s.threads[t].initPriority {
      u, n := t, 0;
    } else {
      var m :| m in s.threads[t].taken && s.threads[t].currentPriority == s.mutexes[m].priority;
      assert MutexOk(s, m) && MutexLinks(s, m);
      assert s.mutexes[m].waiters != [];
      var h := s.mutexes[m].waiters[0];
      assert h in s.mutexes[m].waiters && WaitsFor(s, h) == Some(t);
      ConsNoDup(t, path);
      PigeonHole([t] + path, |s.threads|);
      OneStepBack(s, h, t, path);
      u, n := Inherited(s, h, [t] + path);
      ReachesExtend(s, u, h, t, n);
      n := n + 1;
    }
  }

  /**
   A thread that is not on a wait-for cycle runs at its effective priority, whatever deadlocks there
   are elsewhere; one that holds nothing runs at its own.
   */
  lemma RunsAtEffectivePriority(s: State, t: nat)
    requires Inv(s) && t < |s.threads| && !OnCycle(s, t)
    ensures IsEffective(s, t, s.threads[t].currentPriority)
    ensures s.threads[t].taken == [] ==> s.threads[t].currentPriority == s.threads[t].initPriority
  {
    assert ThreadOk(s, t);
    var w, k := Inherited(s, t, []);
    assert Behind(s, w, t);
    forall u | 0 <= u < |s.threads| && Behind(s, u, t)
      ensures s.threads[t].currentPriority <= s.threads[u].initPriority
    {
      var n: nat :| Reaches(s, u, t, n);
      ChainUrgency(s, u, t, n);
    }
  }

  /** The threads blocked behind `t`, and `t`. */
  ghost function AllBehind(s: State, t: nat): set<nat>
    requires InRange(s)
  {
    set u: nat | u < |s.threads| && Behind(s, u, t)
  }

  lemma SmallerSet(a: set<nat>, b: set<nat>, x: nat)
    requires a <= b && x in b && x !in a
    ensures |a| < |b|
  {
    assert b == a + (b - a) && x in b - a;
  }

  /** The graph is acyclic exactly if no thread is on a cycle. */
  lemma AcyclicIs(s: State)
    requires InRange(s)
    ensures Acyclic(s) <==> forall t: nat :: t < |s.threads| ==> !OnCycle(s, t)
  {
    if Acyclic(s) {
      var rank :| Ranked(s, rank);
      forall t: nat | t < |s.threads| && OnCycle(s, t) ensures false {
        var n: nat :| n > 0 && Reaches(s, t, t, n);
        RankGrows(s, rank, t, t, n);
      }
    } else if forall t: nat :: t < |s.threads| ==> !OnCycle(s, t) {
      var rank := seq(|s.threads|, x requires 0 <= x < |s.threads| => |AllBehind(s, x)|);
      forall u | 0 <= u < |s.threads| && WaitsFor(s, u).Some? ensures rank[u] < rank[WaitsFor(s, u).value] {
        MoreBehind(s, u, WaitsFor(s, u).value);
      }
      assert Ranked(s, rank);
    }
  }

  lemma MoreBehind(s: State, u: nat, v: nat)
    requires InRange(s) && u < |s.threads| && v < |s.threads| && WaitsFor(s, u) == Some(v) && !OnCycle(s, v)
    ensures |AllBehind(s, u)| < |AllBehind(s, v)|
  {
    assert Reaches(s, v, v, 0);
    forall x | x in AllBehind(s, u) ensures x in AllBehind(s, v) {
      var n: nat :| Reaches(s, x, u, n);
      ReachesExtend(s, x, u, v, n);
    }
    if Behind(s, v, u) {
      var n: nat :| Reaches(s, v, u, n);
      ReachesExtend(s, v, u, v, n);
    }
    SmallerSet(AllBehind(s, u), AllBehind(s, v), v);
  }

  // --------------------------------------------------------------- deadlock

  ghost predicate SameEdges(s: State, s': State)
    requires InRange(s) && InRange(s')
  {
    |s'.threads| == |s.threads| && forall u :: 0 <= u < |s.threads| ==> WaitsFor(s', u) == WaitsFor(s, u)
  }

  lemma SameLinksSameEdges(s: State, s': State)
    requires Linked(s) && Linked(s') && SameLinks(s, s')
    ensures SameEdges(s, s')
  {
  }

  /** `s'` has the edges of `s` but for `t`, which waits for `o` now. */
  ghost predicate EdgeAdded(s: State, s': State, t: nat, o: nat)
    requires InRange(s) && InRange(s')
  {
    && |s'.threads| == |s.threads| && t < |s.threads| && o < |s.threads|
    && WaitsFor(s, t).None? && WaitsFor(s', t) == Some(o)
    && forall u :: 0 <= u < |s.threads| && u != t ==> WaitsFor(s', u) == WaitsFor(s, u)
  }

  lemma {:induction false} RankGrows(s: State, rank: seq<nat>, u: nat, t: nat, n: nat)
    requires InRange(s) && Ranked(s, rank) && Reaches(s, u, t, n)
    ensures t < |s.threads| && rank[u] + n <= rank[t]
    decreases n
  {
    if n > 0 {
      RankGrows(s, rank, WaitsFor(s, u).value, t, n - 1);
    }
  }

  lemma {:induction false} ReachesSurvives(s: State, s': State, t: nat, o: nat, u: nat, n: nat)
    requires InRange(s) && InRange(s') && EdgeAdded(s, s', t, o) && Reaches(s, u, t, n)
    ensures Reaches(s', u, t, n)
    decreases n
  {
    if n > 0 {
      ReachesSurvives(s, s', t, o, WaitsFor(s, u).value, n - 1);
    }
  }

  /** A new wait keeps the graph acyclic exactly when the holder does not already wait for the newcomer. */
  lemma EdgeAddedAcyclic(s: State, s': State, t: nat, o: nat)
    requires InRange(s) && InRange(s') && EdgeAdded(s, s', t, o) && Acyclic(s)
    ensures Acyclic(s') <==> !Behind(s, o, t)
  {
    if Behind(s, o, t) {
      var n: nat :| Reaches(s, o, t, n);
      ReachesSurvives(s, s', t, o, o, n);
      assert Reaches(s', t, t, n + 1);
      forall rank | Ranked(s', rank) ensures false {
        RankGrows(s', rank, t, t, n + 1);
      }
    } else {
      var rank :| Ranked(s, rank);
      // everything downstream of the holder is lifted above the newcomer
      var lifted := seq(|rank|, x requires 0 <= x < |rank| =>
        if Behind(s, o, x) then rank[x] + rank[t] + 1 else rank[x]);
      forall u | 0 <= u < |s.threads| && WaitsFor(s', u).Some? ensures lifted[u] < lifted[WaitsFor(s', u).value] {
        var v := WaitsFor(s', u).value;
        if u == t {
          assert Reaches(s, o, o, 0);
        } else if Behind(s, o, u) {
          var n: nat :| Reaches(s, o, u, n);
          ReachesExtend(s, o, u, v, n);
        }
      }
      assert Ranked(s', lifted);
    }
  }

  /** Edges may only vanish. */
  ghost predicate EdgesRemoved(s: State, s': State)
    requires InRange(s) && InRange(s')
  {
    && |s'.threads| == |s.threads|
    && forall u :: 0 <= u < |s.threads| && WaitsFor(s', u).Some? ==> WaitsFor(s', u) == WaitsFor(s, u)
  }

  lemma EdgesRemovedAcyclic(s: State, s': State)
    requires InRange(s) && InRange(s') && EdgesRemoved(s, s') && Acyclic(s)
    ensures Acyclic(s')
  {
    var rank :| Ranked(s, rank);
    assert Ranked(s', rank);
  }

  lemma HandOffAcyclic(s: State, t: nat, th: Thread, m: nat, n: nat)
    requires MayHandOff(s, t, th, m, n) && Inv(HandOff(s, t, th, m, n)) && Acyclic(s)
    ensures Acyclic(HandOff(s, t, th, m, n))
  {
    var s' := HandOff(s, t, th, m, n);
    var rank :| Ranked(s, rank);
    var rank' := rank[n := rank[t]];
    assert WaitsFor(s, n) == Some(t);
    forall u | 0 <= u < |s.threads| && WaitsFor(s', u).Some? ensures rank'[u] < rank'[WaitsFor(s', u).value] {
      assert ThreadLinks(s, u) && WaitsFor(s, u).Some?;
    }
    assert Ranked(s', rank');
  }

  /** `op` is a blocking take of a mutex whose holder is already blocked behind the taker. */
  ghost predicate Deadlocks(s: State, op: Op)
    requires InRange(s)
  {
    && op.DoTake? && Enabled(s, op) && op.wait
    && s.mutexes[op.m].owner.Some? && s.mutexes[op.m].owner.value != op.t
    && Behind(s, s.mutexes[op.m].owner.value, op.t)
  }

  /** Falling asleep adds one edge; nobody else waits for anything else. */
  lemma AsleepEdge(s: State, t: nat, m: nat, s2: State)
    requires MaySleep(s, t, m) && s2 == SleepAndMark(s, t, m) && InRange(s2)
    ensures s.mutexes[m].owner.value < |s.threads| && EdgeAdded(s, s2, t, s.mutexes[m].owner.value)
  {
    assert MutexLinks(s, m);
  }

  lemma EdgeAddedSame(s: State, s2: State, s': State, t: nat, o: nat)
    requires InRange(s) && InRange(s2) && InRange(s') && EdgeAdded(s, s2, t, o) && SameEdges(s2, s')
    ensures EdgeAdded(s, s', t, o)
  {
  }

  /** A take that has to wait ends with the owner's priority update, or without. */
  lemma TakeThenUpdate(s: State, t: nat, m: nat, s2: State)
    requires MaySleep(s, t, m) && s2 == SleepAndMark(s, t, m)
    ensures Linked(s2) && SameLinks(s2, Take(s, t, m, true).0)
  {
    SleepLeavesHole(s, t, m);
  }

  lemma SleepAddsEdge(s: State, t: nat, m: nat)
    requires MaySleep(s, t, m)
    ensures EdgeAdded(s, Take(s, t, m, true).0, t, s.mutexes[m].owner.value)
  {
    var s2, s' := SleepAndMark(s, t, m), Take(s, t, m, true).0;
    TakeThenUpdate(s, t, m, s2);
    AsleepEdge(s, t, m, s2);
    SameLinksSameEdges(s2, s');
    EdgeAddedSame(s, s2, s', t, s.mutexes[m].owner.value);
  }

  lemma NoSleepSameEdges(s: State, t: nat, m: nat, wait: bool)
    requires Inv(s) && Enabled(s, DoTake(t, m, wait)) && !(wait && MaySleep(s, t, m))
    ensures SameEdges(s, Take(s, t, m, wait).0)
  {
    assert MutexLinks(s, m);
    forall u | 0 <= u < |s.threads| ensures WaitsFor(Take(s, t, m, wait).0, u) == WaitsFor(s, u) {
      assert ThreadLinks(s, u);
    }
  }

  lemma TakeAcyclic(s: State, t: nat, m: nat, wait: bool)
    requires Inv(s) && Acyclic(s) && Enabled(s, DoTake(t, m, wait))
    ensures Acyclic(Take(s, t, m, wait).0) <==> !Deadlocks(s, DoTake(t, m, wait))
  {
    var s' := Take(s, t, m, wait).0;
    if wait && MaySleep(s, t, m) {
      SleepAddsEdge(s, t, m);
      EdgeAddedAcyclic(s, s', t, s.mutexes[m].owner.value);
    } else {
      NoSleepSameEdges(s, t, m, wait);
      EdgesRemovedAcyclic(s, s');
    }
  }

  lemma ReleaseAcyclic(s: State, t: nat, m: nat)
    requires Inv(s) && Acyclic(s) && Enabled(s, DoRelease(t, m))
    ensures Acyclic(Release(s, t, m).0)
  {
    var s' := Release(s, t, m).0;
    assert MutexLinks(s, m);
    if s.mutexes[m].owner == Some(t) && s.mutexes[m].hold == 1 && s.mutexes[m].waiters != [] {
      var th := GiveUp(s, t, m);
      GiveUpDeserves(s, t, m);
      NextInLine(s, t, th, m);
      HandOffAcyclic(s, t, th, m, s.mutexes[m].waiters[0]);
    } else {
      forall u | 0 <= u < |s.threads| ensures WaitsFor(s', u) == WaitsFor(s, u) {
        assert ThreadLinks(s, u);
      }
      EdgesRemovedAcyclic(s, s');
    }
  }

  lemma LeaveRemovesEdge(s: State, t: nat, m: nat)
    requires Inv(s) && t < |s.threads| && Blocked(s, t) && s.threads[t].pending == Some(m)
    ensures EdgesRemoved(s, Drop(s, t, m))
  {
    LeaveLinks(s, t, m);
    SameLinksSameEdges(Leave(s, t, m), Drop(s, t, m));
    assert EdgesRemoved(s, Leave(s, t, m));
  }

  lemma DetachAcyclic(s: State, t: nat)
    requires Inv(s) && Acyclic(s) && t < |s.threads|
    ensures Acyclic(Detach(s, t))
  {
    if s.threads[t].stat != Closed && Blocked(s, t) {
      LeaveRemovesEdge(s, t, s.threads[t].pending.value);
    }
    EdgesRemovedAcyclic(s, Detach(s, t));
  }

  /** A step creates a deadlock exactly when it is a blocking take that closes a cycle. */
  lemma StepAcyclic(s: State, op: Op)
    requires Inv(s) && Acyclic(s)
    ensures Acyclic(Step(s, op)) <==> !Deadlocks(s, op)
  {
    if Enabled(s, op) {
      match op
      case DoTake(t, m, wait) => TakeAcyclic(s, t, m, wait);
      case DoRelease(t, m) => ReleaseAcyclic(s, t, m);
      case DoDetach(t) => DetachAcyclic(s, t);
      case Dispatch(t, stat) => EdgesRemovedAcyclic(s, Step(s, op));
    }
  }

  /** No step of the run closes a wait-for cycle. */
  ghost predicate DeadlockFree(s: State, ops: seq<Op>)
    requires Inv(s)
    decreases |ops|
  {
    ops == [] || (!Deadlocks(s, ops[0]) && DeadlockFree(Step(s, ops[0]), ops[1..]))
  }

  /** A run without such a step reaches no deadlock. */
  lemma {:induction false} RunAcyclic(s: State, ops: seq<Op>)
    requires Inv(s) && Acyclic(s) && DeadlockFree(s, ops)
    ensures Acyclic(Run(s, ops))
    decreases |ops|
  {
    if ops != [] {
      StepAcyclic(s, ops[0]);
      RunAcyclic(Step(s, ops[0]), ops[1..]);
    }
  }

  /**
   After any run, every thread that is not itself in a deadlock runs at its effective priority; after
   a deadlock-free one, every thread does.
   */
  lemma RunEffective(s: State, ops: seq<Op>, t: nat)
    requires Inv(s) && t < |Run(s, ops).threads|
    ensures var s' := Run(s, ops);
            !OnCycle(s', t) || (Acyclic(s) && DeadlockFree(s, ops)) ==>
              && IsEffective(s', t, s'.threads[t].currentPriority)
              && (s'.threads[t].taken == [] ==> s'.threads[t].currentPriority == s'.threads[t].initPriority)
  {
    var s' := Run(s, ops);
    if Acyclic(s) && DeadlockFree(s, ops) {
      RunAcyclic(s, ops);
      AcyclicIs(s');
    }
    if !OnCycle(s', t) {
      RunsAtEffectivePriority(s', t);
    }
  }
}
