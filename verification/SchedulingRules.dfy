/**
 What the scheduler's operations do, told from the fields alone: who runs, who
 comes next, where a thread enters a list and which flags change
 (rt-thread/src/scheduler.c, rt-thread/src/thread.c).
 */
module SchedulingRules {
  import opened Base
  import opened ReadyQueues

  // --------------------------------------------------------------- who runs

  /** A thread may run on a CPU if it is ready and bound to that CPU or to none. */
  lemma EligibleIs(s: State, c: nat, u: nat)
    ensures Eligible(s, c, u) <==>
            u < |s.threads| && s.threads[u].stat == Ready && s.threads[u].bindCpu in {|s.current|, c}
  {
  }

  /** The thread that comes is the first of its list, no other one is more urgent, and the CPU's own lists come first among equals. */
  lemma WhoComes(s: State, c: nat, self: nat)
    requires Inv(s) && c < |s.current| && s.current[c] == Some(self) && self < |s.threads|
    requires Scheduled(s, c).current[c] != Some(self)
    ensures Scheduled(s, c).current[c].Some? && FirstInLine(s, c, Scheduled(s, c).current[c].value)
  {
    assert CpuOk(s, c) && ThreadOk(s, self);
    ChosenIsMostUrgent(s, c);
    DescheduledPlaced(s, self);
    ChosenHead(s, c);
  }

  ghost predicate FirstInLine(s: State, c: nat, t: nat)
    requires Shape(s) && c < |s.current|
  {
    && Eligible(s, c, t) && (forall u: nat :: Eligible(s, c, u) ==> s.threads[t].priority <= s.threads[u].priority)
    && s.threads[t].bindCpu < |s.tables| && s.threads[t].priority < PRIORITIES
    && HeadOf(s.tables[s.threads[t].bindCpu][s.threads[t].priority], t)
    && (s.threads[t].bindCpu == c || s.tables[c][s.threads[t].priority] == [])
  }

  lemma ChosenHead(s: State, c: nat)
    requires Placed(s) && c < Cpus(s) && !NothingReady(s, c)
    ensures FirstInLine(s, c, Chosen(s, c))
  {
    ChosenIsMostUrgent(s, c);
    ChosenList(s, c);
    var k, p := ChosenSet(s, c), ChosenPriority(s, c);
    assert CellOk(s, k, p) && Chosen(s, c) in s.tables[k][p];
    assert Queued(s, k, p, Chosen(s, c));
    HighestIs(s.groups[c]);
    assert CellOk(s, c, p);
  }

  ghost predicate HeadOf(q: seq<nat>, t: nat) {
    q != [] && q[0] == t
  }

  /** A thread that stays: only the yield flag goes, and only if some thread was ready. */
  lemma StayingState(s: State, c: nat, self: nat)
    requires Inv(s) && c < |s.current| && s.current[c] == Some(self) && self < |s.threads|
    requires Scheduled(s, c).current[c] == Some(self)
    ensures Scheduled(s, c).tables == s.tables && Scheduled(s, c).groups == s.groups && Scheduled(s, c).current == s.current
    ensures (exists u: nat :: Eligible(s, c, u)) ==> Scheduled(s, c).threads == s.threads[self := s.threads[self].(yielding := false)]
    ensures (forall u: nat :: !Eligible(s, c, u)) ==> Scheduled(s, c).threads == s.threads
  {
    assert CpuOk(s, c) && ThreadOk(s, self);
    if NothingReady(s, c) {
      forall u: nat ensures !Eligible(s, c, u) {
        NothingIsEligible(s, c, u);
      }
    } else {
      ChosenIsMostUrgent(s, c);
      DescheduledPlaced(s, self);
    }
  }

  /** The record of the thread that leaves a CPU, and of the one that comes. */
  ghost predicate LeftCpu(th: Thread, th': Thread) {
    && th'.onCpu == None && th'.priority == th.priority && th'.bindCpu == th.bindCpu
    && (th.stat == Running ==> th'.stat == Ready && !th'.yielding)
    && (th.stat != Running ==> th'.stat == th.stat && th'.yielding == th.yielding)
  }

  /**
   A switch: the thread that ran goes to the front of its list, or to the end if it yields; one that
   does not run any more goes to none; the one that comes leaves its list.  All else is as before.
   */
  lemma SwitchedState(s: State, c: nat, self: nat, to: nat)
    requires Inv(s) && c < |s.current| && s.current[c] == Some(self) && self < |s.threads|
    requires Scheduled(s, c).current[c] == Some(to) && to != self
    ensures Scheduled(s, c).current == s.current[c := Some(to)] && to < |s.threads| && |Scheduled(s, c).threads| == |s.threads|
    ensures LeftCpu(s.threads[self], Scheduled(s, c).threads[self])
    ensures Scheduled(s, c).threads[to] == s.threads[to].(stat := Running, onCpu := Some(c))
    ensures forall u :: 0 <= u < |s.threads| && u != self && u != to ==> Scheduled(s, c).threads[u] == s.threads[u]
    ensures |Scheduled(s, c).tables| == |s.tables|
    ensures forall k, p :: 0 <= k < |s.tables| && 0 <= p < PRIORITIES ==>
              |Scheduled(s, c).tables[k]| == PRIORITIES && |s.tables[k]| == PRIORITIES &&
              Scheduled(s, c).tables[k][p] == Without(Requeued(s, self, k, p), to)
  {
    assert CpuOk(s, c) && ThreadOk(s, self);
    ChosenIsMostUrgent(s, c);
    DescheduledPlaced(s, self);
    var s1 := Descheduled(s, self);
    assert ThreadOk(s, to) && ThreadOk(s1, to) && s1.threads[to] == s.threads[to];
    DescheduledLists(s, self, s1);
    RemovedLists(s1, to);
  }

  lemma DescheduledLists(s: State, self: nat, s1: State)
    requires Placed(s) && self < |s.threads| && Placeable(s, self) && s.threads[self].stat != Ready && s1 == Descheduled(s, self)
    ensures |s1.tables| == |s.tables|
    ensures forall k, p :: 0 <= k < |s.tables| && 0 <= p < PRIORITIES ==>
              |s1.tables[k]| == PRIORITIES && |s.tables[k]| == PRIORITIES && s1.tables[k][p] == Requeued(s, self, k, p)
    ensures LeftCpu(s.threads[self], s1.threads[self])
  {
  }

  lemma RemovedLists(s: State, t: nat)
    requires Placed(s) && t < |s.threads| && Placeable(s, t)
    ensures |Removed(s, t).tables| == |s.tables|
    ensures forall k, p :: 0 <= k < |s.tables| && 0 <= p < PRIORITIES ==>
              |Removed(s, t).tables[k]| == PRIORITIES && |s.tables[k]| == PRIORITIES &&
              Removed(s, t).tables[k][p] == Without(s.tables[k][p], t)
  {
    forall k, p | 0 <= k < |s.tables| && 0 <= p < PRIORITIES ensures Removed(s, t).tables[k][p] == Without(s.tables[k][p], t) {
      assert CellOk(s, k, p);
      NotQueued(s, t, k, p);
    }
  }

  /** The list of priority `p` of set `k` once the thread that ran is back on it. */
  ghost function Requeued(s: State, self: nat, k: nat, p: nat): seq<nat>
    requires Shape(s) && self < |s.threads| && k < |s.tables| && p < PRIORITIES
  {
    var th, q := s.threads[self], s.tables[k][p];
    if th.stat == Running && th.bindCpu == k && th.priority == p then (if th.yielding then q + [self] else [self] + q) else q
  }

  /** A thread is in no list but its own. */
  lemma NotQueued(s: State, t: nat, k: nat, p: nat)
    requires Shape(s) && k < |s.tables| && p < PRIORITIES && CellOk(s, k, p) && t < |s.threads|
    ensures s.threads[t].bindCpu != k || s.threads[t].priority != p ==> Without(s.tables[k][p], t) == s.tables[k][p]
  {
    Found(s.tables[k][p], t);
  }

  // ------------------------------------------------------------ the other rules

  /** The list of priority `p` of set `k` with `t` put in front, or at the end if it yields. */
  ghost function Joined(q: seq<nat>, t: nat, behind: bool): seq<nat> {
    if behind then q + [t] else [t] + q
  }

  /** A thread that becomes ready enters the list of its binding and priority; one still on a CPU enters none. */
  lemma InsertedRule(s: State, t: nat)
    requires Shape(s) && t < |s.threads| && Placeable(s, t)
    ensures var th := s.threads[t];
            && Inserted(s, t).threads == s.threads[t := th.(stat := if th.onCpu.Some? then Running else Ready)]
            && |Inserted(s, t).tables| == |s.tables| && Inserted(s, t).current == s.current
    ensures forall k, p :: 0 <= k < |s.tables| && 0 <= p < PRIORITIES ==>
              && |Inserted(s, t).tables[k]| == PRIORITIES && |s.tables[k]| == PRIORITIES
              && Inserted(s, t).tables[k][p] ==
                   if s.threads[t].onCpu.None? && s.threads[t].bindCpu == k && s.threads[t].priority == p
                   then Joined(s.tables[k][p], t, s.threads[t].yielding) else s.tables[k][p]
  {
  }

  /** A new priority is taken at once; a ready thread moves to the list of its new priority, the others stay in order. */
  lemma ReprioritizedRule(s: State, t: nat, p: nat)
    requires Inv(s) && t < |s.threads| && p < PRIORITIES
    ensures Placeable(s, t) && Reprioritized(s, t, p).threads == s.threads[t := s.threads[t].(priority := p)]
    ensures |Reprioritized(s, t, p).tables| == |s.tables|
    ensures forall k, r :: 0 <= k < |s.tables| && 0 <= r < PRIORITIES ==>
              && |Reprioritized(s, t, p).tables[k]| == PRIORITIES && |s.tables[k]| == PRIORITIES
              && Reprioritized(s, t, p).tables[k][r] ==
                   if s.threads[t].stat == Ready && s.threads[t].bindCpu == k && r == p
                   then Joined(Without(s.tables[k][r], t), t, s.threads[t].yielding) else Without(s.tables[k][r], t)
  {
    assert ThreadOk(s, t);
    if s.threads[t].stat == Ready {
      RemovedLists(s, t);
    } else {
      forall k, r | 0 <= k < |s.tables| && 0 <= r < PRIORITIES ensures Without(s.tables[k][r], t) == s.tables[k][r] {
        assert CellOk(s, k, r);
        Found(s.tables[k][r], t);
      }
    }
  }

  /** A closed thread leaves its list, its CPU only at the next scheduling. */
  lemma DetachedRule(s: State, t: nat)
    requires Inv(s) && t < |s.threads|
    ensures Placeable(s, t) && Detached(s, t).current == s.current && |Detached(s, t).tables| == |s.tables|
    ensures s.threads[t].stat != Closed ==> Detached(s, t).threads == s.threads[t := s.threads[t].(stat := Closed, yielding := false)]
    ensures s.threads[t].stat == Closed ==> Detached(s, t) == s
    ensures forall k, p :: 0 <= k < |s.tables| && 0 <= p < PRIORITIES ==>
              && |Detached(s, t).tables[k]| == PRIORITIES && |s.tables[k]| == PRIORITIES
              && Detached(s, t).tables[k][p] == Without(s.tables[k][p], t)
  {
    assert ThreadOk(s, t);
    RemovedLists(s, t);
    if s.threads[t].stat != Ready {
      forall k, p | 0 <= k < |s.tables| && 0 <= p < PRIORITIES ensures Without(s.tables[k][p], t) == s.tables[k][p] {
        assert CellOk(s, k, p);
        Found(s.tables[k][p], t);
      }
    }
  }

  /** The first thread of a CPU is the first in line. */
  lemma StartedRule(s: State, c: nat)
    requires Inv(s) && c < |s.current| && s.current[c].None? && !NothingReady(s, c)
    ensures Started(s, c).current[c].Some? && FirstInLine(s, c, Started(s, c).current[c].value)
    ensures var to := Started(s, c).current[c].value;
            && Started(s, c).threads == s.threads[to := s.threads[to].(stat := Running, onCpu := Some(c), yielding := false)]
            && Started(s, c).current == s.current[c := Some(to)] && |Started(s, c).tables| == |s.tables|
            && forall k, p :: 0 <= k < |s.tables| && 0 <= p < PRIORITIES ==>
                 && |Started(s, c).tables[k]| == PRIORITIES && |s.tables[k]| == PRIORITIES
                 && Started(s, c).tables[k][p] == Without(s.tables[k][p], to)
  {
    ChosenIsMostUrgent(s, c);
    ChosenHead(s, c);
    var to := Chosen(s, c);
    assert ThreadOk(s, to);
    RemovedLists(s, to);
  }

  /** Starting a thread clears its yield flag and puts it in front of its list. */
  lemma StartupRule(s: State, t: nat)
    requires Inv(s) && t < |s.threads| && s.threads[t].stat == Init
    ensures Placeable(s, t) && |MadeReady(s, t).tables| == |s.tables| && MadeReady(s, t).current == s.current
    ensures MadeReady(s, t).threads ==
            s.threads[t := s.threads[t].(stat := if s.threads[t].onCpu.Some? then Running else Ready, yielding := false)]
    ensures forall k, p :: 0 <= k < |s.tables| && 0 <= p < PRIORITIES ==>
              && |MadeReady(s, t).tables[k]| == PRIORITIES && |s.tables[k]| == PRIORITIES
              && MadeReady(s, t).tables[k][p] ==
                   if s.threads[t].onCpu.None? && s.threads[t].bindCpu == k && s.threads[t].priority == p
                   then [t] + s.tables[k][p] else s.tables[k][p]
  {
    assert ThreadOk(s, t);
  }
}
