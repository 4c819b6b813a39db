/**
 The assertion of `rt_thread_suspend` that a thread suspends only itself
 (rt-thread/src/thread.c:883).  Re-queueing a waiter whose priority changes goes
 through the same function, so the assertion fails when the waiter is not the
 thread that runs.
 */
module SuspendAssertion {
  import opened Base
  import opened PriorityInheritance
  import opened DetachSections

  /** The threads that `_thread_update_priority` suspends again, in order. */
  function Requeued(s: State, t: nat, p: nat): seq<nat>
    requires OutOfDate(s, t, p)
    decreases Slack(s, Boosts(s, t, p))
  {
    assert ThreadLinks(s, t);
    RequeueMovesHole(s, t, p);
    SlackDrops(s, t, p);
    if !Blocked(s, t) then []
    else
      var s1 := Requeue(s, t, p);
      assert WaitsFor(s1, t) == s1.mutexes[s.threads[t].pending.value].owner;
      var o := s1.mutexes[s.threads[t].pending.value].owner.value;
      var q := Deserved(s1, o);
      [t] + if q == s1.threads[o].currentPriority then [] else Requeued(s1, o, q)
  }

  /** Nobody but `self` is suspended. */
  ghost predicate OnlySelf(q: seq<nat>, self: nat) {
    forall i :: 0 <= i < |q| ==> q[i] == self
  }

  lemma RequeuedFirst(s: State, t: nat, p: nat)
    requires OutOfDate(s, t, p)
    ensures if Blocked(s, t) then Requeued(s, t, p) != [] && Requeued(s, t, p)[0] == t else Requeued(s, t, p) == []
  {
  }

  /** One step of the walk suspends `t`, and the rest what the next steps do. */
  lemma RequeuedIs(s: State, t: nat, p: nat, s1: State, o: nat)
    requires OutOfDate(s, t, p) && Blocked(s, t) && s1 == Requeue(s, t, p) && InvBut(s1, {o}) && o < |s1.threads|
    requires WaitsFor(s1, t) == Some(o)
    ensures Requeued(s, t, p) ==
            [t] + if Deserved(s1, o) == s1.threads[o].currentPriority then [] else Requeued(s1, o, Deserved(s1, o))
  {
  }

  lemma RequeuedStep(s: State, t: nat, p: nat, self: nat, s1: State, o: nat, q: nat)
    requires OutOfDate(s, t, p) && Blocked(s, t) && s1 == Requeue(s, t, p) && InvBut(s1, {o}) && o < |s1.threads|
    requires WaitsFor(s1, t) == Some(o) && q == Deserved(s1, o)
    ensures q == s1.threads[o].currentPriority ==> (OnlySelf(Requeued(s, t, p), self) <==> t == self)
    ensures q != s1.threads[o].currentPriority ==>
              (OnlySelf(Requeued(s, t, p), self) <==> t == self && OnlySelf(Requeued(s1, o, q), self))
  {
    RequeuedIs(s, t, p, s1, o);
    OnlySelfCons(t, if q == s1.threads[o].currentPriority then [] else Requeued(s1, o, q), self);
  }

  // ------------------------------------------------------------------ taking

  /** The threads that a blocking take by `t` suspends. */
  function TakeSuspends(s: State, t: nat, m: nat): seq<nat>
    requires MaySleep(s, t, m)
  {
    SleepLeavesHole(s, t, m);
    var s2, p, o := SleepAndMark(s, t, m), s.threads[t].currentPriority, s.mutexes[m].owner.value;
    [t] + if p < s.mutexes[m].priority && p < s2.threads[o].currentPriority then Requeued(s2, o, p) else []
  }

  /** The owner sleeps on a mutex itself, and is less urgent than the caller. */
  predicate TakeTrips(s: State, t: nat, m: nat)
    requires InRange(s) && t < |s.threads| && m < |s.mutexes| && s.mutexes[m].owner.Some?
  {
    var o := s.mutexes[m].owner.value;
    Blocked(s, o) && s.threads[t].currentPriority < s.threads[o].currentPriority
  }

  /** A blocking take suspends a thread other than the caller exactly if it boosts an owner that sleeps on a mutex. */
  lemma TakeAssertion(s: State, t: nat, m: nat)
    requires MaySleep(s, t, m)
    ensures OnlySelf(TakeSuspends(s, t, m), t) <==> !TakeTrips(s, t, m)
  {
    SleepLeavesHole(s, t, m);
    var s2, p, o := SleepAndMark(s, t, m), s.threads[t].currentPriority, s.mutexes[m].owner.value;
    assert o != t;
    if p < s.threads[o].currentPriority {
      RequeuedFirst(s2, o, p);
      assert TakeSuspends(s, t, m)[1..] == Requeued(s2, o, p);
      assert Blocked(s, o) ==> TakeSuspends(s, t, m)[1] == o;
    }
  }

  // ------------------------------------------------------ leaving a queue

  /** The threads that are suspended after `t` left, when the owner `o` gets what it deserves. */
  function RestoreSuspends(s: State, t: nat, o: nat): seq<nat>
    requires t < |s.threads| && o < |s.threads| && InvBut(s, {o})
  {
    var p := Deserved(s, o);
    if s.threads[o].currentPriority == s.threads[t].currentPriority && p != s.threads[o].currentPriority
    then Requeued(s, o, p) else []
  }

  /** Thread `o` owes its priority to the waiter `t` alone. */
  ghost predicate OwesTo(s: State, o: nat, t: nat)
    requires InRange(s) && o < |s.threads| && t < |s.threads|
  {
    var p := s.threads[t].currentPriority;
    && s.threads[o].currentPriority == p && p < s.threads[o].initPriority
    && forall k, w :: k in s.threads[o].taken && w in s.mutexes[k].waiters && w != t ==> p < s.threads[w].currentPriority
  }

  /** When `t` leaves, an owner at its priority deserves another one exactly if it owes the priority to `t` alone. */
  lemma LeaveDeserves(s: State, t: nat, m: nat, o: nat)
    requires Inv(s) && t < |s.threads| && Blocked(s, t) && s.threads[t].pending == Some(m)
    requires m < |s.mutexes| && s.mutexes[m].owner == Some(o) && o < |s.threads|
    requires InvBut(Leave(s, t, m), {o}) && s.threads[o].currentPriority == s.threads[t].currentPriority
    ensures Deserved(Leave(s, t, m), o) != s.threads[o].currentPriority <==> OwesTo(s, o, t)
  {
    var s1, p := Leave(s, t, m), s.threads[t].currentPriority;
    LeaveLinks(s, t, m);
    LeaveMutexes(s, t, m);
    assert ThreadOk(s, o) && ThreadLinks(s, o);
    DeservedMonotone(s1, s, o);
    if p < NO_WAITER {
      forall k | k in s.threads[o].taken
        ensures p < s1.mutexes[k].priority <==> forall w :: w in s.mutexes[k].waiters && w != t ==> p < s.threads[w].currentPriority
      {
        OthersLessUrgent(s, t, m, k, p);
      }
      DeservedAbove(s1, o, p);
    }
  }

  /** What a thread deserves is less urgent than `p` exactly if its own priority and all its mutexes are. */
  lemma DeservedAbove(s: State, o: nat, p: nat)
    requires InRange(s) && o < |s.threads|
    ensures p < Deserved(s, o) <==> p < s.threads[o].initPriority && forall k :: k in s.threads[o].taken ==> p < s.mutexes[k].priority
  {
  }

  /** The mutex `k` is less urgent than `p` after `t` left exactly if all its other waiters are. */
  lemma OthersLessUrgent(s: State, t: nat, m: nat, k: nat, p: nat)
    requires Inv(s) && t < |s.threads| && Blocked(s, t) && s.threads[t].pending == Some(m) && m < |s.mutexes| && k < |s.mutexes|
    requires Linked(Leave(s, t, m)) && MutexOk(Leave(s, t, m), k) && p < NO_WAITER
    ensures p < Leave(s, t, m).mutexes[k].priority <==>
            forall w :: w in s.mutexes[k].waiters && w != t ==> p < s.threads[w].currentPriority
  {
    var s1 := Leave(s, t, m);
    var q := s1.mutexes[k].waiters;
    assert MutexLinks(s, k) && MutexOk(s1, k);
    WithoutMembers(s.mutexes[k].waiters, t);
    assert forall w :: w in q <==> w in s.mutexes[k].waiters && w != t;
    forall w | w in q ensures s1.mutexes[k].priority <= s1.threads[w].currentPriority {
      HeadIsMin(s1.threads, q, w);
    }
    assert q != [] ==> q[0] in q;
  }

  /**
   When a waiter closes, a thread other than the caller, which runs, is suspended exactly if the
   owner sleeps on a mutex itself and owes its priority to the waiter alone.
   */
  lemma DropAssertion(s: State, t: nat, m: nat, self: nat)
    requires Inv(s) && t < |s.threads| && Blocked(s, t) && s.threads[t].pending == Some(m)
    requires self < |s.threads| && s.threads[self].stat == Running
    ensures m < |s.mutexes| && s.mutexes[m].owner.Some? && s.mutexes[m].owner.value < |s.threads|
    ensures var o := s.mutexes[m].owner.value;
            && InvBut(Leave(s, t, m), {o})
            && (OnlySelf(RestoreSuspends(Leave(s, t, m), t, o), self) <==> !(Blocked(s, o) && OwesTo(s, o, t)))
  {
    LeaveLeavesHole(s, t, m);
    var s1, o := Leave(s, t, m), s.mutexes[m].owner.value;
    if s.threads[o].currentPriority == s.threads[t].currentPriority {
      LeaveDeserves(s, t, m, o);
      var p := Deserved(s1, o);
      if p != s1.threads[o].currentPriority {
        RequeuedFirst(s1, o, p);
        assert Blocked(s1, o) ==> RestoreSuspends(s1, t, o)[0] == o;
      }
    }
  }

  /** The threads suspended by the second section of detaching `t`. */
  function CloseSuspends(s: State, t: nat): seq<nat>
    requires MayClose(s, t)
  {
    if s.threads[t].pending.None? then []
    else
      var m := s.threads[t].pending.value;
      if s.mutexes[m].owner.None? then []
      else RestoreSuspends(Leave(s, t, m), t, s.mutexes[m].owner.value)
  }

  /** Detaching `t` takes a priority away from an owner that sleeps on a mutex. */
  ghost predicate DetachTrips(s: State, t: nat)
    requires InRange(s) && t < |s.threads|
  {
    && Blocked(s, t) && s.mutexes[s.threads[t].pending.value].owner.Some?
    && var o := s.mutexes[s.threads[t].pending.value].owner.value;
       Blocked(s, o) && OwesTo(s, o, t)
  }

  lemma DetachAssertion(s: State, t: nat, self: nat)
    requires Inv(s) && t < |s.threads| && s.threads[t].stat != Closed
    requires self < |s.threads| && s.threads[self].stat == Running
    ensures MayClose(Unlinked(s, t), t)
    ensures OnlySelf(CloseSuspends(Unlinked(s, t), t), self) <==> !DetachTrips(s, t)
  {
    assert ThreadLinks(s, t);
    SectionsAreDetach(s, t);
    if Blocked(s, t) {
      var m := s.threads[t].pending.value;
      LeaveUnlinked(s, t, m);
      DropAssertion(s, t, m, self);
    }
  }

  lemma OnlySelfCons(t: nat, q: seq<nat>, self: nat)
    ensures OnlySelf([t] + q, self) <==> t == self && OnlySelf(q, self)
  {
    assert ([t] + q)[0] == t;
    assert forall i :: 0 <= i < |q| ==> ([t] + q)[i + 1] == q[i];
  }
}
