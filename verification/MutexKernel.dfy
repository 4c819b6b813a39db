/**
 The mutex operations as the kernel performs them, field by field on its thread
 and mutex tables (rt-thread/src/ipc.c, rt-thread/src/thread.c), each proved to
 make exactly the step of the PriorityInheritance model.
 */
module MutexKernel {
  import opened Base
  import opened PriorityInheritance
  import opened PriorityChains
  import opened DetachSections
  import opened SuspendAssertion

  class Kernel {
    var threads: seq<Thread>
    var mutexes: seq<Mutex>
    ghost var asserted: bool     // the assertion of `rt_thread_suspend` has held so far

    function View(): State
      reads this
    {
      State(threads, mutexes)
    }

    constructor (threads: seq<Thread>, mutexes: seq<Mutex>)
      requires Initial(State(threads, mutexes))
      ensures View() == State(threads, mutexes) && Inv(View()) && asserted
    {
      this.threads := threads;
      this.mutexes := mutexes;
      asserted := true;
      InitialInv(State(threads, mutexes));
    }

    /** `rt_thread_suspend`, called by `self`, asserts that `t` is `self`; a thread that already sleeps is left as it is. */
    method ThreadSuspend(t: nat, ghost self: nat)
      requires t < |threads|
      modifies this`threads, this`asserted
      ensures asserted == (old(asserted) && t == self)
      ensures threads == old(threads)[t := old(threads)[t].(stat :=
                if old(threads)[t].stat in {Ready, Running} then Suspended else old(threads)[t].stat)]
    {
      asserted := asserted && t == self;
      if threads[t].stat != Ready && threads[t].stat != Running {
        return;
      }
      threads := threads[t := threads[t].(stat := Suspended)];
    }

    /** `_ipc_list_suspend` with RT_IPC_FLAG_PRIO. */
    method IpcListSuspend(m: nat, t: nat, ghost self: nat)
      requires InRange(View()) && t < |threads| && m < |mutexes|
      modifies this
      ensures |threads| == |old(threads)| && asserted == (old(asserted) && t == self)
      ensures threads == old(threads)[t := old(threads)[t].(stat :=
                if old(threads)[t].stat in {Ready, Running} then Suspended else old(threads)[t].stat)]
      ensures mutexes == old(mutexes)[m := old(mutexes)[m].(waiters :=
                Enqueue(old(threads), old(mutexes)[m].waiters, t))]
    {
      ThreadSuspend(t, self);
      var q := mutexes[m].waiters;
      var n := 0;
      while n < |q| && !(threads[t].currentPriority < threads[q[n]].currentPriority)
        invariant 0 <= n <= |q|
        invariant forall j :: 0 <= j < n ==> threads[q[j]].currentPriority <= threads[t].currentPriority
      {
        n := n + 1;
      }
      mutexes := mutexes[m := mutexes[m].(waiters := q[..n] + [t] + q[n..])];
      SlotIs(old(threads), q, old(threads)[t].currentPriority, n);
    }

    /** `_mutex_update_priority`. */
    method MutexUpdatePriority(m: nat)
      requires m < |mutexes| && Below(mutexes[m].waiters, |threads|)
      modifies this`mutexes
      ensures mutexes == old(mutexes)[m := old(mutexes)[m].(priority := HeadPriority(threads, old(mutexes)[m].waiters))]
    {
      if mutexes[m].waiters != [] {
        mutexes := mutexes[m := mutexes[m].(priority := threads[mutexes[m].waiters[0]].currentPriority)];
      } else {
        mutexes := mutexes[m := mutexes[m].(priority := NO_WAITER)];
      }
    }

    /** `_thread_get_mutex_priority`: the most urgent of the thread's own priority and those of the mutexes it holds. */
    method ThreadGetMutexPriority(t: nat) returns (priority: nat)
      requires t < |threads| && Below(threads[t].taken, |mutexes|)
      ensures priority == MinTaken(mutexes, threads[t].taken, threads[t].initPriority)
      ensures priority <= threads[t].initPriority
      ensures forall m :: m in threads[t].taken ==> priority <= mutexes[m].priority
      ensures priority == threads[t].initPriority || exists m :: m in threads[t].taken && priority == mutexes[m].priority
    {
      priority := threads[t].initPriority;
      var taken := threads[t].taken;
      for i := 0 to |taken|
        invariant priority == MinTaken(mutexes, taken[..i], threads[t].initPriority)
      {
        assert taken[..i + 1][..i] == taken[..i];
        if priority > mutexes[taken[i]].priority {
          priority := mutexes[taken[i]].priority;
        }
      }
      assert taken[..|taken|] == taken;
    }

    /** `rt_thread_control` with RT_THREAD_CTRL_CHANGE_PRIORITY, as far as the thread table is concerned. */
    method ChangePriority(t: nat, priority: nat)
      requires t < |threads|
      modifies this`threads
      ensures View() == SetPriority(old(View()), t, priority)
    {
      threads := threads[t := threads[t].(currentPriority := priority)];
    }

    /** Move the waiter `t` to its place in the queue of `m`, and set the mutex's priority anew. */
    method Reinsert(t: nat, m: nat, ghost self: nat)
      requires InRange(View()) && t < |threads| && m < |mutexes| && threads[t].stat == Suspended
      modifies this
      ensures asserted == (old(asserted) && t == self)
      ensures threads == old(threads) && Below(Without(old(mutexes)[m].waiters, t), |threads|)
      ensures var q := Enqueue(threads, Without(old(mutexes)[m].waiters, t), t);
              mutexes == old(mutexes)[m := old(mutexes)[m].(waiters := q, priority := HeadPriority(threads, q))]
    {
      WithoutBelow(mutexes[m].waiters, t, |threads|);
      mutexes := mutexes[m := mutexes[m].(waiters := Without(mutexes[m].waiters, t))];
      IpcListSuspend(m, t, self);
      assert threads == old(threads);
      MutexUpdatePriority(m);
    }

    /** `_thread_update_priority`: the recursive walk up the wait chain restores the whole invariant. */
    method ThreadUpdatePriority(t: nat, priority: nat, ghost self: nat)
      requires OutOfDate(View(), t, priority)
      modifies this
      ensures View() == UpdatePriority(old(View()), t, priority)
      ensures asserted == (old(asserted) && OnlySelf(Requeued(old(View()), t, priority), self))
      ensures Inv(View()) && SameLinks(old(View()), View())
      decreases Slack(View(), Boosts(View(), t, priority))
    {
      ghost var s := View();
      RequeueMovesHole(s, t, priority);
      RequeuedFirst(s, t, priority);
      assert ThreadLinks(s, t);
      SlackDrops(s, t, priority);
      ChangePriority(t, priority);
      if threads[t].stat == Suspended && threads[t].pending.Some? {
        var m := threads[t].pending.value;
        Reinsert(t, m, self);
        assert View() == Requeue(s, t, priority);
        assert WaitsFor(View(), t) == mutexes[m].owner;
        var owner := mutexes[m].owner.value;
        var mutexPriority := ThreadGetMutexPriority(owner);
        RequeuedStep(s, t, priority, self, View(), owner, mutexPriority);
        if mutexPriority != threads[owner].currentPriority {
          ThreadUpdatePriority(owner, mutexPriority, self);
        }
      }
    }

    /** `rt_mutex_take` by the running thread `t`; `wait` is false for a zero timeout. */
    method MutexTake(m: nat, t: nat, wait: bool) returns (r: TakeResult)
      requires Inv(View()) && t < |threads| && m < |mutexes| && threads[t].stat == Running
      modifies this
      ensures (View(), r) == Take(old(View()), t, m, wait)
      ensures Inv(View())
      ensures asserted == (old(asserted) && !(r.Sleeping? && TakeTrips(old(View()), t, m)))
    {
      ghost var s := View();
      if mutexes[m].owner == Some(t) {
        if mutexes[m].hold < HOLD_MAX {
          mutexes := mutexes[m := mutexes[m].(hold := mutexes[m].hold + 1)];
          r := Taken;
        } else {
          r := Full;
        }
      } else if mutexes[m].owner.None? {
        mutexes := mutexes[m := mutexes[m].(owner := Some(t), priority := NO_WAITER, hold := 1)];
        threads := threads[t := threads[t].(taken := [m] + threads[t].taken)];
        r := Taken;
      } else if !wait {
        r := Timeout;
      } else {
        SleepLeavesHole(s, t, m);
        TakeAssertion(s, t, m);
        var priority := threads[t].currentPriority;
        IpcListSuspend(m, t, t);
        threads := threads[t := threads[t].(pending := Some(m))];
        assert View() == Sleep(s, t, m);
        if priority < mutexes[m].priority {
          mutexes := mutexes[m := mutexes[m].(priority := priority)];
          assert View() == SleepAndMark(s, t, m);
          var owner := mutexes[m].owner.value;
          if mutexes[m].priority < threads[owner].currentPriority {
            OnlySelfCons(t, Requeued(View(), owner, priority), t);
            ThreadUpdatePriority(owner, priority, t);
          }
        }
        r := Sleeping;
      }
    }

    /** The first half of a final release: `m` leaves `t`'s taken list and `t` loses what it inherited through `m`. */
    method LeaveTakenList(m: nat, t: nat, ghost s: State)
      requires GivesBack(s, t, m) && View() == s.WithMutex(m, s.mutexes[m].(hold := 0))
      modifies this`threads
      ensures threads == s.threads[t := GiveUp(s, t, m)]
    {
      WithoutBelow(threads[t].taken, m, |mutexes|);
      threads := threads[t := threads[t].(taken := Without(threads[t].taken, m))];
      if threads[t].currentPriority == mutexes[m].priority {
        var priority := ThreadGetMutexPriority(t);
        MinTakenSame(s.mutexes, mutexes, threads[t].taken, threads[t].initPriority);
        ChangePriority(t, priority);
      }
    }

    /** The second half: `m` goes to its first waiter, which wakes up, or becomes free. */
    method PassOn(m: nat, t: nat, ghost s: State)
      requires GivesBack(s, t, m) && View() == s.WithMutex(m, s.mutexes[m].(hold := 0)).WithThread(t, GiveUp(s, t, m))
      modifies this`threads, this`mutexes
      ensures s.mutexes[m].waiters == [] ==> View() == Free(s, t, GiveUp(s, t, m), m)
      ensures s.mutexes[m].waiters != [] ==> View() == HandOff(s, t, GiveUp(s, t, m), m, s.mutexes[m].waiters[0])
    {
      if mutexes[m].waiters != [] {
        ghost var th := threads[t];
        var next := mutexes[m].waiters[0];
        mutexes := mutexes[m := mutexes[m].(waiters := mutexes[m].waiters[1..], owner := Some(next), hold := 1)];
        threads := threads[next := threads[next].(taken := [m] + threads[next].taken, pending := None, stat := Ready)];
        HandOffHead(s, t, th, m, next);
        MutexUpdatePriority(m);
      } else {
        mutexes := mutexes[m := mutexes[m].(owner := None, priority := NO_WAITER)];
      }
    }

    /**
     `rt_mutex_release` by the running thread `t`.  It changes the tables as it does in a sound state also
     while another thread is being detached.
     */
    method MutexRelease(m: nat, t: nat) returns (ok: bool)
      requires InRange(View()) && t < |threads| && m < |mutexes| && threads[t].stat == Running
      requires Inv(View()) || (mutexes[m].owner == Some(t) ==> GivesBack(View(), t, m))
      modifies this
      ensures ok <==> old(mutexes)[m].owner == Some(t)
      ensures View() == if ok then Released(old(View()), t, m) else old(View())
      ensures old(Inv(View())) ==> (View(), ok) == Release(old(View()), t, m) && Inv(View())
      ensures asserted == old(asserted)
    {
      ghost var s := View();
      if mutexes[m].owner != Some(t) {
        return false;
      }
      if Inv(s) {
        assert MutexLinks(s, m);
        ReleasedIs(s, t, m);
      }
      mutexes := mutexes[m := mutexes[m].(hold := mutexes[m].hold - 1)];
      if mutexes[m].hold == 0 {
        LeaveTakenList(m, t, s);
        PassOn(m, t, s);
      }
      ok := true;
    }

    /** `rt_mutex_drop_thread` for the closing thread `t`; `s` is the state before its status changed. */
    method MutexDropThread(m: nat, t: nat, ghost self: nat, ghost s: State)
      requires MayClose(s, t) && s.threads[t].pending == Some(m) && s.mutexes[m].owner.Some?
      requires View() == s.WithThread(t, s.threads[t].(stat := Closed))
      modifies this
      ensures View() == Restored(Leave(s, t, m), t, s.mutexes[m].owner.value)
      ensures asserted == (old(asserted) && OnlySelf(RestoreSuspends(Leave(s, t, m), t, s.mutexes[m].owner.value), self))
    {
      WithoutBelow(mutexes[m].waiters, t, |threads|);
      mutexes := mutexes[m := mutexes[m].(waiters := Without(mutexes[m].waiters, t))];
      var owner := mutexes[m].owner.value;
      var needUpdate := threads[owner].currentPriority == threads[t].currentPriority;
      MutexUpdatePriority(m);
      assert View() == Leave(s, t, m);
      if needUpdate {
        var priority := ThreadGetMutexPriority(owner);
        if priority != threads[owner].currentPriority {
          ThreadUpdatePriority(owner, priority, self);
        }
      }
    }

    /** `rt_schedule_remove_thread` for a thread that is not ready: it leaves the list it is linked into. */
    method RemoveThread(t: nat)
      requires InRange(View()) && t < |threads|
      modifies this`mutexes
      ensures View() == Unlinked(old(View()), t)
    {
      if threads[t].stat == Suspended && threads[t].pending.Some? {
        var m := threads[t].pending.value;
        mutexes := mutexes[m := mutexes[m].(waiters := Without(mutexes[m].waiters, t))];
      }
    }

    /** The second lock section of `rt_thread_detach`; `ok` is false if it reads the owner of a mutex without one. */
    method CloseThread(t: nat, ghost self: nat) returns (ok: bool)
      requires MayClose(View(), t)
      modifies this
      ensures ok <==> Close(old(View()), t).Some?
      ensures ok ==> Close(old(View()), t) == Some(View())
      ensures ok ==> asserted == (old(asserted) && OnlySelf(CloseSuspends(old(View()), t), self))
    {
      ghost var s := View();
      threads := threads[t := threads[t].(stat := Closed)];
      if threads[t].pending.Some? {
        var m := threads[t].pending.value;
        if mutexes[m].owner.None? {
          return false;
        }
        MutexDropThread(m, t, self, s);
        threads := threads[t := threads[t].(pending := None)];
      }
      ok := true;
    }

    /** `rt_thread_detach` by the running thread `self`, the part that concerns mutexes, with nothing between its two sections. */
    method ThreadDetach(t: nat, ghost self: nat)
      requires Inv(View()) && t < |threads| && self < |threads| && threads[self].stat == Running
      modifies this
      ensures View() == Detach(old(View()), t)
      ensures Inv(View())
      ensures asserted == (old(asserted) && !DetachTrips(old(View()), t))
    {
      ghost var s := View();
      if threads[t].stat == Closed {
        return;
      }
      assert ThreadLinks(s, t);
      SectionsAreDetach(s, t);
      DetachAssertion(s, t, self);
      RemoveThread(t);
      var ok := CloseThread(t, self);
    }
  }

  /** The slot is the only position with these two properties. */
  lemma SlotIs(ts: seq<Thread>, q: seq<nat>, p: nat, n: nat)
    requires Below(q, |ts|) && n <= |q|
    requires forall j :: 0 <= j < n ==> ts[q[j]].currentPriority <= p
    requires n < |q| ==> p < ts[q[n]].currentPriority
    ensures Slot(ts, q, p) == n
  {
  }

  /** `t` has a hold on `m` to give back, and does not wait for it. */
  ghost predicate GivesBack(s: State, t: nat, m: nat) {
    InRange(s) && t < |s.threads| && m < |s.mutexes| && s.mutexes[m].hold > 0 && t !in s.mutexes[m].waiters
  }

  /** Waking the next owner changes no priority, so the new head is the same. */
  lemma HandOffHead(s: State, t: nat, th: Thread, m: nat, n: nat)
    requires GivesBack(s, t, m) && s.mutexes[m].waiters != [] && n == s.mutexes[m].waiters[0]
    ensures var rest := s.mutexes[m].waiters[1..];
            && Below(rest, |s.threads|)
            && HeadPriority(s.threads[t := th][n := WokenOwner(s.threads[n], m)], rest) == HeadPriority(s.threads, rest)
  {
    var q := s.mutexes[m].waiters;
    if |q| > 1 {
      assert q[1] in q && q[1] != t;
    }
  }
}
