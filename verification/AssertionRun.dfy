/** Short runs in which the assertion of `rt_thread_suspend` fails, and in which closing a thread finds a mutex without owner. */
module AssertionRun {
  import opened Base
  import opened PriorityInheritance
  import opened PriorityChains
  import opened DetachSections
  import opened SuspendAssertion
  import opened MutexKernel
  import opened DeadlockRun

  /** Threads 0 and 1 each take a mutex, and thread 0 waits for the other's. */
  method TwoHolders() returns (k: Kernel)
    ensures fresh(k) && k.View() == After3() && Inv(After3()) && k.asserted
  {
    FirstTakes();
    k := new Kernel(Start().threads, Start().mutexes);
    var r := k.MutexTake(0, 0, true);
    r := k.MutexTake(1, 1, true);
    r := k.MutexTake(1, 0, true);
  }

  lemma FirstTakes()
    ensures Initial(Start()) && Inv(Start())
    ensures Take(Start(), 0, 0, true) == (After1(), Taken) && Inv(After1())
    ensures Take(After1(), 1, 1, true) == (After2(), Taken) && Inv(After2())
    ensures Take(After2(), 0, 1, true) == (After3(), Sleeping) && Inv(After3()) && !TakeTrips(After2(), 0, 1)
  {
    StartInitial();
    Step1();
    Step2();
    Step3();
  }

  /** Then the more urgent thread 2 waits for thread 0's mutex, and the kernel suspends thread 0 again on behalf of thread 2. */
  method NestedWaitTrips() returns (k: Kernel, ghost before: bool)
    ensures fresh(k) && Inv(k.View()) && before && !k.asserted
  {
    k := TwoHolders();
    before := k.asserted;
    MoreUrgent();
    var r := k.MutexTake(0, 2, true);
  }

  lemma MoreUrgent()
    requires Inv(After3())
    ensures TakeTrips(After3(), 2, 0) && Take(After3(), 2, 0, true).1 == Sleeping
  {
    TakeSleeps(After3(), 2, 0);
  }

  lemma TakeSleeps(s: State, t: nat, m: nat)
    requires Inv(s) && t < |s.threads| && m < |s.mutexes| && s.threads[t].stat == Running
    requires s.mutexes[m].owner.Some? && s.mutexes[m].owner != Some(t)
    ensures Take(s, t, m, true).1 == Sleeping
  {
  }

  /**
   Or thread 0 is detached.  Between the two lock sections thread 1 releases the mutex: the second section reads
   the owner of a free mutex.
   */
  method OwnerGone() returns (k: Kernel, ok: bool)
    ensures fresh(k) && !ok
  {
    k := TwoHolders();
    OnlyWaiter();
    k.RemoveThread(0);
    var released := k.MutexRelease(1, 1);
    ok := k.CloseThread(0, 2);
  }

  lemma OnlyWaiter()
    requires Inv(After3())
    ensures GivesBack(Unlinked(After3(), 0), 1, 1) && Unlinked(After3(), 0).threads == After3().threads
    ensures Unlinked(After3(), 0).mutexes[1].owner == Some(1)
    ensures MayClose(Released(Unlinked(After3(), 0), 1, 1), 0) && Close(Released(Unlinked(After3(), 0), 1, 1), 0).None?
  {
    var s := After3();
    assert MutexLinks(s, 1);
    assert Blocked(s, 0) && BetweenOwnerAndWaiter(s, 0, 1, 1);
    WithoutMembers(s.mutexes[1].waiters, 0);
    ReleaseBetween(s, 0, 1, 1);
  }
}
