/**
 A run into a deadlock after which threads keep a priority nobody has any more.
 Threads 0 and 1 (own priority 10) each take a mutex and then wait for the
 other's; thread 2 (own priority 3) waits for mutex 0 as well and is detached.
 */
module DeadlockRun {
  import opened Base
  import opened PriorityInheritance
  import opened PriorityChains

  function Idle(p: nat): Thread {
    Thread(p, p, Running, [], None)
  }

  function FreeMutex(): Mutex {
    Mutex(None, 0, NO_WAITER, [])
  }

  function Start(): State {
    State([Idle(10), Idle(10), Idle(3)], [FreeMutex(), FreeMutex()])
  }

  function Ops(): seq<Op> {
    [DoTake(0, 0, true), DoTake(1, 1, true), DoTake(0, 1, true), DoTake(1, 0, true), DoTake(2, 0, true), DoDetach(2)]
  }

  // The states after one, two, ... six operations.

  function After1(): State {
    State([Idle(10).(taken := [0]), Idle(10), Idle(3)], [Mutex(Some(0), 1, NO_WAITER, []), FreeMutex()])
  }

  function After2(): State {
    State([Idle(10).(taken := [0]), Idle(10).(taken := [1]), Idle(3)],
          [Mutex(Some(0), 1, NO_WAITER, []), Mutex(Some(1), 1, NO_WAITER, [])])
  }

  function After3(): State {
    State([Thread(10, 10, Suspended, [0], Some(1)), Idle(10).(taken := [1]), Idle(3)],
          [Mutex(Some(0), 1, NO_WAITER, []), Mutex(Some(1), 1, 10, [0])])
  }

  function After4(): State {
    State([Thread(10, 10, Suspended, [0], Some(1)), Thread(10, 10, Suspended, [1], Some(0)), Idle(3)],
          [Mutex(Some(0), 1, 10, [1]), Mutex(Some(1), 1, 10, [0])])
  }

  /** Thread 2 has fallen asleep; nobody was boosted yet. */
  function Marked(): State {
    State([Thread(10, 10, Suspended, [0], Some(1)), Thread(10, 10, Suspended, [1], Some(0)), Thread(3, 3, Suspended, [], Some(0))],
          [Mutex(Some(0), 1, 3, [2, 1]), Mutex(Some(1), 1, 10, [0])])
  }

  /** Thread 0 was boosted. */
  function Boosted(): State {
    State([Thread(10, 3, Suspended, [0], Some(1)), Thread(10, 10, Suspended, [1], Some(0)), Thread(3, 3, Suspended, [], Some(0))],
          [Mutex(Some(0), 1, 3, [2, 1]), Mutex(Some(1), 1, 3, [0])])
  }

  function After5(): State {
    State([Thread(10, 3, Suspended, [0], Some(1)), Thread(10, 3, Suspended, [1], Some(0)), Thread(3, 3, Suspended, [], Some(0))],
          [Mutex(Some(0), 1, 3, [2, 1]), Mutex(Some(1), 1, 3, [0])])
  }

  function After6(): State {
    State([Thread(10, 3, Suspended, [0], Some(1)), Thread(10, 3, Suspended, [1], Some(0)), Thread(3, 3, Closed, [], None)],
          [Mutex(Some(0), 1, 3, [1]), Mutex(Some(1), 1, 3, [0])])
  }

  lemma StartInitial()
    ensures Initial(Start()) && Inv(Start())
  {
    InitialInv(Start());
  }

  lemma Step1()
    requires Inv(Start())
    ensures Step(Start(), Ops()[0]) == After1()
  {
    assert [0] + [] == [0];
    assert Grab(Start(), 0, 0) == After1();
  }

  lemma Step2()
    requires Inv(After1())
    ensures Step(After1(), Ops()[1]) == After2()
  {
    assert [1] + [] == [1];
    assert Grab(After1(), 1, 1) == After2();
  }

  lemma Step3()
    requires Inv(After2())
    ensures Step(After2(), Ops()[2]) == After3()
  {
    var s := After2();
    assert Slot(s.threads, [], 10) == 0;
    assert Enqueue(s.threads, [], 0) == [0];
    assert SleepAndMark(s, 0, 1) == After3();
  }

  lemma Step4()
    requires Inv(After3())
    ensures Step(After3(), Ops()[3]) == After4()
  {
    var s := After3();
    assert Slot(s.threads, [], 10) == 0;
    assert Enqueue(s.threads, [], 1) == [1];
    assert SleepAndMark(s, 1, 0) == After4();
  }

  lemma Mark5()
    requires Inv(After4())
    ensures SleepAndMark(After4(), 2, 0) == Marked()
  {
    var s := After4();
    assert Slot(s.threads, [1], 3) == 0;
    assert Enqueue(s.threads, [1], 2) == [2, 1];
  }

  lemma One(m: nat, s: State, p: nat)
    requires m < |s.mutexes|
    ensures MinTaken(s.mutexes, [m], p) == if p > s.mutexes[m].priority then s.mutexes[m].priority else p
  {
    assert [m][..0] == [];
  }

  lemma BoostFirst()
    ensures Requeue(Marked(), 0, 3) == Boosted()
  {
    var s := SetPriority(Marked(), 0, 3);
    assert Without([0], 0) == [];
    assert Slot(s.threads, [], 3) == 0;
    assert Enqueue(s.threads, [], 0) == [0];
  }

  lemma BoostSecond()
    ensures Requeue(Boosted(), 1, 3) == After5()
  {
    var s := SetPriority(Boosted(), 1, 3);
    assert IndexOf([2, 1], 1) == 1 by {
      assert IndexFrom([2, 1], 1, 1) == 1;
    }
    assert Without([2, 1], 1) == [2];
    assert [2][1..] == [];
    assert Slot(s.threads, [2][1..], 3) == 0;
    assert Slot(s.threads, [2], 3) == 1;
    assert Enqueue(s.threads, [2], 1) == [2, 1];
  }

  /** The update of thread 1 ends the walk: thread 0 is already where it belongs. */
  lemma UpdateSecond()
    requires OutOfDate(Boosted(), 1, 3)
    ensures UpdatePriority(Boosted(), 1, 3) == After5()
  {
    BoostSecond();
    RequeueMovesHole(Boosted(), 1, 3);
    One(0, After5(), 10);
  }

  lemma UpdateFirst()
    requires OutOfDate(Marked(), 0, 3)
    ensures UpdatePriority(Marked(), 0, 3) == After5()
  {
    BoostFirst();
    RequeueMovesHole(Marked(), 0, 3);
    One(1, Boosted(), 10);
    BecomesOutOfDate();
    UpdateSecond();
  }

  /** Boosting thread 0 leaves thread 1 to be boosted. */
  lemma BecomesOutOfDate()
    requires OutOfDate(Marked(), 0, 3)
    ensures OutOfDate(Boosted(), 1, 3)
  {
    BoostFirst();
    RequeueMovesHole(Marked(), 0, 3);
    One(1, Boosted(), 10);
    assert WaitsFor(Marked(), 0) == Some(1);
  }

  lemma MarkedOutOfDate()
    requires Inv(After4())
    ensures OutOfDate(Marked(), 0, 3)
  {
    Mark5();
    SleepLeavesHole(After4(), 2, 0);
  }

  /** A take that falls asleep and boosts the owner. */
  lemma TakeBoosts(s: State, t: nat, m: nat, o: nat, s2: State)
    requires MaySleep(s, t, m) && s.mutexes[m].owner == Some(o) && o < |s.threads| && s2 == SleepAndMark(s, t, m)
    requires s.threads[t].currentPriority < s.mutexes[m].priority && OutOfDate(s2, o, s.threads[t].currentPriority)
    requires s.threads[t].currentPriority < s2.threads[o].currentPriority
    ensures Step(s, DoTake(t, m, true)) == UpdatePriority(s2, o, s.threads[t].currentPriority)
  {
  }

  lemma Step5()
    requires Inv(After4())
    ensures Step(After4(), Ops()[4]) == After5()
  {
    MarkedOutOfDate();
    UpdateFirst();
    SleepsAndBoosts();
  }

  lemma SleepsAndBoosts()
    requires Inv(After4()) && OutOfDate(Marked(), 0, 3)
    ensures Step(After4(), DoTake(2, 0, true)) == UpdatePriority(Marked(), 0, 3)
  {
    Mark5();
    TakeBoosts(After4(), 2, 0, 0, Marked());
  }

  /** The queue of mutex 0 without thread 2. */
  function Left(): State {
    After5().(threads := After5().threads[2 := Thread(3, 3, Closed, [], Some(0))],
              mutexes := After5().mutexes[0 := Mutex(Some(0), 1, 3, [1])])
  }

  lemma LeaveIs()
    ensures InRange(After5()) && Leave(After5(), 2, 0) == Left()
  {
    assert Without([2, 1], 2) == [1];
  }

  lemma DropIs()
    requires Inv(After5())
    ensures Drop(After5(), 2, 0) == Left()
  {
    LeaveIs();
    LeaveLeavesHole(After5(), 2, 0);
    One(0, Left(), 10);
  }

  lemma Step6()
    requires Inv(After5())
    ensures Step(After5(), Ops()[5]) == After6()
  {
    DropIs();
  }

  lemma RunOne(s: State, ops: seq<Op>, i: nat)
    requires Inv(s) && i < |ops|
    ensures Run(s, ops[i..]) == Run(Step(s, ops[i]), ops[i + 1..])
  {
    assert ops[i..][1..] == ops[i + 1..];
  }

  lemma WholeRun()
    ensures Initial(Start()) && Inv(Start()) && Run(Start(), Ops()) == After6()
  {
    var ops := Ops();
    StartInitial();
    assert ops[0..] == ops;
    RunOne(Start(), ops, 0);
    Step1();
    RunOne(After1(), ops, 1);
    Step2();
    RunOne(After2(), ops, 2);
    Step3();
    RunOne(After3(), ops, 3);
    Step4();
    RunOne(After4(), ops, 4);
    Step5();
    RunOne(After5(), ops, 5);
    Step6();
    assert ops[6..] == [];
  }

  /** Thread `t` runs at priority 3 although nobody blocked behind it, nor it itself, has it. */
  ghost predicate Stale(s: State, t: nat) {
    && Inv(s) && t < |s.threads| && s.threads[t].currentPriority == 3
    && forall u :: 0 <= u < |s.threads| && Behind(s, u, t) ==> s.threads[u].initPriority == 10
  }

  lemma StaleAtTheEnd()
    requires Inv(After6())
    ensures Stale(After6(), 0)
  {
    var s := After6();
    assert !Blocked(s, 2);
    forall u | 0 <= u < |s.threads| && Behind(s, u, 0) ensures s.threads[u].initPriority == 10 {
      var n: nat :| Reaches(s, u, 0, n);
      assert u == 0 || u == 1 || u == 2;
      assert WaitsFor(s, 2) == None;
    }
  }

  lemma StaleIsNotEffective(s: State, t: nat)
    requires Stale(s, t)
    ensures !IsEffective(s, t, 3) && OnCycle(s, t)
  {
    if !OnCycle(s, t) {
      RunsAtEffectivePriority(s, t);
    }
  }

  lemma DeadlockFreeIsNotStale(s: State, ops: seq<Op>, t: nat)
    requires Inv(s) && Acyclic(s) && DeadlockFree(s, ops) && t < |Run(s, ops).threads|
    ensures !Stale(Run(s, ops), t)
  {
    RunEffective(s, ops, t);
    if Stale(Run(s, ops), t) {
      StaleIsNotEffective(Run(s, ops), t);
    }
  }

  /**
   A run from an initial state into a deadlock after which a thread keeps a priority that neither
   it nor any thread blocked behind it has.
   */
  lemma StaleInDeadlock()
    ensures Initial(Start()) && Inv(Start()) && Stale(Run(Start(), Ops()), 0)
    ensures !IsEffective(Run(Start(), Ops()), 0, 3) && !DeadlockFree(Start(), Ops())
  {
    WholeRun();
    StaleAtTheEnd();
    StaleIsNotEffective(After6(), 0);
    if DeadlockFree(Start(), Ops()) {
      StartAcyclic();
      DeadlockFreeIsNotStale(Start(), Ops(), 0);
    }
  }

  lemma StartAcyclic()
    ensures Inv(Start()) && Acyclic(Start())
  {
    StartInitial();
    assert Ranked(Start(), [0, 0, 0]);
  }
}
