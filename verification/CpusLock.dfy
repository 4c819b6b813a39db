/**
 The lock shared by all CPUs (rt-thread/src/cpu.c) and the lock counters that the
 scheduler (rt-thread/src/scheduler.c) hands over with a context switch.  Each
 method is one step of one CPU; the steps of different CPUs interleave freely.
 Taking the lock is two steps: the counters go up, then the CPU spins until the
 lock is free.
 */
module CpusLock {
  import opened Base

  /** The lock counters of a thread: cpus_lock_nest, scheduler_lock_nest, critical_lock_nest. */
  datatype Nest = Nest(cpus: int, sched: int, crit: int)

  /**
   The locks of the whole system.  `spinning` marks a CPU that has counted up but has not got the
   lock yet, `preempt` counts how often a thread disabled preemption, and `on` tells where it runs.
   */
  datatype State = State(
    nests: seq<Nest>,
    current: seq<Option<nat>>,
    lock: Option<nat>,
    spinning: seq<bool>,
    preempt: seq<nat>,
    on: seq<Option<nat>>)

  // -------------------------------------------------------------- invariant

  /** The scheduler counter adds up what locks the scheduler for thread `t`. */
  ghost predicate ThreadOk(s: State, t: nat)
    requires t < |s.nests| && t < |s.preempt| && t < |s.on|
  {
    && s.nests[t].sched == (if s.nests[t].cpus > 0 then 1 else 0) + s.nests[t].crit + s.preempt[t]
    && 0 <= s.nests[t].crit <= s.nests[t].cpus
    && (s.on[t].None? ==> s.nests[t].crit == 0 && s.preempt[t] == 0)
    && (s.on[t].Some? ==> s.on[t].value < |s.current| && s.current[s.on[t].value] == Some(t))
  }

  /** CPU `c` holds the lock exactly when its thread counts it as held and is not still spinning. */
  ghost predicate CpuOk(s: State, c: nat)
    requires c < |s.current| && c < |s.spinning|
  {
    match s.current[c]
    case None => !s.spinning[c]
    case Some(t) =>
      && t < |s.nests| && t < |s.on| && s.on[t] == Some(c)
      && (s.lock == Some(c) <==> s.nests[t].cpus > 0 && !s.spinning[c])
      && (s.spinning[c] ==> s.nests[t].cpus > 0)
  }

  ghost predicate Inv(s: State) {
    && |s.preempt| == |s.on| == |s.nests| && |s.spinning| == |s.current|
    && (s.lock.Some? ==> s.lock.value < |s.current|)
    && (forall t :: 0 <= t < |s.nests| ==> ThreadOk(s, t))
    && (forall c :: 0 <= c < |s.current| ==> CpuOk(s, c))
  }

  /** CPU `c` runs thread `t`. */
  ghost predicate Runs(s: State, c: nat, t: nat) {
    && |s.preempt| == |s.on| == |s.nests| && |s.spinning| == |s.current|
    && c < |s.current| && s.current[c] == Some(t) && t < |s.nests|
  }

  /** Thread `t` on CPU `c` is inside a section opened by `rt_cpus_lock`, beyond its critical sections. */
  ghost predicate InSection(s: State, c: nat, t: nat) {
    Runs(s, c, t) && !s.spinning[c] && s.nests[t].cpus > s.nests[t].crit
  }

  /** Interrupts reach CPU `c`: no lock section is open there. */
  ghost predicate Interruptible(s: State, c: nat, t: nat) {
    Runs(s, c, t) && !s.spinning[c] && s.nests[t].cpus == s.nests[t].crit
  }

  /** A step of CPU `c` that touches only its own thread and passes the lock only from or to itself. */
  ghost predicate Local(s: State, s': State, c: nat, t: nat) {
    && s'.current == s.current && s'.on == s.on && |s'.nests| == |s.nests| && |s'.preempt| == |s.preempt|
    && |s'.spinning| == |s.spinning|
    && (forall u :: 0 <= u < |s.nests| && u != t ==> s'.nests[u] == s.nests[u])
    && (forall u :: 0 <= u < |s.preempt| && u != t ==> s'.preempt[u] == s.preempt[u])
    && (forall d :: 0 <= d < |s.spinning| && d != c ==> s'.spinning[d] == s.spinning[d])
    && (s'.lock == s.lock || (s.lock == None && s'.lock == Some(c)) || (s.lock == Some(c) && s'.lock == None))
  }

  lemma LocalStep(s: State, s': State, c: nat, t: nat)
    requires Inv(s) && Runs(s, c, t) && Local(s, s', c, t)
    requires ThreadOk(s', t) && CpuOk(s', c)
    ensures Inv(s')
  {
    assert CpuOk(s, c);
    forall u | 0 <= u < |s'.nests| ensures ThreadOk(s', u) {
      assert ThreadOk(s, u);
    }
    forall d | 0 <= d < |s'.current| ensures CpuOk(s', d) {
      assert CpuOk(s, d);
    }
  }

  /** Two CPUs never hold the lock at once. */
  lemma MutualExclusion(s: State, c: nat, t: nat, d: nat, u: nat)
    requires Inv(s) && Runs(s, c, t) && Runs(s, d, u) && c != d
    requires s.nests[t].cpus > 0 && !s.spinning[c]
    ensures s.lock == Some(c) && !(s.nests[u].cpus > 0 && !s.spinning[d])
  {
    assert CpuOk(s, c) && CpuOk(s, d);
  }

  /** With the lock held, a scheduler counter of one means: no critical section and no preemption lock. */
  lemma SwitchAllowed(s: State, c: nat, t: nat)
    requires Inv(s) && InSection(s, c, t)
    ensures s.lock == Some(c)
    ensures s.nests[t].sched == 1 <==> s.nests[t].crit == 0 && s.preempt[t] == 0
  {
    assert CpuOk(s, c) && ThreadOk(s, t);
  }

  // ------------------------------------------------------------------- steps

  function Counted(n: Nest): Nest {
    n.(cpus := n.cpus + 1, sched := n.sched + if n.cpus == 0 then 1 else 0)
  }

  function Uncounted(n: Nest): Nest {
    n.(cpus := n.cpus - 1, sched := n.sched - if n.cpus == 1 then 1 else 0)
  }

  lemma CountedInv(s: State, c: nat, t: nat)
    requires Inv(s) && Runs(s, c, t) && !s.spinning[c]
    ensures Inv(s.(nests := s.nests[t := Counted(s.nests[t])],
                   spinning := if s.nests[t].cpus == 0 then s.spinning[c := true] else s.spinning))
  {
    assert CpuOk(s, c) && ThreadOk(s, t);
    LocalStep(s, s.(nests := s.nests[t := Counted(s.nests[t])],
                    spinning := if s.nests[t].cpus == 0 then s.spinning[c := true] else s.spinning), c, t);
  }

  lemma AcquiredInv(s: State, c: nat)
    requires Inv(s) && c < |s.current| && s.spinning[c] && s.lock.None?
    ensures Inv(s.(lock := Some(c), spinning := s.spinning[c := false]))
  {
    assert CpuOk(s, c);
    var t := s.current[c].value;
    assert ThreadOk(s, t);
    LocalStep(s, s.(lock := Some(c), spinning := s.spinning[c := false]), c, t);
  }

  lemma UncountedInv(s: State, c: nat, t: nat)
    requires Inv(s) && InSection(s, c, t)
    ensures s.nests[t].cpus > 0 && s.lock == Some(c)
    ensures Inv(s.(nests := s.nests[t := Uncounted(s.nests[t])], lock := if s.nests[t].cpus == 1 then None else s.lock))
  {
    assert CpuOk(s, c) && ThreadOk(s, t);
    LocalStep(s, s.(nests := s.nests[t := Uncounted(s.nests[t])], lock := if s.nests[t].cpus == 1 then None else s.lock), c, t);
  }

  lemma EnteredInv(s: State, c: nat, t: nat)
    requires Inv(s) && InSection(s, c, t)
    ensures var n := s.nests[t]; Inv(s.(nests := s.nests[t := n.(crit := n.crit + 1, sched := n.sched + 1)]))
  {
    var n := s.nests[t];
    assert CpuOk(s, c) && ThreadOk(s, t);
    LocalStep(s, s.(nests := s.nests[t := n.(crit := n.crit + 1, sched := n.sched + 1)]), c, t);
  }

  /** The counters after leaving a critical section. */
  function Exited(n: Nest): Nest {
    Nest(n.cpus - 1, n.sched - (if n.cpus == 1 then 2 else 1), n.crit - 1)
  }

  /** Leaving a critical section; its scheduler counter cannot become negative. */
  lemma ExitedInv(s: State, c: nat, t: nat)
    requires Inv(s) && Runs(s, c, t) && !s.spinning[c] && s.nests[t].crit > 0
    ensures s.nests[t].cpus > 0 && s.lock == Some(c)
    ensures Exited(s.nests[t]).sched >= 0
    ensures Exited(s.nests[t]).sched == 0 <==> s.nests[t].cpus == 1 && s.preempt[t] == 0
    ensures Inv(s.(nests := s.nests[t := Exited(s.nests[t])], lock := if s.nests[t].cpus == 1 then None else s.lock))
  {
    assert CpuOk(s, c) && ThreadOk(s, t);
    LocalStep(s, s.(nests := s.nests[t := Exited(s.nests[t])], lock := if s.nests[t].cpus == 1 then None else s.lock), c, t);
  }

  lemma PreemptInv(s: State, c: nat, t: nat, d: int)
    requires Inv(s) && Runs(s, c, t) && s.preempt[t] + d >= 0
    ensures Inv(s.(nests := s.nests[t := s.nests[t].(sched := s.nests[t].sched + d)], preempt := s.preempt[t := s.preempt[t] + d]))
  {
    assert CpuOk(s, c) && ThreadOk(s, t);
    LocalStep(s, s.(nests := s.nests[t := s.nests[t].(sched := s.nests[t].sched + d)], preempt := s.preempt[t := s.preempt[t] + d]), c, t);
  }

  /** CPU `c` leaves its thread for `to`; the lock stays with `c` if `to` had it when it left its CPU. */
  ghost function Switched(s: State, c: nat, to: nat): State
    requires c < |s.current| && to < |s.nests| && to < |s.on| && (s.current[c].Some? ==> s.current[c].value < |s.on|)
  {
    s.(current := s.current[c := Some(to)],
       on := (if s.current[c].Some? then s.on[s.current[c].value := None] else s.on)[to := Some(c)],
       lock := if s.nests[to].cpus == 0 then None else s.lock)
  }

  lemma SwitchedInv(s: State, c: nat, to: nat)
    requires Inv(s) && c < |s.current| && s.lock == Some(c)
    requires to < |s.nests| && s.on[to].None?
    requires s.current[c].Some? && s.current[c].value < |s.nests| ==>
               s.nests[s.current[c].value].crit == 0 && s.preempt[s.current[c].value] == 0
    ensures s.current[c].Some? ==> s.current[c].value < |s.on|
    ensures Inv(Switched(s, c, to))
  {
    assert CpuOk(s, c) && ThreadOk(s, to);
    var s' := Switched(s, c, to);
    forall u | 0 <= u < |s'.nests| ensures ThreadOk(s', u) {
      assert ThreadOk(s, u);
    }
    forall d | 0 <= d < |s'.current| ensures CpuOk(s', d) {
      assert CpuOk(s, d);
    }
  }

  // ---------------------------------------------------------------- the code

  class Cpus {
    var nests: seq<Nest>
    var current: seq<Option<nat>>     // current_thread of each CPU
    var lock: Option<nat>             // the CPU that holds _cpus_lock
    var irqNest: seq<nat>
    var irqSwitch: seq<bool>          // irq_switch_flag
    ghost var spinning: seq<bool>
    ghost var preempt: seq<nat>
    ghost var on: seq<Option<nat>>

    ghost function View(): State
      reads this
    {
      State(nests, current, lock, spinning, preempt, on)
    }

    ghost predicate Valid()
      reads this
    {
      Inv(View()) && |irqNest| == |irqSwitch| == |current|
    }

    /** The CPUs at power-on, and `n` threads that have not run. */
    constructor (cpus: nat, n: nat)
      ensures Valid() && |nests| == n && |current| == cpus && lock == None
      ensures forall c :: 0 <= c < cpus ==> current[c] == None
    {
      nests := seq(n, _ => Nest(0, 0, 0));
      current, lock := seq(cpus, _ => None), None;
      irqNest, irqSwitch := seq(cpus, _ => 0), seq(cpus, _ => false);
      spinning, preempt, on := seq(cpus, _ => false), seq(n, _ => 0), seq(n, _ => None);
      new;
      forall t | 0 <= t < n ensures ThreadOk(View(), t) {
      }
      forall c | 0 <= c < cpus ensures CpuOk(View(), c) {
      }
    }

    // -------------------------------------------------------------- the lock

    /** `rt_cpus_lock`, and `rt_enter_critical`, up to the spin. */
    method Lock(c: nat, ghost t: nat)
      requires Valid() && Runs(View(), c, t) && !spinning[c]
      modifies this`nests, this`spinning
      ensures Valid()
      ensures var n := old(nests)[t]; nests == old(nests)[t := n.(cpus := n.cpus + 1, sched := if n.cpus == 0 then n.sched + 1 else n.sched)]
      ensures spinning == if old(nests)[t].cpus == 0 then old(spinning)[c := true] else old(spinning)
    {
      CountedInv(View(), c, t);
      var self := current[c].value;
      var n := nests[self];
      var nest := n.cpus;
      n := n.(cpus := n.cpus + 1);
      if nest == 0 {
        n := n.(sched := n.sched + 1);
        spinning := spinning[c := true];
      }
      nests := nests[self := n];
    }

    /** The spin ends: the lock was free. */
    method Acquire(c: nat)
      requires Valid() && c < |current| && spinning[c] && lock.None?
      modifies this`lock, this`spinning
      ensures Valid() && lock == Some(c) && spinning == old(spinning)[c := false]
    {
      AcquiredInv(View(), c);
      lock := Some(c);
      spinning := spinning[c := false];
    }

    /** `rt_cpus_unlock`: it is always the holder that gives the lock back. */
    method Unlock(c: nat, ghost t: nat)
      requires Valid() && InSection(View(), c, t)
      modifies this`nests, this`lock
      ensures Valid() && old(lock) == Some(c)
      ensures var n := old(nests)[t]; nests == old(nests)[t := n.(cpus := n.cpus - 1, sched := if n.cpus == 1 then n.sched - 1 else n.sched)]
      ensures lock == if nests[t].cpus == 0 then None else Some(c)
    {
      UncountedInv(View(), c, t);
      var self := current[c].value;
      var n := nests[self];
      n := n.(cpus := n.cpus - 1);
      if n.cpus == 0 {
        n := n.(sched := n.sched - 1);
        lock := None;
      }
      nests := nests[self := n];
    }

    // ------------------------------------- critical sections and preemption

    /** The rest of `rt_enter_critical`, with the lock held. */
    method EnterCritical(c: nat, ghost t: nat)
      requires Valid() && InSection(View(), c, t)
      modifies this`nests
      ensures Valid()
      ensures var n := old(nests)[t]; nests == old(nests)[t := n.(crit := n.crit + 1, sched := n.sched + 1)]
    {
      EnteredInv(View(), c, t);
      var self := current[c].value;
      nests := nests[self := nests[self].(crit := nests[self].crit + 1, sched := nests[self].sched + 1)];
    }

    /** `rt_exit_critical`; `schedule` says whether it goes on to `rt_schedule`. */
    method ExitCritical(c: nat, ghost t: nat) returns (schedule: bool)
      requires Valid() && Runs(View(), c, t) && !spinning[c] && nests[t].crit > 0
      modifies this`nests, this`lock
      ensures Valid() && old(lock) == Some(c)
      ensures var n := old(nests)[t];
              nests == old(nests)[t := Nest(n.cpus - 1, n.sched - (if n.cpus == 1 then 2 else 1), n.crit - 1)]
      ensures lock == if nests[t].cpus == 0 then None else Some(c)
      ensures schedule <==> nests[t].cpus == 0 && preempt[t] == 0
    {
      ExitedInv(View(), c, t);
      var self := current[c].value;
      var n := nests[self];
      n := n.(sched := n.sched - 1);
      n := n.(crit := n.crit - 1);
      n := n.(cpus := n.cpus - 1);
      if n.cpus == 0 {
        n := n.(sched := n.sched - 1);
        lock := None;
      }
      schedule := n.sched <= 0;
      if schedule {
        n := n.(sched := 0);
      }
      nests := nests[self := n];
    }

    /** `_cpu_preempt_disable`, the first half of `rt_spin_lock`. */
    method PreemptDisable(c: nat, ghost t: nat)
      requires Valid() && Runs(View(), c, t)
      modifies this`nests, this`preempt
      ensures Valid() && preempt == old(preempt)[t := old(preempt)[t] + 1]
      ensures nests == old(nests)[t := old(nests)[t].(sched := old(nests)[t].sched + 1)]
    {
      PreemptInv(View(), c, t, 1);
      var self := current[c].value;
      nests := nests[self := nests[self].(sched := nests[self].sched + 1)];
      preempt := preempt[t := preempt[t] + 1];
    }

    /** `_cpu_preempt_enable`, the second half of `rt_spin_unlock`, up to its call of `rt_schedule`. */
    method PreemptEnable(c: nat, ghost t: nat)
      requires Valid() && Runs(View(), c, t) && preempt[t] > 0
      modifies this`nests, this`preempt
      ensures Valid() && preempt == old(preempt)[t := old(preempt)[t] - 1]
      ensures nests == old(nests)[t := old(nests)[t].(sched := old(nests)[t].sched - 1)]
    {
      PreemptInv(View(), c, t, -1);
      var self := current[c].value;
      nests := nests[self := nests[self].(sched := nests[self].sched - 1)];
      preempt := preempt[t := preempt[t] - 1];
    }

    // ---------------------------------------------------------------- switches

    /** A thread that no CPU runs. */
    ghost predicate Waiting(t: nat)
      reads this
    {
      t < |nests| && t < |on| && on[t].None?
    }

    /** `rt_cpus_lock_status_restore`, which ends every context switch. */
    method Restore(c: nat, to: nat)
      requires Valid() && c < |current| && lock == Some(c) && Waiting(to)
      requires current[c].Some? && current[c].value < |nests| ==>
                 nests[current[c].value].crit == 0 && preempt[current[c].value] == 0
      modifies this`current, this`lock, this`on
      ensures c < |old(current)| && current == old(current)[c := Some(to)] && Valid()
      ensures lock == if nests[to].cpus == 0 then None else Some(c)
    {
      SwitchedInv(View(), c, to);
      on := (if current[c].Some? then on[current[c].value := None] else on)[to := Some(c)];
      current := current[c := Some(to)];
      if nests[to].cpus == 0 {
        lock := None;
      }
    }

    /** A CPU that runs no thread yet takes the lock, to start its first thread. */
    method Boot(c: nat)
      requires Valid() && c < |current| && current[c].None? && lock.None?
      modifies this`lock
      ensures Valid() && lock == Some(c)
    {
      lock := Some(c);
      forall t | 0 <= t < |nests| ensures ThreadOk(View(), t) {
        assert ThreadOk(old(View()), t);
      }
      forall d | 0 <= d < |current| ensures CpuOk(View(), d) {
        assert CpuOk(old(View()), d);
      }
    }

    /** An interrupt arrives: no lock section is open, though a critical section may be. */
    method IrqEnter(c: nat, ghost t: nat)
      requires Valid() && Interruptible(View(), c, t)
      modifies this`irqNest
      ensures Valid() && irqNest == old(irqNest)[c := old(irqNest)[c] + 1]
    {
      irqNest := irqNest[c := irqNest[c] + 1];
    }

    /** An interrupt handler ends, with all its lock sections closed. */
    method IrqLeave(c: nat, ghost t: nat)
      requires Valid() && Interruptible(View(), c, t) && irqNest[c] > 0
      modifies this`irqNest
      ensures Valid() && irqNest == old(irqNest)[c := old(irqNest)[c] - 1]
    {
      irqNest := irqNest[c := irqNest[c] - 1];
    }

    /**
     The locked part of `rt_schedule`: switch to `to`, the thread it selected, if any.  It does so
     exactly outside interrupts, critical sections and spin locks; inside an interrupt it asks for
     a switch at its end.
     */
    method Schedule(c: nat, to: Option<nat>, ghost t: nat) returns (switched: bool)
      requires Valid() && InSection(View(), c, t)
      requires to.Some? ==> Waiting(to.value)
      modifies this
      ensures Valid() && nests == old(nests) && preempt == old(preempt) && irqNest == old(irqNest)
      ensures switched <==> old(irqNest)[c] == 0 && to.Some? && old(nests)[t].crit == 0 && old(preempt)[t] == 0
      ensures current == if switched then old(current)[c := to] else old(current)
      ensures lock == if switched && nests[to.value].cpus == 0 then None else Some(c)
      ensures irqSwitch == if old(irqNest)[c] > 0 then old(irqSwitch)[c := true] else old(irqSwitch)
    {
      SwitchAllowed(View(), c, t);
      switched := false;
      if irqNest[c] > 0 {
        irqSwitch := irqSwitch[c := true];
        return;
      }
      var self := current[c].value;
      if nests[self].sched == 1 && to.Some? {
        Restore(c, to.value);
        switched := true;
      }
    }

    /** The counters of the thread that `rt_scheduler_do_irq_switch` leaves behind. */
    method Abandon(c: nat, ghost t: nat)
      requires Valid() && InSection(View(), c, t) && nests[t].sched == 1 && nests[t].cpus == 1
      modifies this`nests, this`current, this`on
      ensures Valid() && nests == old(nests)[t := Nest(0, 0, 0)] && current == old(current)[c := None]
      ensures on == old(on)[t := None] && lock == Some(c)
    {
      SwitchAllowed(View(), c, t);
      AbandonedInv(View(), c, t);
      var self := current[c].value;
      nests := nests[self := nests[self].(cpus := nests[self].cpus - 1, sched := nests[self].sched - 1)];
      current := current[c := None];
      on := on[t := None];
    }

    /**
     The locked part of `rt_scheduler_do_irq_switch`, run when an interrupt ends: the interrupted
     thread is left with no lock at all, and the lock itself passes to the thread switched to.
     */
    method IrqSwitch(c: nat, to: Option<nat>, ghost t: nat) returns (switched: bool)
      requires Valid() && InSection(View(), c, t) && nests[t].cpus == nests[t].crit + 1
      requires to.Some? ==> Waiting(to.value)
      modifies this
      ensures Valid() && preempt == old(preempt) && irqNest == old(irqNest)
      ensures switched <==> old(irqSwitch)[c] && old(irqNest)[c] == 0 && to.Some? && old(nests)[t].crit == 0 && old(preempt)[t] == 0
      ensures switched ==> nests == old(nests)[t := Nest(0, 0, 0)] && current == old(current)[c := to]
      ensures !switched ==> nests == old(nests) && current == old(current)
      ensures lock == if switched && nests[to.value].cpus == 0 then None else Some(c)
      ensures irqSwitch == if old(irqSwitch)[c] && old(irqNest)[c] == 0 && old(nests)[t].crit == 0 && old(preempt)[t] == 0
                           then old(irqSwitch)[c := false] else old(irqSwitch)
    {
      SwitchAllowed(View(), c, t);
      switched := false;
      if !irqSwitch[c] {
        return;
      }
      var self := current[c].value;
      if nests[self].sched == 1 && irqNest[c] == 0 {
        irqSwitch := irqSwitch[c := false];
        if to.Some? {
          Abandon(c, t);
          Restore(c, to.value);
          switched := true;
          assert current == old(current)[c := to];
        }
      }
    }
  }

  lemma AbandonedInv(s: State, c: nat, t: nat)
    requires Inv(s) && InSection(s, c, t) && s.nests[t].cpus == 1 && s.nests[t].crit == 0 && s.preempt[t] == 0
    ensures s.lock == Some(c) && s.nests[t].sched == 1
    ensures Inv(s.(nests := s.nests[t := Nest(0, 0, 0)], current := s.current[c := None], on := s.on[t := None]))
  {
    assert CpuOk(s, c) && ThreadOk(s, t);
    var s' := s.(nests := s.nests[t := Nest(0, 0, 0)], current := s.current[c := None], on := s.on[t := None]);
    forall u | 0 <= u < |s'.nests| ensures ThreadOk(s', u) {
      assert ThreadOk(s, u);
    }
    forall d | 0 <= d < |s'.current| ensures CpuOk(s', d) {
      assert CpuOk(s, d);
    }
  }
}
