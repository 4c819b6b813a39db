/**
 The ready queues of the multi-core scheduler (rt-thread/src/scheduler.c): one
 list per priority for every CPU and one for threads bound to none, each set of
 lists with a bitmap of the lists that are not empty.
 */
module ReadyQueues {
  import opened Base

  const PRIORITIES: nat := 32          // RT_THREAD_PRIORITY_MAX
  const WORD: nat := 0x1_0000_0000

  datatype Stat = Init | Ready | Running | Suspended | Closed

  /** A thread; `onCpu` is None for RT_CPU_DETACHED. */
  datatype Thread = Thread(stat: Stat, yielding: bool, priority: nat, bindCpu: nat, onCpu: Option<nat>)

  /**
   `tables[k]` and `groups[k]` are the lists and the bitmap of CPU `k`, or for `k` the number of
   CPUs (RT_CPUS_NR, also the binding of a thread bound to no CPU) the global ones.
   */
  datatype State = State(
    threads: seq<Thread>,
    tables: seq<seq<seq<nat>>>,
    groups: seq<seq<bool>>,
    current: seq<Option<nat>>)

  // ------------------------------------------------------------------ bitmaps

  /** The position of the lowest set bit from `i` on, counted from 1, or 0. */
  function FfsFrom(g: seq<bool>, i: nat): (r: nat)
    requires i <= |g|
    decreases |g| - i
  {
    if i == |g| then 0 else if g[i] then i + 1 else FfsFrom(g, i + 1)
  }

  /** `__rt_ffs`. */
  function Ffs(g: seq<bool>): nat {
    FfsFrom(g, 0)
  }

  /** `__rt_ffs(g) - 1` in unsigned arithmetic: the lowest set bit, or a huge number if there is none. */
  function Highest(g: seq<bool>): nat {
    (Ffs(g) - 1) % WORD
  }

  predicate Empty(g: seq<bool>) {
    forall p :: 0 <= p < |g| ==> !g[p]
  }

  lemma {:induction false} FfsIs(g: seq<bool>, i: nat)
    requires i <= |g|
    ensures FfsFrom(g, i) == 0 <==> forall p :: i <= p < |g| ==> !g[p]
    ensures FfsFrom(g, i) > 0 ==> i < FfsFrom(g, i) <= |g| && g[FfsFrom(g, i) - 1]
    ensures forall p :: i <= p < FfsFrom(g, i) - 1 ==> !g[p]
    decreases |g| - i
  {
    if i < |g| && !g[i] {
      FfsIs(g, i + 1);
    }
  }

  /** An empty bitmap gives a number above every priority. */
  lemma HighestIs(g: seq<bool>)
    requires |g| == PRIORITIES
    ensures Empty(g) ==> Highest(g) == WORD - 1
    ensures !Empty(g) ==> Highest(g) < PRIORITIES && g[Highest(g)]
    ensures forall p :: 0 <= p < |g| && g[p] ==> Highest(g) <= p
  {
    FfsIs(g, 0);
  }

  // ---------------------------------------------------------------- invariant

  ghost predicate Shape(s: State) {
    && |s.tables| == |s.groups| == |s.current| + 1
    && (forall k :: 0 <= k < |s.tables| ==> |s.tables[k]| == PRIORITIES)
    && (forall k :: 0 <= k < |s.groups| ==> |s.groups[k]| == PRIORITIES)
  }

  /** The list of priority `p` of set `k` holds ready threads of that priority and binding, and its bit tells if it is empty. */
  ghost predicate CellOk(s: State, k: nat, p: nat)
    requires Shape(s) && k < |s.tables| && p < PRIORITIES
  {
    && NoDup(s.tables[k][p])
    && (s.groups[k][p] <==> s.tables[k][p] != [])
    && forall t :: t in s.tables[k][p] ==> Queued(s, k, p, t)
  }

  ghost predicate Queued(s: State, k: nat, p: nat, t: nat) {
    && t < |s.threads| && s.threads[t].stat == Ready && s.threads[t].bindCpu == k && s.threads[t].priority == p
  }

  /** The priority and binding of a thread exist. */
  ghost predicate Placeable(s: State, t: nat)
    requires t < |s.threads|
  {
    s.threads[t].priority < PRIORITIES && s.threads[t].bindCpu < |s.tables|
  }

  /** A ready thread is in the list of its priority and binding; a running one is on a CPU. */
  ghost predicate ThreadOk(s: State, t: nat)
    requires Shape(s) && t < |s.threads|
  {
    var th := s.threads[t];
    && Placeable(s, t)
    && (th.stat == Ready ==> th.onCpu.None? && t in s.tables[th.bindCpu][th.priority])
    && (th.stat == Running ==> th.onCpu.Some?)
  }

  /** `onCpu` and `current` agree. */
  ghost predicate OnOk(s: State, t: nat)
    requires t < |s.threads|
  {
    s.threads[t].onCpu.Some? ==> s.threads[t].onCpu.value < |s.current| && s.current[s.threads[t].onCpu.value] == Some(t)
  }

  ghost predicate CpuOk(s: State, c: nat)
    requires c < |s.current|
  {
    s.current[c].Some? ==> s.current[c].value < |s.threads| && s.threads[s.current[c].value].onCpu == Some(c)
  }

  /** All cells, and all threads but `t`, are right, and `t` is in no list. */
  ghost predicate Loose(s: State, t: nat) {
    && Shape(s)
    && (forall k, p :: 0 <= k < |s.tables| && 0 <= p < PRIORITIES ==> CellOk(s, k, p))
    && (forall k, p :: 0 <= k < |s.tables| && 0 <= p < PRIORITIES ==> Absent(s, k, p, t))
    && (forall u :: 0 <= u < |s.threads| && u != t ==> ThreadOk(s, u))
    && (t < |s.threads| ==> Placeable(s, t))
  }

  ghost predicate Absent(s: State, k: nat, p: nat, t: nat)
    requires Shape(s) && k < |s.tables| && p < PRIORITIES
  {
    t !in s.tables[k][p]
  }

  ghost predicate Placed(s: State) {
    && Shape(s)
    && (forall k, p :: 0 <= k < |s.tables| && 0 <= p < PRIORITIES ==> CellOk(s, k, p))
    && (forall u :: 0 <= u < |s.threads| ==> ThreadOk(s, u))
  }

  ghost predicate Attached(s: State) {
    && (forall u :: 0 <= u < |s.threads| ==> OnOk(s, u))
    && (forall c :: 0 <= c < |s.current| ==> CpuOk(s, c))
  }

  ghost predicate Inv(s: State) {
    Placed(s) && Attached(s)
  }

  // --------------------------------------------------------- insert and remove

  /** List `p` of set `k` becomes `q`, with its bit. */
  function SetCell(s: State, k: nat, p: nat, q: seq<nat>): State
    requires k < |s.tables| && k < |s.groups| && p < |s.tables[k]| && p < |s.groups[k]|
  {
    s.(tables := s.tables[k := s.tables[k][p := q]], groups := s.groups[k := s.groups[k][p := q != []]])
  }

  function SetThread(s: State, t: nat, th: Thread): State
    requires t < |s.threads|
  {
    s.(threads := s.threads[t := th])
  }

  /** `rt_schedule_insert_thread`: at the end of the list if the thread yields, else in front. */
  function Inserted(s: State, t: nat): State
    requires Shape(s) && t < |s.threads| && Placeable(s, t)
  {
    var th := s.threads[t];
    if th.onCpu.Some? then SetThread(s, t, th.(stat := Running))
    else
      var q := s.tables[th.bindCpu][th.priority];
      SetCell(SetThread(s, t, th.(stat := Ready)), th.bindCpu, th.priority, if th.yielding then q + [t] else [t] + q)
  }

  /** `rt_schedule_remove_thread`. */
  function Removed(s: State, t: nat): State
    requires Shape(s) && t < |s.threads| && Placeable(s, t)
  {
    var th := s.threads[t];
    SetCell(s, th.bindCpu, th.priority, Without(s.tables[th.bindCpu][th.priority], t))
  }

  /** A removed thread is in no list; the rest is as before. */
  lemma RemovedLoose(s: State, t: nat)
    requires Placed(s) && t < |s.threads| && Placeable(s, t)
    ensures Loose(Removed(s, t), t)
  {
    var s', th := Removed(s, t), s.threads[t];
    assert CellOk(s, th.bindCpu, th.priority);
    WithoutMembers(s.tables[th.bindCpu][th.priority], t);
    forall k, p | 0 <= k < |s.tables| && 0 <= p < PRIORITIES ensures CellOk(s', k, p) && Absent(s', k, p, t) {
      assert CellOk(s, k, p);
    }
    forall u | 0 <= u < |s.threads| && u != t ensures ThreadOk(s', u) {
      assert ThreadOk(s, u);
    }
  }

  lemma InsertedPlaced(s: State, t: nat)
    requires Loose(s, t) && t < |s.threads|
    ensures Placed(Inserted(s, t))
  {
    var s', th := Inserted(s, t), s.threads[t];
    var q := s.tables[th.bindCpu][th.priority];
    assert CellOk(s, th.bindCpu, th.priority) && Absent(s, th.bindCpu, th.priority, t);
    ConsNoDup(t, q);
    SnocNoDup(q, t);
    forall k, p | 0 <= k < |s.tables| && 0 <= p < PRIORITIES ensures CellOk(s', k, p) {
      assert CellOk(s, k, p) && Absent(s, k, p, t);
    }
    forall u | 0 <= u < |s.threads| ensures ThreadOk(s', u) {
      assert u != t ==> ThreadOk(s, u);
    }
  }

  /** A thread in no list may take any state but ready. */
  lemma SettledPlaced(s: State, t: nat, th: Thread)
    requires Loose(s, t) && t < |s.threads|
    requires th.stat != Ready && (th.stat == Running ==> th.onCpu.Some?) && th.priority < PRIORITIES && th.bindCpu < |s.tables|
    ensures Placed(SetThread(s, t, th))
  {
    var s' := SetThread(s, t, th);
    forall k, p | 0 <= k < |s.tables| && 0 <= p < PRIORITIES ensures CellOk(s', k, p) {
      assert CellOk(s, k, p) && Absent(s, k, p, t);
    }
    forall u | 0 <= u < |s.threads| ensures ThreadOk(s', u) {
      assert u != t ==> ThreadOk(s, u);
    }
  }

  /** A thread that is not ready is in no list, and may change without leaving the lists right. */
  lemma NotReadyLoose(s: State, t: nat, th: Thread)
    requires Placed(s) && t < |s.threads| && s.threads[t].stat != Ready
    requires th.priority < PRIORITIES && th.bindCpu < |s.tables|
    ensures Loose(SetThread(s, t, th), t)
  {
    var s' := SetThread(s, t, th);
    forall k, p | 0 <= k < |s.tables| && 0 <= p < PRIORITIES ensures CellOk(s', k, p) && Absent(s', k, p, t) {
      assert CellOk(s, k, p);
    }
    forall u | 0 <= u < |s.threads| && u != t ensures ThreadOk(s', u) {
      assert ThreadOk(s, u);
    }
  }

  // ---------------------------------------------------------------- selection

  /** The number of CPUs, which also names the global lists. */
  function Cpus(s: State): nat {
    |s.current|
  }

  /** CPU `c` may run the ready thread `t`. */
  ghost predicate Eligible(s: State, c: nat, t: nat) {
    t < |s.threads| && s.threads[t].stat == Ready && (s.threads[t].bindCpu == Cpus(s) || s.threads[t].bindCpu == c)
  }

  ghost predicate NothingReady(s: State, c: nat)
    requires Shape(s) && c < Cpus(s)
  {
    Empty(s.groups[Cpus(s)]) && Empty(s.groups[c])
  }

  /** The set of lists `_scheduler_get_highest_priority_thread` takes a thread from. */
  function ChosenSet(s: State, c: nat): (k: nat)
    requires Shape(s) && c < Cpus(s)
    ensures k < |s.tables| && k < |s.groups|
  {
    if Highest(s.groups[Cpus(s)]) < Highest(s.groups[c]) then Cpus(s) else c
  }

  function ChosenPriority(s: State, c: nat): nat
    requires Shape(s) && c < Cpus(s)
  {
    Highest(s.groups[ChosenSet(s, c)])
  }

  /** If anything is ready, the chosen list is not empty. */
  lemma ChosenList(s: State, c: nat)
    requires Placed(s) && c < Cpus(s) && !NothingReady(s, c)
    ensures ChosenPriority(s, c) < PRIORITIES && s.tables[ChosenSet(s, c)][ChosenPriority(s, c)] != []
  {
    HighestIs(s.groups[Cpus(s)]);
    HighestIs(s.groups[c]);
    assert CellOk(s, ChosenSet(s, c), ChosenPriority(s, c));
  }

  /** `_scheduler_get_highest_priority_thread`. */
  ghost function Chosen(s: State, c: nat): nat
    requires Placed(s) && c < Cpus(s) && !NothingReady(s, c)
  {
    ChosenList(s, c);
    s.tables[ChosenSet(s, c)][ChosenPriority(s, c)][0]
  }

  /** The thread chosen is ready for this CPU, and no other such thread is more urgent. */
  lemma ChosenIsMostUrgent(s: State, c: nat)
    requires Placed(s) && c < Cpus(s) && !NothingReady(s, c)
    ensures Eligible(s, c, Chosen(s, c)) && s.threads[Chosen(s, c)].priority == ChosenPriority(s, c)
    ensures forall u: nat :: Eligible(s, c, u) ==> ChosenPriority(s, c) <= s.threads[u].priority
  {
    ChosenList(s, c);
    var k, p := ChosenSet(s, c), ChosenPriority(s, c);
    assert CellOk(s, k, p);
    assert Chosen(s, c) in s.tables[k][p];
    HighestIs(s.groups[Cpus(s)]);
    HighestIs(s.groups[c]);
    forall u: nat | Eligible(s, c, u) ensures p <= s.threads[u].priority {
      ReadyHasBit(s, u);
    }
  }

  lemma ReadyHasBit(s: State, u: nat)
    requires Placed(s) && u < |s.threads| && s.threads[u].stat == Ready
    ensures var th := s.threads[u];
            th.bindCpu < |s.groups| && th.priority < |s.groups[th.bindCpu]| && s.groups[th.bindCpu][th.priority]
  {
    assert ThreadOk(s, u);
    assert CellOk(s, s.threads[u].bindCpu, s.threads[u].priority);
  }

  lemma NothingIsEligible(s: State, c: nat, u: nat)
    requires Placed(s) && c < Cpus(s) && NothingReady(s, c)
    ensures !Eligible(s, c, u)
  {
    if Eligible(s, c, u) {
      ReadyHasBit(s, u);
    }
  }

  // --------------------------------------------------------------- scheduling

  /** The current thread keeps the CPU although thread of priority `p` is ready. */
  predicate Keeps(th: Thread, p: nat) {
    th.stat == Running && (th.priority < p || (th.priority == p && !th.yielding))
  }

  /** The state after the current thread `self` was taken off its CPU in favour of another. */
  function Descheduled(s: State, self: nat): State
    requires Shape(s) && self < |s.threads| && Placeable(s, self)
  {
    var off := SetThread(s, self, s.threads[self].(onCpu := None));
    if s.threads[self].stat == Running
    then var s1 := Inserted(off, self); SetThread(s1, self, s1.threads[self].(yielding := false))
    else off
  }

  /** Thread `to` leaves its list and runs on CPU `c`. */
  function Dispatched(s: State, c: nat, to: nat): State
    requires Shape(s) && to < |s.threads| && Placeable(s, to) && c < |s.current|
  {
    var s1 := Removed(s, to);
    SetThread(s1, to, s.threads[to].(stat := Running, onCpu := Some(c))).(current := s.current[c := Some(to)])
  }

  lemma DescheduledPlaced(s: State, self: nat)
    requires Placed(s) && self < |s.threads| && s.threads[self].stat != Ready
    ensures Placeable(s, self) && Placed(Descheduled(s, self)) && |Descheduled(s, self).threads| == |s.threads|
    ensures forall u :: 0 <= u < |s.threads| && u != self ==> Descheduled(s, self).threads[u] == s.threads[u]
    ensures var th, th' := s.threads[self], Descheduled(s, self).threads[self];
            th'.onCpu == None && th'.priority == th.priority && th'.bindCpu == th.bindCpu
            && th'.stat == if th.stat == Running then Ready else th.stat
    ensures Descheduled(s, self).current == s.current
  {
    assert ThreadOk(s, self);
    var th := s.threads[self].(onCpu := None);
    NotReadyLoose(s, self, th);
    var off := SetThread(s, self, th);
    if s.threads[self].stat == Running {
      InsertedPlaced(off, self);
      FlagPlaced(Inserted(off, self), self);
    } else {
      SettledPlaced(off, self, th);
      assert SetThread(off, self, th) == off;
    }
  }

  /** The yield flag plays no part in where a thread must be. */
  lemma FlagPlaced(s: State, t: nat)
    requires Placed(s) && t < |s.threads|
    ensures Placed(SetThread(s, t, s.threads[t].(yielding := false)))
  {
    var s' := SetThread(s, t, s.threads[t].(yielding := false));
    forall k, p | 0 <= k < |s.tables| && 0 <= p < PRIORITIES ensures CellOk(s', k, p) {
      assert CellOk(s, k, p);
    }
    forall u | 0 <= u < |s.threads| ensures ThreadOk(s', u) {
      assert ThreadOk(s, u);
    }
  }

  lemma DispatchedPlaced(s: State, c: nat, to: nat)
    requires Placed(s) && to < |s.threads| && c < |s.current|
    ensures Placeable(s, to) && Placed(Dispatched(s, c, to))
  {
    assert ThreadOk(s, to);
    RemovedLoose(s, to);
    var th := s.threads[to].(stat := Running, onCpu := Some(c));
    SettledPlaced(Removed(s, to), to, th);
    var s1 := SetThread(Removed(s, to), to, th);
    var s' := Dispatched(s, c, to);
    forall k, p | 0 <= k < |s.tables| && 0 <= p < PRIORITIES ensures CellOk(s', k, p) {
      assert CellOk(s1, k, p);
    }
    forall u | 0 <= u < |s.threads| ensures ThreadOk(s', u) {
      assert ThreadOk(s1, u);
    }
  }

  /** `rt_schedule` on CPU `c` with the scheduler unlocked. */
  ghost function Scheduled(s: State, c: nat): State
    requires Inv(s) && c < Cpus(s) && s.current[c].Some?
  {
    if NothingReady(s, c) then s
    else
      assert CpuOk(s, c);
      var self, to := s.current[c].value, Chosen(s, c);
      assert OnOk(s, self);
      ChosenIsMostUrgent(s, c);
      assert ThreadOk(s, self) && ThreadOk(s, to);
      if Keeps(s.threads[self], ChosenPriority(s, c))
      then SetThread(s, self, s.threads[self].(yielding := false, onCpu := Some(c)))
      else DescheduledPlaced(s, self); Dispatched(Descheduled(s, self), c, to)
  }

  /** The thread CPU `c` runs is at least as urgent as every ready thread it may run. */
  ghost predicate MostUrgent(s: State, c: nat) {
    && c < Cpus(s) && s.current[c].Some? && s.current[c].value < |s.threads|
    && forall u: nat :: Eligible(s, c, u) ==> s.threads[s.current[c].value].priority <= s.threads[u].priority
  }

  /** Detaching and attaching keeps `onCpu` and `current` in agreement. */
  lemma ScheduledAttached(s: State, s1: State, c: nat, self: nat, to: nat)
    requires Attached(s) && Placed(s1) && c < Cpus(s) && s.current[c] == Some(self) && self < |s.threads| && to < |s.threads| && to != self
    requires s1.current == s.current && |s1.threads| == |s.threads| && s1.threads[self].onCpu == None
    requires forall u :: 0 <= u < |s.threads| && u != self ==> s1.threads[u] == s.threads[u]
    requires s.threads[to].onCpu.None? && Placeable(s1, to)
    ensures Attached(Dispatched(s1, c, to))
  {
    var s' := Dispatched(s1, c, to);
    forall u | 0 <= u < |s.threads| ensures OnOk(s', u) {
      assert OnOk(s, u);
    }
    forall d | 0 <= d < |s.current| ensures CpuOk(s', d) {
      assert CpuOk(s, d) && CpuOk(s, c);
    }
  }

  lemma KeptInv(s: State, c: nat, self: nat)
    requires Inv(s) && c < Cpus(s) && s.current[c] == Some(self) && self < |s.threads|
    ensures Inv(SetThread(s, self, s.threads[self].(yielding := false, onCpu := Some(c))))
  {
    assert CpuOk(s, c) && ThreadOk(s, self);
    FlagPlaced(s, self);
    var s' := SetThread(s, self, s.threads[self].(yielding := false));
    forall u | 0 <= u < |s.threads| ensures OnOk(s', u) {
      assert OnOk(s, u);
    }
    forall d | 0 <= d < |s.current| ensures CpuOk(s', d) {
      assert CpuOk(s, d);
    }
  }

  /** Scheduling keeps the queues, bitmaps and CPUs consistent. */
  lemma ScheduledInv(s: State, c: nat)
    requires Inv(s) && c < Cpus(s) && s.current[c].Some?
    ensures Inv(Scheduled(s, c)) && |Scheduled(s, c).threads| == |s.threads| && |Scheduled(s, c).current| == |s.current|
  {
    if !NothingReady(s, c) {
      assert CpuOk(s, c);
      var self, to := s.current[c].value, Chosen(s, c);
      ChosenIsMostUrgent(s, c);
      assert ThreadOk(s, self) && ThreadOk(s, to);
      if Keeps(s.threads[self], ChosenPriority(s, c)) {
        KeptInv(s, c, self);
      } else {
        DescheduledPlaced(s, self);
        DispatchedPlaced(Descheduled(s, self), c, to);
        ScheduledAttached(s, Descheduled(s, self), c, self, to);
      }
    }
  }

  /**
   After `rt_schedule` the CPU runs a thread at least as urgent as every ready thread it may run,
   and the thread is in the running state unless it was not and nothing was ready.
   */
  lemma ScheduledMostUrgent(s: State, c: nat)
    requires Inv(s) && c < Cpus(s) && s.current[c].Some? && s.current[c].value < |s.threads|
    ensures MostUrgent(Scheduled(s, c), c)
    ensures var s' := Scheduled(s, c);
            s'.threads[s'.current[c].value].stat == Running <==>
            s.threads[s.current[c].value].stat == Running || !NothingReady(s, c)
  {
    assert CpuOk(s, c);
    var self := s.current[c].value;
    var s' := Scheduled(s, c);
    if NothingReady(s, c) {
      forall u: nat | Eligible(s, c, u) ensures false {
        NothingIsEligible(s, c, u);
      }
    } else {
      ChosenIsMostUrgent(s, c);
      assert ThreadOk(s, self);
      DescheduledPlaced(s, self);
      forall u: nat | Eligible(s', c, u)
        ensures s'.threads[s'.current[c].value].priority <= s'.threads[u].priority
      {
        assert u != self ==> Eligible(s, c, u);
      }
    }
  }

  /** The current thread `th` is not to leave its CPU for the ready thread `u`. */
  ghost predicate Stays(th: Thread, u: Thread) {
    th.stat == Running && (th.priority < u.priority || (th.priority == u.priority && !th.yielding))
  }

  /**
   The current thread keeps its CPU exactly if no ready thread may run there that is more urgent, or as
   urgent while it yields; one that does not run any more keeps it only if no thread is ready at all.
   */
  lemma WhoRuns(s: State, c: nat, self: nat)
    requires Inv(s) && c < |s.current| && s.current[c] == Some(self) && self < |s.threads|
    ensures Scheduled(s, c).current[c] == Some(self) <==>
            forall u: nat :: Eligible(s, c, u) ==> Stays(s.threads[self], s.threads[u])
  {
    assert CpuOk(s, c) && ThreadOk(s, self);
    if NothingReady(s, c) {
      forall u: nat | Eligible(s, c, u) ensures false {
        NothingIsEligible(s, c, u);
      }
    } else {
      ChosenIsMostUrgent(s, c);
      DescheduledPlaced(s, self);
    }
  }

  /**
   Scheduling touches only the thread that leaves the CPU and the one that comes: the first was
   running and becomes ready, unless it was asleep already; the second was ready for this CPU.
   */
  lemma ScheduledOthers(s: State, c: nat, self: nat)
    requires Inv(s) && c < Cpus(s) && s.current[c] == Some(self) && self < |s.threads|
    ensures var s' := Scheduled(s, c);
            && |s'.threads| == |s.threads| && |s'.current| == |s.current|
            && (forall d :: 0 <= d < |s.current| && d != c ==> s'.current[d] == s.current[d])
            && s'.current[c].Some? && s'.current[c].value < |s.threads|
            && var to := s'.current[c].value;
               && (forall u :: 0 <= u < |s.threads| && u != self && u != to ==> s'.threads[u] == s.threads[u])
               && (to != self ==> Eligible(s, c, to) && s'.threads[to].stat == Running && s'.threads[to].onCpu == Some(c))
               && (to != self ==> s'.threads[self].onCpu == None)
               && (to != self ==> s'.threads[self].stat == if s.threads[self].stat == Running then Ready else s.threads[self].stat)
               && (to == self ==> s'.threads[self].stat == s.threads[self].stat)
  {
    if !NothingReady(s, c) {
      assert CpuOk(s, c);
      ChosenIsMostUrgent(s, c);
      assert ThreadOk(s, self);
      DescheduledPlaced(s, self);
    }
  }

  /** A thread that yields gives way to an equally urgent ready thread and queues behind its equals. */
  lemma YieldGivesWay(s: State, c: nat, self: nat)
    requires Inv(s) && c < Cpus(s) && s.current[c] == Some(self) && self < |s.threads|
    requires s.threads[self].stat == Running && s.threads[self].yielding
    requires !NothingReady(s, c) && s.threads[self].priority == ChosenPriority(s, c)
    ensures Placed(s) && Scheduled(s, c).current[c] == Some(Chosen(s, c)) && Chosen(s, c) != self
    ensures Placeable(s, self)
    ensures var th := s.threads[self];
            var q := Descheduled(s, self).tables[th.bindCpu][th.priority];
            q != [] && q[|q| - 1] == self
  {
    assert CpuOk(s, c) && ThreadOk(s, self);
    ChosenIsMostUrgent(s, c);
  }

  // ------------------------------------------------------- the other changes

  /** The threads' CPUs are the same. */
  lemma SameAttached(s: State, s': State)
    requires Attached(s) && s'.current == s.current && |s'.threads| == |s.threads|
    requires forall u :: 0 <= u < |s.threads| ==> s'.threads[u].onCpu == s.threads[u].onCpu
    ensures Attached(s')
  {
    forall u | 0 <= u < |s.threads| ensures OnOk(s', u) {
      assert OnOk(s, u);
    }
    forall d | 0 <= d < |s.current| ensures CpuOk(s', d) {
      assert CpuOk(s, d);
    }
  }

  /** A thread leaves its list until it is resumed. */
  lemma StoppedInv(s: State, t: nat)
    requires Inv(s) && t < |s.threads|
    ensures Placeable(s, t) && Inv(SetThread(Removed(s, t), t, s.threads[t].(stat := Suspended)))
  {
    assert ThreadOk(s, t);
    RemovedLoose(s, t);
    SettledPlaced(Removed(s, t), t, s.threads[t].(stat := Suspended));
    SameAttached(s, SetThread(Removed(s, t), t, s.threads[t].(stat := Suspended)));
  }

  /** The state after `rt_thread_detach`. */
  function Detached(s: State, t: nat): State
    requires Shape(s) && t < |s.threads| && Placeable(s, t)
  {
    if s.threads[t].stat == Closed then s
    else SetThread(if s.threads[t].stat == Init then s else Removed(s, t), t, s.threads[t].(stat := Closed, yielding := false))
  }

  /** A closed thread is on no list; nobody else is touched. */
  lemma DetachedInv(s: State, t: nat)
    requires Inv(s) && t < |s.threads|
    ensures Placeable(s, t) && Inv(Detached(s, t))
    ensures |Detached(s, t).tables| == |s.tables| && |Detached(s, t).threads| == |s.threads|
    ensures forall k, p :: 0 <= k < |s.tables| && 0 <= p < PRIORITIES ==> Absent(Detached(s, t), k, p, t)
    ensures forall u :: 0 <= u < |s.threads| && u != t ==> Detached(s, t).threads[u] == s.threads[u]
  {
    assert ThreadOk(s, t);
    var th := s.threads[t].(stat := Closed, yielding := false);
    if s.threads[t].stat == Init {
      QuietInv(s, t, th);
    } else if s.threads[t].stat != Closed {
      RemovedLoose(s, t);
      SettledPlaced(Removed(s, t), t, th);
      SameAttached(s, SetThread(Removed(s, t), t, th));
    }
    NotReadyLoose(Detached(s, t), t, Detached(s, t).threads[t]);
    forall k, p | 0 <= k < |s.tables| && 0 <= p < PRIORITIES ensures Absent(Detached(s, t), k, p, t) {
      assert Absent(SetThread(Detached(s, t), t, Detached(s, t).threads[t]), k, p, t);
    }
  }

  /** A thread that is not ready becomes ready, or running if it never left its CPU. */
  lemma ResumedInv(s: State, t: nat)
    requires Inv(s) && t < |s.threads| && s.threads[t].stat != Ready
    ensures Placeable(s, t) && Inv(Inserted(s, t))
  {
    assert ThreadOk(s, t);
    NotReadyLoose(s, t, s.threads[t]);
    assert SetThread(s, t, s.threads[t]) == s;
    InsertedPlaced(s, t);
    SameAttached(s, Inserted(s, t));
  }

  /** RT_THREAD_CTRL_CHANGE_PRIORITY. */
  function Reprioritized(s: State, t: nat, p: nat): State
    requires Shape(s) && t < |s.threads| && Placeable(s, t) && p < PRIORITIES
  {
    if s.threads[t].stat == Ready
    then Inserted(SetThread(Removed(s, t), t, s.threads[t].(priority := p)), t)
    else SetThread(s, t, s.threads[t].(priority := p))
  }

  lemma ReprioritizedInv(s: State, t: nat, p: nat)
    requires Inv(s) && t < |s.threads| && p < PRIORITIES
    ensures Placeable(s, t) && Inv(Reprioritized(s, t, p))
  {
    assert ThreadOk(s, t);
    var th := s.threads[t].(priority := p);
    if s.threads[t].stat == Ready {
      RemovedLoose(s, t);
      MovedLoose(Removed(s, t), t, th);
      InsertedPlaced(SetThread(Removed(s, t), t, th), t);
    } else {
      NotReadyLoose(s, t, th);
      SettledPlaced(SetThread(s, t, th), t, th);
      assert SetThread(SetThread(s, t, th), t, th) == SetThread(s, t, th);
    }
    SameAttached(s, Reprioritized(s, t, p));
  }

  lemma MovedLoose(s: State, t: nat, th: Thread)
    requires Loose(s, t) && t < |s.threads| && th.priority < PRIORITIES && th.bindCpu < |s.tables|
    ensures Loose(SetThread(s, t, th), t)
  {
    var s' := SetThread(s, t, th);
    forall k, p | 0 <= k < |s.tables| && 0 <= p < PRIORITIES ensures CellOk(s', k, p) && Absent(s', k, p, t) {
      assert CellOk(s, k, p) && Absent(s, k, p, t);
    }
    forall u | 0 <= u < |s.threads| && u != t ensures ThreadOk(s', u) {
      assert ThreadOk(s, u);
    }
  }

  lemma SameUpdate<T>(q: seq<T>, i: nat, x: T)
    requires i < |q| && q[i] == x
    ensures q[i := x] == q
  {
  }

  // ----------------------------------------------------------------- the code

  class Scheduler {
    var threads: seq<Thread>
    var tables: seq<seq<seq<nat>>>
    var groups: seq<seq<bool>>
    var current: seq<Option<nat>>

    ghost function View(): State
      reads this
    {
      State(threads, tables, groups, current)
    }

    /** `rt_system_scheduler_init` for `cpus` CPUs, with `n` threads not started yet. */
    constructor (cpus: nat, n: nat)
      ensures Inv(View()) && |threads| == n && |current| == cpus
      ensures forall t :: 0 <= t < n ==> threads[t] == Thread(Init, false, PRIORITIES - 1, cpus, None)
      ensures forall c :: 0 <= c < cpus ==> current[c] == None
    {
      threads := seq(n, _ => Thread(Init, false, PRIORITIES - 1, cpus, None));
      tables := seq(cpus + 1, _ => seq(PRIORITIES, _ => []));
      groups := seq(cpus + 1, _ => seq(PRIORITIES, _ => false));
      current := seq(cpus, _ => None);
      new;
      forall k, p | 0 <= k < |tables| && 0 <= p < PRIORITIES ensures CellOk(View(), k, p) {
      }
      forall t | 0 <= t < |threads| ensures ThreadOk(View(), t) && OnOk(View(), t) {
      }
      forall c | 0 <= c < |current| ensures CpuOk(View(), c) {
      }
    }

    /** `rt_schedule_insert_thread`. */
    method InsertThread(t: nat)
      requires Shape(View()) && t < |threads| && Placeable(View(), t)
      modifies this`threads, this`tables, this`groups
      ensures View() == Inserted(old(View()), t)
    {
      if threads[t].onCpu.Some? {
        threads := threads[t := threads[t].(stat := Running)];
        return;
      }
      threads := threads[t := threads[t].(stat := Ready)];
      var k, p := threads[t].bindCpu, threads[t].priority;
      groups := groups[k := groups[k][p := true]];
      var q := tables[k][p];
      q := if threads[t].yielding then q + [t] else [t] + q;
      tables := tables[k := tables[k][p := q]];
    }

    /** `rt_schedule_remove_thread`. */
    method RemoveThread(t: nat)
      requires Placed(View()) && t < |threads|
      modifies this`tables, this`groups
      ensures Placeable(old(View()), t) && View() == Removed(old(View()), t)
    {
      assert ThreadOk(View(), t);
      var k, p := threads[t].bindCpu, threads[t].priority;
      assert CellOk(View(), k, p);
      tables := tables[k := tables[k][p := Without(tables[k][p], t)]];
      if tables[k][p] == [] {
        groups := groups[k := groups[k][p := false]];
      } else {
        SameUpdate(groups[k], p, true);
        SameUpdate(groups, k, groups[k]);
      }
    }

    /** `_scheduler_get_highest_priority_thread` on CPU `c`. */
    method GetHighest(c: nat) returns (to: nat, priority: nat)
      requires Placed(View()) && c < |current| && !NothingReady(View(), c)
      ensures to == Chosen(View(), c) && priority == ChosenPriority(View(), c)
      ensures Eligible(View(), c, to) && threads[to].priority == priority
      ensures forall u: nat :: Eligible(View(), c, u) ==> priority <= threads[u].priority
    {
      ChosenIsMostUrgent(View(), c);
      ChosenList(View(), c);
      var global, local := Highest(groups[|current|]), Highest(groups[c]);
      if global < local {
        priority := global;
        to := tables[|current|][global][0];
      } else {
        priority := local;
        to := tables[c][local][0];
      }
    }

    method IsEmpty(g: seq<bool>) returns (r: bool)
      requires |g| == PRIORITIES
      ensures r <==> Empty(g)
    {
      FfsIs(g, 0);
      r := Ffs(g) == 0;
    }

    /** `rt_schedule` on CPU `c`, outside interrupts and with the scheduler unlocked. */
    method Schedule(c: nat)
      requires Inv(View()) && c < |current| && current[c].Some?
      modifies this
      ensures Inv(View()) && View() == Scheduled(old(View()), c) && MostUrgent(View(), c)
      ensures |threads| == |old(threads)| && |current| == |old(current)|
      ensures old(current)[c].value < |threads|
      ensures current[c] == old(current)[c] <==> forall u: nat :: Eligible(old(View()), c, u) ==>
                Stays(old(threads)[old(current)[c].value], old(threads)[u])
    {
      ScheduledInv(View(), c);
      assert CpuOk(View(), c);
      WhoRuns(View(), c, current[c].value);
      ScheduledMostUrgent(View(), c);
      var noGlobal := IsEmpty(groups[|current|]);
      var noLocal := IsEmpty(groups[c]);
      if !noGlobal || !noLocal {
        Switch(c);
      }
    }

    /** The switch of `rt_schedule`, when something is ready. */
    method Switch(c: nat)
      requires Inv(View()) && c < |current| && current[c].Some? && !NothingReady(View(), c)
      modifies this
      ensures View() == Scheduled(old(View()), c)
    {
      assert CpuOk(View(), c);
      var self := current[c].value;
      var to, priority := GetHighest(c);
      assert ThreadOk(View(), self) && ThreadOk(View(), to);
      DescheduledPlaced(View(), self);
      if threads[self].stat == Running &&
         (threads[self].priority < priority || (threads[self].priority == priority && !threads[self].yielding)) {
        threads := threads[self := threads[self].(onCpu := None, yielding := false)];
        threads := threads[self := threads[self].(onCpu := Some(c))];
      } else {
        TakeOff(self);
        PutOn(c, to);
      }
    }

    /** Take the current thread off its CPU. */
    method TakeOff(self: nat)
      requires Placed(View()) && self < |threads| && Placeable(View(), self) && threads[self].stat != Ready
      modifies this`threads, this`tables, this`groups
      ensures View() == Descheduled(old(View()), self)
    {
      var running := threads[self].stat == Running;
      threads := threads[self := threads[self].(onCpu := None)];
      if running {
        InsertThread(self);
        threads := threads[self := threads[self].(yielding := false)];
      }
    }

    /** Let CPU `c` run `to`. */
    method PutOn(c: nat, to: nat)
      requires Placed(View()) && to < |threads| && Placeable(View(), to) && c < |current|
      modifies this
      ensures View() == Dispatched(old(View()), c, to)
    {
      RemoveThread(to);
      threads := threads[to := threads[to].(onCpu := Some(c), stat := Running)];
      current := current[c := Some(to)];
    }

    // -------------------------------------------------------------------- start

    /** `rt_thread_startup`, called on CPU `c`, which schedules if it runs a thread already. */
    method Startup(t: nat, c: nat)
      requires Inv(View()) && t < |threads| && threads[t].stat == Init && c < |current|
      modifies this
      ensures Inv(View()) && |threads| == |old(threads)| && |current| == |old(current)|
      ensures Placeable(old(View()), t) && Inv(MadeReady(old(View()), t))
      ensures current[c].Some? ==> MostUrgent(View(), c)
      ensures View() == if old(current)[c].Some? then Scheduled(MadeReady(old(View()), t), c) else MadeReady(old(View()), t)
    {
      MadeReadyInv(View(), t);
      threads := threads[t := threads[t].(stat := Suspended, yielding := false)];
      var ok := Resume(t);
      if current[c].Some? {
        Schedule(c);
      }
    }

    /** `rt_system_scheduler_start` on CPU `c`, which has run no thread yet. */
    method Start(c: nat)
      requires Inv(View()) && c < |current| && current[c].None? && !NothingReady(View(), c)
      modifies this
      ensures Inv(View()) && View() == Started(old(View()), c) && MostUrgent(View(), c)
      ensures current == old(current)[c := current[c]] && |threads| == |old(threads)|
      ensures Eligible(old(View()), c, current[c].value) && threads[current[c].value].stat == Running
      ensures forall u :: 0 <= u < |threads| && u != current[c].value ==> threads[u] == old(threads)[u]
    {
      StartedInv(View(), c);
      var to, priority := GetHighest(c);
      assert ThreadOk(View(), to);
      PutOn(c, to);
      threads := threads[to := threads[to].(yielding := false)];
    }

    /** `rt_thread_yield`. */
    method Yield(c: nat)
      requires Inv(View()) && c < |current| && current[c].Some? && current[c].value < |threads|
      modifies this
      ensures Inv(View()) && MostUrgent(View(), c)
      ensures Inv(Flagged(old(View()), old(current)[c].value)) && View() == Scheduled(Flagged(old(View()), old(current)[c].value), c)
      ensures current[c] == old(current)[c] <==> forall u: nat :: Eligible(old(View()), c, u) ==>
                old(threads)[old(current)[c].value].stat == Running &&
                old(threads)[old(current)[c].value].priority < old(threads)[u].priority
    {
      var self := current[c].value;
      YieldingInv(View(), self);
      assert CpuOk(View(), c) && ThreadOk(View(), self);
      ghost var was, now := View(), Flagged(View(), self);
      assert forall u: nat :: Eligible(was, c, u) ==> Eligible(now, c, u) && u != self;
      assert forall u: nat :: Eligible(now, c, u) ==> Eligible(was, c, u);
      threads := threads[self := threads[self].(yielding := true)];
      Schedule(c);
    }

    /** `rt_thread_suspend`; `ok` says whether the thread was ready or running. */
    method Suspend(t: nat) returns (ok: bool)
      requires Inv(View()) && t < |threads|
      modifies this`threads, this`tables, this`groups
      ensures Inv(View()) && ok == (old(threads)[t].stat == Ready || old(threads)[t].stat == Running)
      ensures threads == if ok then old(threads)[t := old(threads)[t].(stat := Suspended)] else old(threads)
      ensures Placeable(old(View()), t) && tables == if ok then Removed(old(View()), t).tables else old(tables)
      ensures !ok ==> View() == old(View())
    {
      ok := threads[t].stat == Ready || threads[t].stat == Running;
      assert ThreadOk(View(), t);
      if ok {
        StoppedInv(View(), t);
        RemoveThread(t);
        threads := threads[t := threads[t].(stat := Suspended)];
      }
    }

    /** `rt_thread_detach`: a thread that was started leaves its list; a running one keeps its CPU until it schedules. */
    method Detach(t: nat)
      requires Inv(View()) && t < |threads|
      modifies this`threads, this`tables, this`groups
      ensures Inv(View()) && |threads| == |old(threads)| && threads[t].stat == Closed
      ensures Placeable(old(View()), t) && View() == Detached(old(View()), t)
    {
      DetachedInv(View(), t);
      if threads[t].stat == Closed {
        return;
      }
      if threads[t].stat != Init {
        RemoveThread(t);
      }
      threads := threads[t := threads[t].(stat := Closed, yielding := false)];
    }

    /**
     `rt_scheduler_do_irq_switch` on CPU `c`: `asked` is its `irq_switch_flag`, and `free` says that the current
     thread holds no scheduler lock and no interrupt is nested.
     */
    method IrqSwitch(c: nat, asked: bool, free: bool)
      requires Inv(View()) && c < |current| && current[c].Some?
      modifies this
      ensures Inv(View()) && View() == if asked && free then Scheduled(old(View()), c) else old(View())
      ensures asked && free ==> MostUrgent(View(), c)
    {
      if asked && free {
        Schedule(c);
      }
    }

    /** `rt_thread_resume`: a thread that never left its CPU goes on running, any other becomes ready. */
    method Resume(t: nat) returns (ok: bool)
      requires Inv(View()) && t < |threads|
      modifies this`threads, this`tables, this`groups
      ensures Inv(View()) && ok == (old(threads)[t].stat == Suspended) && Placeable(old(View()), t)
      ensures View() == if ok then Inserted(old(View()), t) else old(View())
      ensures threads == if ok then old(threads)[t := old(threads)[t].(stat := if old(threads)[t].onCpu.Some? then Running else Ready)]
                         else old(threads)
    {
      ok := threads[t].stat == Suspended;
      assert ThreadOk(View(), t);
      if ok {
        ResumedInv(View(), t);
        InsertThread(t);
      }
    }

    /** RT_THREAD_CTRL_CHANGE_PRIORITY. */
    method ChangePriority(t: nat, p: nat)
      requires Inv(View()) && t < |threads| && p < PRIORITIES
      modifies this`threads, this`tables, this`groups
      ensures Inv(View()) && Placeable(old(View()), t) && View() == Reprioritized(old(View()), t, p)
      ensures threads == old(threads)[t := old(threads)[t].(priority := p)]
    {
      ReprioritizedInv(View(), t, p);
      assert ThreadOk(View(), t);
      if threads[t].stat == Ready {
        RemoveThread(t);
        threads := threads[t := threads[t].(priority := p)];
        InsertThread(t);
        assert threads == old(threads)[t := old(threads)[t].(priority := p)];
      } else {
        threads := threads[t := threads[t].(priority := p)];
      }
    }

    /** RT_THREAD_CTRL_BIND_CPU: only before the thread is started. */
    method Bind(t: nat, cpu: nat) returns (ok: bool)
      requires Inv(View()) && t < |threads|
      modifies this`threads
      ensures Inv(View()) && ok == (old(threads)[t].stat == Init)
      ensures threads == if ok then old(threads)[t := old(threads)[t].(bindCpu := if cpu > |current| then |current| else cpu)]
                         else old(threads)
    {
      ok := threads[t].stat == Init;
      if ok {
        assert ThreadOk(View(), t);
        QuietInv(View(), t, threads[t].(bindCpu := if cpu > |current| then |current| else cpu));
        threads := threads[t := threads[t].(bindCpu := if cpu > |current| then |current| else cpu)];
      }
    }
  }

  /** A thread that is not ready may change in any way that leaves it off the ready lists and on its CPU. */
  lemma QuietInv(s: State, t: nat, th: Thread)
    requires Inv(s) && t < |s.threads| && s.threads[t].stat != Ready && th.stat != Ready
    requires th.onCpu == s.threads[t].onCpu && (th.stat == Running ==> th.onCpu.Some?)
    requires th.priority < PRIORITIES && th.bindCpu < |s.tables|
    ensures Inv(SetThread(s, t, th))
  {
    NotReadyLoose(s, t, th);
    SettledPlaced(SetThread(s, t, th), t, th);
    assert SetThread(SetThread(s, t, th), t, th) == SetThread(s, t, th);
    SameAttached(s, SetThread(s, t, th));
  }

  /** The state after `rt_system_scheduler_start` on CPU `c`. */
  ghost function Started(s: State, c: nat): State
    requires Inv(s) && c < Cpus(s) && !NothingReady(s, c)
  {
    ChosenIsMostUrgent(s, c);
    var to := Chosen(s, c);
    assert ThreadOk(s, to);
    var s1 := Dispatched(s, c, to);
    SetThread(s1, to, s1.threads[to].(yielding := false))
  }

  /** Starting a CPU keeps everything consistent and lets it run a most urgent thread. */
  lemma StartedInv(s: State, c: nat)
    requires Inv(s) && c < Cpus(s) && s.current[c].None? && !NothingReady(s, c)
    ensures Inv(Started(s, c)) && MostUrgent(Started(s, c), c)
    ensures |Started(s, c).threads| == |s.threads|
    ensures var to := Started(s, c).current[c].value;
            Eligible(s, c, to) && Started(s, c).threads[to].stat == Running
            && Started(s, c).current == s.current[c := Some(to)]
            && (forall u :: 0 <= u < |s.threads| && u != to ==> Started(s, c).threads[u] == s.threads[u])
  {
    ChosenIsMostUrgent(s, c);
    var to := Chosen(s, c);
    assert ThreadOk(s, to);
    DispatchedPlaced(s, c, to);
    var s1, s' := Dispatched(s, c, to), Started(s, c);
    FlagPlaced(s1, to);
    forall u | 0 <= u < |s.threads| ensures OnOk(s', u) {
      assert OnOk(s, u);
    }
    forall d | 0 <= d < |s.current| ensures CpuOk(s', d) {
      assert CpuOk(s, d);
    }
    forall u: nat | Eligible(s', c, u) ensures s'.threads[to].priority <= s'.threads[u].priority {
      assert Eligible(s, c, u);
    }
  }

  /** The state after `rt_thread_startup` put the thread on its list, before any scheduling. */
  function MadeReady(s: State, t: nat): State
    requires Shape(s) && t < |s.threads| && Placeable(s, t)
  {
    Inserted(SetThread(s, t, s.threads[t].(stat := Suspended, yielding := false)), t)
  }

  lemma MadeReadyInv(s: State, t: nat)
    requires Inv(s) && t < |s.threads| && s.threads[t].stat == Init
    ensures Placeable(s, t) && Inv(SetThread(s, t, s.threads[t].(stat := Suspended, yielding := false))) && Inv(MadeReady(s, t))
  {
    assert ThreadOk(s, t);
    var th := s.threads[t].(stat := Suspended, yielding := false);
    QuietInv(s, t, th);
    ResumedInv(SetThread(s, t, th), t);
  }

  /** Thread `t` is marked as yielding. */
  function Flagged(s: State, t: nat): State
    requires t < |s.threads|
  {
    SetThread(s, t, s.threads[t].(yielding := true))
  }

  lemma YieldingInv(s: State, t: nat)
    requires Inv(s) && t < |s.threads|
    ensures Inv(Flagged(s, t))
  {
    var s' := Flagged(s, t);
    forall k, p | 0 <= k < |s.tables| && 0 <= p < PRIORITIES ensures CellOk(s', k, p) {
      assert CellOk(s, k, p);
    }
    forall u | 0 <= u < |s.threads| ensures ThreadOk(s', u) {
      assert ThreadOk(s, u);
    }
    SameAttached(s, s');
  }

  // ---------------------------------------------------------------------- boot

  /** CPU `c` runs nothing yet and thread `c`, bound to it, is ready. */
  ghost predicate Waiting(s: State, c: nat) {
    && c < |s.current| && s.current[c].None?
    && c < |s.threads| && s.threads[c].stat == Ready && s.threads[c].onCpu.None? && s.threads[c].bindCpu == c
  }

  lemma WaitingIsReady(s: State, c: nat)
    requires Inv(s) && Waiting(s, c)
    ensures !NothingReady(s, c)
  {
    assert Eligible(s, c, c);
    if NothingReady(s, c) {
      NothingIsEligible(s, c, c);
    }
  }

  /**
   From power-on to every CPU running: an idle thread is bound to each CPU and started, as in
   `rt_thread_idle_init`, then the CPUs start one after the other.
   */
  method Boot(cpus: nat, n: nat) returns (s: Scheduler)
    requires cpus <= n
    ensures fresh(s) && Inv(s.View()) && |s.threads| == n && |s.current| == cpus
    ensures forall c :: 0 <= c < cpus ==> s.current[c].Some?
  {
    s := new Scheduler(cpus, n);
    StartIdle(s);
    var c := 0;
    while c < cpus
      invariant 0 <= c <= cpus && Inv(s.View()) && |s.threads| == n && |s.current| == cpus
      invariant forall d :: 0 <= d < c ==> s.current[d].Some?
      invariant forall d :: c <= d < cpus ==> Waiting(s.View(), d)
    {
      assert Waiting(s.View(), c);
      WaitingIsReady(s.View(), c);
      ghost var before := s.View();
      s.Start(c);
      forall d | c < d < cpus ensures Waiting(s.View(), d) {
        assert Waiting(before, d) && !Eligible(before, c, d);
      }
      c := c + 1;
    }
  }

  /** Bind thread `i` to CPU `i` and make it ready, for every CPU; nothing runs yet. */
  method StartIdle(s: Scheduler)
    requires Inv(s.View()) && |s.current| <= |s.threads|
    requires forall c :: 0 <= c < |s.current| ==> s.current[c].None?
    requires forall t :: 0 <= t < |s.threads| ==> s.threads[t].stat == Init && s.threads[t].onCpu.None?
    modifies s
    ensures Inv(s.View()) && s.current == old(s.current) && |s.threads| == |old(s.threads)|
    ensures forall c :: 0 <= c < |s.current| ==> Waiting(s.View(), c)
  {
    var i := 0;
    while i < |s.current|
      invariant 0 <= i <= |s.current| && Inv(s.View()) && s.current == old(s.current) && |s.threads| == |old(s.threads)|
      invariant forall c :: 0 <= c < i ==> Waiting(s.View(), c)
      invariant forall t :: i <= t < |s.threads| ==> s.threads[t].stat == Init && s.threads[t].onCpu.None?
    {
      ghost var before := s.View();
      StartBound(s, i);
      forall c | 0 <= c <= i ensures Waiting(s.View(), c) {
        assert c < i ==> Waiting(before, c);
      }
      i := i + 1;
    }
  }

  /** Bind thread `i` to CPU `i`, which runs nothing, and start it. */
  method StartBound(s: Scheduler, i: nat)
    requires Inv(s.View()) && i < |s.current| && s.current[i].None?
    requires i < |s.threads| && s.threads[i].stat == Init && s.threads[i].onCpu.None?
    modifies s
    ensures Inv(s.View()) && s.current == old(s.current) && |s.threads| == |old(s.threads)| && Waiting(s.View(), i)
    ensures forall u :: 0 <= u < |s.threads| && u != i ==> s.threads[u] == old(s.threads)[u]
  {
    var ok := s.Bind(i, i);
    MadeReadyInv(s.View(), i);
    s.Startup(i, i);
  }
}
