/** The hard timers of rt-thread/src/timer.c: start, stop, the tick check and the next timeout. */
module Timers {
  import opened Base
  import opened TimerRows

  /** A timer object; `timeoutTick` is its deadline modulo 2^32. */
  datatype Timer = Timer(initTick: nat, timeoutTick: nat, periodic: bool, active: bool)

  /** How many rows a timer started as number `nr` is linked into, at most `levels`. */
  function Height(nr: nat, levels: nat): (h: nat)
    ensures 1 <= h <= levels || (levels == 0 && h == 1)
  {
    if levels <= 1 || nr % 4 != 0 then 1 else 1 + Height(nr / 4, levels - 1)
  }

  function Pow4(j: nat): (r: nat)
    ensures r > 0
  {
    if j == 0 then 1 else 4 * Pow4(j - 1)
  }

  /** A timer reaches the row `j` above the lowest exactly if its number is a multiple of 4^j. */
  lemma {:induction false} HeightIs(nr: nat, levels: nat, j: nat)
    requires j < levels
    ensures j < Height(nr, levels) <==> nr % Pow4(j) == 0
    decreases j
  {
    if j > 0 {
      HeightIs(nr / 4, levels - 1, j - 1);
      MultipleOfProduct(nr, Pow4(j - 1));
    }
  }

  lemma MultipleOfProduct(n: nat, m: nat)
    requires m > 0
    ensures n % (4 * m) == 0 <==> n % 4 == 0 && n / 4 % m == 0
  {
    var q := n / (4 * m);
    if n % (4 * m) == 0 {
      assert n == 4 * (q * m);
      assert n / 4 == q * m;
      MultipleIs(n / 4, m, q);
    }
    if n % 4 == 0 && n / 4 % m == 0 {
      var r := n / 4 / m;
      assert n / 4 == r * m;
      assert n == r * (4 * m);
      MultipleIs(n, 4 * m, r);
    }
  }

  lemma MultipleIs(a: nat, g: nat, k: nat)
    requires g > 0 && a == k * g
    ensures a % g == 0
  {
    DivIs(a, g, k);
  }

  /** Row `l` with `t` linked in if its start number `nr` says so, and otherwise the same timers. */
  ghost predicate RowGets(rows: seq<seq<nat>>, rows': seq<seq<nat>>, t: nat, nr: nat, l: nat)
    requires l < |rows| == |rows'|
  {
    && (t in rows'[l] <==> nr % Pow4(|rows| - 1 - l) == 0)
    && forall x :: x != t ==> (x in rows'[l] <==> x in rows[l])
  }

  ghost predicate RowsGet(rows: seq<seq<nat>>, rows': seq<seq<nat>>, t: nat, nr: nat) {
    |rows'| == |rows| && forall l :: 0 <= l < |rows| ==> RowGets(rows, rows', t, nr, l)
  }

  lemma LinkedGet(rows: seq<seq<nat>>, heads: seq<nat>, t: nat, nr: nat)
    requires |heads| == |rows| && forall l :: 0 <= l < |rows| ==> heads[l] <= |rows[l]| && t !in rows[l]
    ensures RowsGet(rows, Linked(rows, heads, t, Height(nr, |rows|)), t, nr)
  {
    var rows' := Linked(rows, heads, t, Height(nr, |rows|));
    forall l | 0 <= l < |rows| ensures RowGets(rows, rows', t, nr, l) {
      HeightIs(nr, |rows|, |rows| - 1 - l);
      InsertAtMembers(rows[l], heads[l], t);
    }
  }

  /** An armed timer: its tick is its deadline, which is less than half a turn ahead. */
  ghost predicate Armed(timers: map<nat, Timer>, keys: map<nat, Key>, stamp: nat, t: nat, now: nat) {
    && t in timers && timers[t].active && timers[t].initTick < HALF
    && timers[t].timeoutTick == KeyOf(keys, t).deadline % WRAP
    && KeyOf(keys, t).deadline < now + HALF && KeyOf(keys, t).stamp < stamp
  }

  /** The armed timers are exactly the active ones. */
  ghost predicate AllArmed(timers: map<nat, Timer>, keys: map<nat, Key>, stamp: nat, q: seq<nat>, now: nat) {
    && (forall t :: t in q ==> Armed(timers, keys, stamp, t, now))
    && (forall t :: t in timers && timers[t].active ==> t in q)
  }

  /** Time passing keeps the timers well formed. */
  lemma TimePasses(l: TimerList, now: nat, later: nat)
    requires l.Valid(now) && now <= later
    ensures l.Valid(later)
  {
    forall t | t in l.Bottom() ensures Armed(l.timers, l.keys, l.stamp, t, later) {
      assert Armed(l.timers, l.keys, l.stamp, t, now);
    }
  }

  lemma StartArmed(timers: map<nat, Timer>, keys: map<nat, Key>, stamp: nat, q: seq<nat>, now: nat, t: nat, q': seq<nat>,
                   timers': map<nat, Timer>, keys': map<nat, Key>)
    requires AllArmed(timers, keys, stamp, q, now) && t in timers && timers[t].initTick < HALF
    requires forall x :: x in q' <==> x in q || x == t
    requires timers' == timers[t := timers[t].(timeoutTick := (now + timers[t].initTick) % WRAP, active := true)]
    requires keys' == keys[t := Key(now + timers[t].initTick, stamp)]
    ensures AllArmed(timers', keys', stamp + 1, q', now)
  {
    forall x | x in q' ensures Armed(timers', keys', stamp + 1, x, now) {
      assert x != t ==> Armed(timers, keys, stamp, x, now);
    }
  }

  lemma StopArmed(timers: map<nat, Timer>, keys: map<nat, Key>, stamp: nat, q: seq<nat>, now: nat, t: nat, q': seq<nat>,
                  timers': map<nat, Timer>)
    requires AllArmed(timers, keys, stamp, q, now) && t in timers
    requires forall x :: x in q' <==> x in q && x != t
    requires timers' == timers[t := timers[t].(active := false)]
    ensures AllArmed(timers', keys, stamp, q', now)
  {
    forall x | x in q' ensures Armed(timers', keys, stamp, x, now) {
      assert Armed(timers, keys, stamp, x, now);
    }
  }

  class TimerList {
    const levels: nat                 // RT_TIMER_SKIP_LIST_LEVEL
    var rows: seq<seq<nat>>           // row 0 is the sparsest
    var timers: map<nat, Timer>
    var randomNr: nat
    ghost var keys: map<nat, Key>
    ghost var stamp: nat

    ghost function Bottom(): seq<nat>
      reads this
      requires |rows| > 0
    {
      rows[|rows| - 1]
    }

    ghost predicate Valid(now: nat)
      reads this
    {
      && |rows| == levels && Rows(rows, keys)
      && AllArmed(timers, keys, stamp, Bottom(), now)
    }

    /** `rt_system_timer_init`. */
    constructor (n: nat)
      requires n > 0
      ensures levels == n && |rows| == n && Bottom() == [] && timers == map[] && forall now :: Valid(now)
    {
      levels := n;
      rows := seq(n, _ => []);
      timers, randomNr, keys, stamp := map[], 0, map[], 0;
    }

    /** `_timer_init` of a timer that is on no list. */
    method Init(t: nat, time: nat, periodic: bool, ghost now: nat)
      requires Valid(now) && (t in timers ==> !timers[t].active)
      modifies this`timers
      ensures Valid(now) && timers == old(timers)[t := Timer(time, 0, periodic, false)]
    {
      assert t in Bottom() ==> Armed(timers, keys, stamp, t, now);
      timers := timers[t := Timer(time, 0, periodic, false)];
      forall x | x in Bottom() ensures Armed(timers, keys, stamp, x, now) {
        assert Armed(old(timers), keys, stamp, x, now);
      }
    }

    /** Every armed timer except `t` can be compared with the deadline `d`. */
    ghost predicate Comparable(t: nat, d: nat)
      reads this
      requires |rows| > 0
    {
      forall u :: u in Bottom() && u != t ==> InWindow(KeyOf(keys, u).deadline, d)
    }

    /** `_timer_remove`. */
    method Unlink(t: nat)
      modifies this`rows
      ensures rows == Unlinked(old(rows), t)
    {
      var i := 0;
      while i < |rows|
        invariant 0 <= i <= |rows| == |old(rows)|
        invariant forall l :: 0 <= l < |rows| ==> rows[l] == if l < i then Without(old(rows)[l], t) else old(rows)[l]
      {
        rows := rows[i := Without(rows[i], t)];
        i := i + 1;
      }
    }

    /** One row of the search of `rt_timer_start`, from position `start` on. */
    method SearchRow(l: nat, start: nat, tick: nat) returns (pos: nat)
      requires l < |rows| && start <= |rows[l]| && forall t :: t in rows[l] ==> t in timers
      ensures start <= pos <= |rows[l]|
      ensures forall j :: start <= j < pos ==> !LaterAt(rows[l], timers, tick, j)
      ensures pos < |rows[l]| ==> LaterAt(rows[l], timers, tick, pos)
    {
      pos := start;
      while pos < |rows[l]|
        invariant start <= pos <= |rows[l]|
        invariant forall j :: start <= j < pos ==> !LaterAt(rows[l], timers, tick, j)
      {
        var t := rows[l][pos];
        assert t in rows[l];
        if Sub32(timers[t].timeoutTick, tick) != 0 && Sub32(timers[t].timeoutTick, tick) < HALF {
          break;
        }
        pos := pos + 1;
      }
    }

    /** The row-by-row search of `rt_timer_start`: it ends where a linear scan of each row would. */
    method Search(tick: nat, ghost d: nat) returns (heads: seq<nat>)
      requires Rows(rows, keys) && tick == d % WRAP
      requires forall t :: t in Bottom() ==> t in timers && timers[t].timeoutTick == KeyOf(keys, t).deadline % WRAP
      requires forall t :: t in Bottom() ==> InWindow(KeyOf(keys, t).deadline, d)
      ensures HeadsAt(rows, keys, d, heads)
      ensures heads[|rows| - 1] == LinearScan(Bottom(), keys, d, 0)
    {
      heads := [];
      var start: nat, l: nat := 0, 0;
      while l < |rows|
        invariant 0 <= l <= |rows| && |heads| == l
        invariant forall k :: 0 <= k < l ==> SplitsAt(rows[k], keys, d, heads[k])
        invariant l < |rows| ==> start <= |rows[l]| && (start > 0 ==> AtMost(rows[l], keys, d, start - 1))
      {
        forall t | t in rows[l] ensures t in Bottom() {
          InBottom(rows, keys, l, t);
        }
        var pos := SearchRow(l, start, tick);
        RowSplits(rows[l], timers, keys, tick, d, start, pos);
        heads := heads + [pos];
        if l + 1 < |rows| {
          if pos == 0 {
            start := 0;
          } else {
            var t := rows[l][pos - 1];
            assert AtMost(rows[l], keys, d, pos - 1);
            Descend(rows, keys, d, l, pos - 1);
            start := IndexOf(rows[l + 1], t) + 1;
          }
        }
        l := l + 1;
      }
      SplitIsLinear(Bottom(), keys, d, heads[|rows| - 1], 0);
    }

    /** Link `t` into the bottom row and, by the start counter `nr`, into rows above. */
    method Link(t: nat, heads: seq<nat>, nr: nat)
      requires |rows| > 0 && |heads| == |rows| && forall l :: 0 <= l < |rows| ==> heads[l] <= |rows[l]|
      modifies this`rows
      ensures rows == Linked(old(rows), heads, t, Height(nr, |old(rows)|))
    {
      var n := |rows|;
      var tst := nr;
      rows := rows[n - 1 := InsertAt(rows[n - 1], heads[n - 1], t)];
      var k := 2;
      ghost var h := 1;
      while k <= n
        invariant 2 <= k <= n + 1 && h == k - 1 && |rows| == n
        invariant Height(nr, n) == h - 1 + Height(tst, n + 1 - h)
        invariant forall l :: 0 <= l < n ==>
                    rows[l] == if l + h >= n then InsertAt(old(rows)[l], heads[l], t) else old(rows)[l]
      {
        if tst % 4 != 0 {
          break;
        }
        rows := rows[n - k := InsertAt(rows[n - k], heads[n - k], t)];
        tst := tst / 4;
        k, h := k + 1, h + 1;
      }
    }

    /** Search the place of the unlinked timer `t` with deadline `d` and link it there. */
    method Place(t: nat, tick: nat, ghost d: nat)
      requires Rows(rows, keys) && tick == d % WRAP && KeyOf(keys, t).deadline == d
      requires forall x :: x in Bottom() ==> x in timers && timers[x].timeoutTick == KeyOf(keys, x).deadline % WRAP
      requires forall x :: x in Bottom() ==> InWindow(KeyOf(keys, x).deadline, d)
      requires forall x :: x in Bottom() ==> KeyOf(keys, x).stamp < KeyOf(keys, t).stamp
      requires t !in Bottom()
      modifies this`rows, this`randomNr
      ensures Rows(rows, keys) && |rows| == |old(rows)|
      ensures randomNr == (old(randomNr) + 1) % WRAP && RowsGet(old(rows), rows, t, randomNr)
      ensures PlacedAt(old(Bottom()), Bottom(), keys, t)
    {
      var heads := Search(tick, d);
      randomNr := (randomNr + 1) % WRAP;
      LinkedRows(rows, keys, heads, t, Height(randomNr, |rows|));
      forall l | 0 <= l < |rows| ensures t !in rows[l] {
        if t in rows[l] {
          InBottom(rows, keys, l, t);
        }
      }
      LinkedGet(rows, heads, t, randomNr);
      Link(t, heads, randomNr);
    }

    /** Take `t` out of all rows and give it the key of a timer started now. */
    method Rekey(t: nat, ghost now: nat, ghost d: nat)
      requires Valid(now) && Comparable(t, d)
      modifies this`rows, this`keys
      ensures keys == old(keys)[t := Key(d, stamp)]
      ensures |rows| == |old(rows)| && Rows(rows, keys) && Bottom() == Without(old(Bottom()), t)
      ensures forall x :: x in Bottom() <==> x in old(Bottom()) && x != t
      ensures forall x :: x in Bottom() ==> Waits(x, d, stamp)
      ensures RowsDrop(old(rows), rows, t)
    {
      UnlinkedDrop(rows, keys, t);
      UnlinkedRows(rows, keys, t);
      Unlink(t);
      keys := keys[t := Key(d, stamp)];
      RowsSame(rows, old(keys), keys);
      forall x | x in Bottom() ensures Waits(x, d, stamp) {
        assert Armed(timers, old(keys), stamp, x, now);
      }
    }

    /** Timer `x`, started before stamp `n`, has its tick set and can be compared with the deadline `d`. */
    ghost predicate Waits(x: nat, d: nat, n: nat)
      reads this
    {
      && x in timers && timers[x].timeoutTick == KeyOf(keys, x).deadline % WRAP
      && InWindow(KeyOf(keys, x).deadline, d) && KeyOf(keys, x).stamp < n
    }

    /** Set the tick of the unlinked timer `t`, link it and mark it active. */
    method Arm(t: nat, now: nat)
      requires Rows(rows, keys) && t in timers && t !in Bottom() && KeyOf(keys, t).deadline == now + timers[t].initTick
      requires forall x :: x in Bottom() ==> Waits(x, now + timers[t].initTick, KeyOf(keys, t).stamp)
      modifies this`rows, this`randomNr, this`timers
      ensures Rows(rows, keys) && |rows| == |old(rows)| && PlacedAt(old(Bottom()), Bottom(), keys, t)
      ensures randomNr == (old(randomNr) + 1) % WRAP && RowsGet(old(rows), rows, t, randomNr)
      ensures timers == old(timers)[t := old(timers[t]).(timeoutTick := (now + old(timers[t]).initTick) % WRAP, active := true)]
    {
      timers := timers[t := timers[t].(active := false, timeoutTick := (now + timers[t].initTick) % WRAP)];
      forall x | x in Bottom() ensures x in timers && Waits(x, now + timers[t].initTick, KeyOf(keys, t).stamp) {
        assert old(Waits(x, now + timers[t].initTick, KeyOf(keys, t).stamp));
      }
      Place(t, timers[t].timeoutTick, now + timers[t].initTick);
      timers := timers[t := timers[t].(active := true)];
    }

    /** `rt_timer_start`. */
    method Start(t: nat, now: nat)
      requires Valid(now) && t in timers && timers[t].initTick < HALF
      requires Comparable(t, now + timers[t].initTick)
      modifies this
      ensures Valid(now) && stamp == old(stamp) + 1
      ensures keys == old(keys)[t := Key(now + old(timers[t]).initTick, old(stamp))]
      ensures timers == old(timers)[t := old(timers[t]).(timeoutTick := (now + old(timers[t]).initTick) % WRAP, active := true)]
      ensures PlacedAt(Without(old(Bottom()), t), Bottom(), keys, t)
      ensures forall x :: x in Bottom() <==> x in old(Bottom()) || x == t
      ensures randomNr == (old(randomNr) + 1) % WRAP && RowsGet(old(rows), rows, t, randomNr)
    {
      Rekey(t, now, now + timers[t].initTick);
      ghost var q, mid := Bottom(), rows;
      Arm(t, now);
      stamp := stamp + 1;
      PlacedMembers(q, Bottom(), keys, t);
      GetAfterDrop(old(rows), mid, rows, t, randomNr);
      StartArmed(old(timers), old(keys), old(stamp), old(Bottom()), now, t, Bottom(), timers, keys);
    }

    /** `rt_timer_stop`: `ok` says whether the timer was armed. */
    method Stop(t: nat, ghost now: nat) returns (ok: bool)
      requires Valid(now) && t in timers
      modifies this
      ensures Valid(now) && ok == old(timers[t].active) && keys == old(keys) && stamp == old(stamp)
      ensures timers == old(timers)[t := old(timers[t]).(active := false)]
      ensures forall x :: x in Bottom() <==> x in old(Bottom()) && x != t
      ensures if ok then RowsDrop(old(rows), rows, t) else rows == old(rows)
    {
      if !timers[t].active {
        assert t !in Bottom();
        return false;
      }
      Disarm(t, now);
      ok := true;
    }

    /** Unlink `t` and clear its active flag. */
    method Disarm(t: nat, ghost now: nat)
      requires Valid(now) && t in timers
      modifies this`rows, this`timers
      ensures Valid(now)
      ensures timers == old(timers)[t := old(timers[t]).(active := false)]
      ensures forall x :: x in Bottom() <==> x in old(Bottom()) && x != t
      ensures RowsDrop(old(rows), rows, t)
    {
      UnlinkedDrop(rows, keys, t);
      UnlinkedRows(rows, keys, t);
      Unlink(t);
      timers := timers[t := timers[t].(active := false)];
      StopArmed(old(timers), keys, stamp, old(Bottom()), now, t, Bottom(), timers);
    }

    // ------------------------------------------------------------ tick check

    /**
     Handle the expiry of `t`: unlink it and, if it is periodic, start it again.  The code clears
     the active flag of a periodic timer only after its callback; no callback looks at it here.
     */
    method Expire(t: nat, now: nat)
      requires Valid(now) && t in Bottom()
      requires timers[t].periodic ==> Comparable(t, now + timers[t].initTick)
      modifies this
      ensures Valid(now)
      ensures forall x :: x in Bottom() <==> x in old(Bottom()) && (x != t || old(timers[t]).periodic)
      ensures keys == if old(timers[t]).periodic then old(keys)[t := Key(now + old(timers[t]).initTick, old(stamp))] else old(keys)
      ensures timers.Keys == old(timers.Keys)
      ensures forall x :: x in timers ==> SameSettings(old(timers)[x], timers[x])
    {
      Disarm(t, now);
      if timers[t].periodic {
        Start(t, now);
      }
    }

    /** No armed timer is so late that a 32-bit comparison during the check would misjudge it. */
    ghost predicate Timely(now: nat)
      reads this
      requires |rows| > 0
    {
      && (forall t :: t in Bottom() ==> now < KeyOf(keys, t).deadline + HALF)
      && (forall u :: u in Bottom() && u in timers && timers[u].periodic ==>
            timers[u].initTick > 0 && Comparable(u, now + timers[u].initTick))
    }

    /** Expiry leaves no timer that could be misjudged later in the check. */
    method ExpireTimely(t: nat, now: nat)
      requires Valid(now) && Timely(now) && t in Bottom()
      modifies this
      ensures Valid(now) && Timely(now)
      ensures forall x :: x in Bottom() <==> x in old(Bottom()) && (x != t || old(timers[t]).periodic)
      ensures keys == if old(timers[t]).periodic then old(keys)[t := Key(now + old(timers[t]).initTick, old(stamp))] else old(keys)
      ensures timers.Keys == old(timers.Keys)
      ensures forall x :: x in timers ==> SameSettings(old(timers)[x], timers[x])
    {
      assert Armed(timers, keys, stamp, t, now);
      Expire(t, now);
    }

    /** The test of `rt_timer_check`: is the first timer taken for due? */
    method HeadDue(now: nat) returns (due: bool)
      requires |rows| > 0 && Bottom() != [] && Bottom()[0] in timers
      ensures due <==> Due32(now % WRAP, timers[Bottom()[0]].timeoutTick)
    {
      due := Sub32(now % WRAP, timers[rows[|rows| - 1][0]].timeoutTick) < HALF;
    }

    /** `rt_timer_check` with callbacks that touch no timer: `fired` lists the callbacks in order. */
    method Check(now: nat) returns (fired: seq<nat>)
      requires Valid(now) && Timely(now)
      modifies this
      ensures Valid(now)
      ensures SplitsAt(old(Bottom()), old(keys), now, |fired|) && fired == old(Bottom())[..|fired|]
      ensures forall x :: x in old(Bottom()) ==>
                Settled(old(timers), old(keys), now, x, x in Bottom(), KeyOf(keys, x).deadline)
      ensures forall x :: x in Bottom() ==> x in old(Bottom()) && KeyOf(keys, x).deadline > now
    {
      fired := [];
      ghost var q0 := Bottom();
      ghost var k := 0;
      SortedNoDup(q0, keys);
      ProgressInit(timers, keys, stamp, q0, now);
      while rows[|rows| - 1] != []
        invariant Valid(now) && Timely(now)
        invariant 0 <= k <= |q0| && fired == q0[..k]
        invariant Progress(q0, k, old(timers), old(keys), now, Bottom(), timers, keys)
        decreases |q0| - k
      {
        var t := rows[|rows| - 1][0];
        assert t in Bottom();
        DueExact(now, KeyOf(keys, t).deadline);
        var due := HeadDue(now);
        if !due {
          break;
        }
        HeadIsNext(q0, k, old(timers), old(keys), now, Bottom(), timers, keys);
        ghost var q, timers1, keys1 := Bottom(), timers, keys;
        ExpireTimely(t, now);
        fired := fired + [t];
        ProgressStep(q0, k, old(timers), old(keys), now, q, timers1, keys1, Bottom(), timers, keys);
        k := k + 1;
      }
      ProgressEnd(q0, k, old(timers), old(keys), now, Bottom(), timers, keys);
    }

    /** `rt_timer_next_timeout_tick`: the tick of the earliest deadline. */
    method NextTimeout(ghost now: nat) returns (tick: nat)
      requires Valid(now)
      ensures Bottom() == [] ==> tick == TICK_MAX
      ensures Bottom() != [] ==> exists t :: t in Bottom() && Earliest(Bottom(), keys, t) && tick == KeyOf(keys, t).deadline % WRAP
    {
      var q := rows[|rows| - 1];
      if q == [] {
        return TICK_MAX;
      }
      assert q[0] in Bottom();
      tick := timers[q[0]].timeoutTick;
      HeadIsLeast(q, keys);
    }
  }

  /** The search of `rt_timer_start` takes timer `j` of the row for later than `tick`. */
  ghost predicate LaterAt(row: seq<nat>, timers: map<nat, Timer>, tick: nat, j: nat)
    requires j < |row|
  {
    row[j] in timers && Later32(timers[row[j]].timeoutTick, tick)
  }

  /** If every timer of the row is close enough to be compared, the search ends where it should. */
  lemma RowSplits(row: seq<nat>, timers: map<nat, Timer>, keys: map<nat, Key>, tick: nat, d: nat, start: nat, pos: nat)
    requires start <= pos <= |row| && tick == d % WRAP && Sorted(row, keys)
    requires start > 0 ==> AtMost(row, keys, d, start - 1)
    requires forall t :: t in row ==> t in timers && timers[t].timeoutTick == KeyOf(keys, t).deadline % WRAP
    requires forall t :: t in row ==> InWindow(KeyOf(keys, t).deadline, d)
    requires forall j :: start <= j < pos ==> !LaterAt(row, timers, tick, j)
    requires pos < |row| ==> LaterAt(row, timers, tick, pos)
    ensures SplitsAt(row, keys, d, pos)
  {
    forall j | start <= j < |row| ensures LaterAt(row, timers, tick, j) <==> !AtMost(row, keys, d, j) {
      assert row[j] in row;
      LaterExact(KeyOf(keys, row[j]).deadline, d);
    }
    StopSplits(row, keys, d, pos);
  }

  // ------------------------------------------------------- misjudged timers

  /** A timer due at tick 5 is not taken for due when the check comes half a turn of the counter later. */
  method OverdueMissed() returns (l: TimerList, due: bool)
    ensures fresh(l) && l.Valid(5 + HALF) && l.Bottom() == [0] && KeyOf(l.keys, 0).deadline == 5 && !due
  {
    l := OneTimer();
    TimePasses(l, 0, 5 + HALF);
    due := l.HeadDue(5 + HALF);
  }

  /** With that timer still waiting, a later one is put in front of it. */
  method PutInFront() returns (l: TimerList, pos: nat)
    ensures fresh(l) && l.Valid(5 + WRAP - HALF) && l.Bottom() == [0] && KeyOf(l.keys, 0).deadline == 5
    ensures pos == 0 && LinearScan(l.Bottom(), l.keys, 6 + WRAP - HALF, 0) == 1
  {
    l := OneTimer();
    TimePasses(l, 0, 5 + WRAP - HALF);
    var tick := (6 + WRAP - HALF) % WRAP;
    assert LaterAt(l.rows[0], l.timers, tick, 0);
    pos := l.SearchRow(0, 0, tick);
  }

  /** A timer of 5 ticks started at tick 0. */
  method OneTimer() returns (l: TimerList)
    ensures fresh(l) && |l.rows| == 1 && l.Valid(0) && l.Bottom() == [0] && KeyOf(l.keys, 0).deadline == 5
    ensures 0 in l.timers && l.timers[0].timeoutTick == 5
  {
    l := new TimerList(1);
    l.Init(0, 5, false, 0);
    ghost var before := l.Bottom();
    l.Start(0, 0);
    PlacedAlone(before, l.Bottom(), l.keys, 0);
  }

  lemma PlacedAlone(q: seq<nat>, q': seq<nat>, keys: map<nat, Key>, t: nat)
    requires q == [] && PlacedAt(Without(q, t), q', keys, t)
    ensures q' == [t]
  {
  }

  ghost predicate SameSettings(a: Timer, b: Timer) {
    a.initTick == b.initTick && a.periodic == b.periodic
  }

  /** Where a timer armed before a check at `now` must be after it: rearmed, gone, or waiting as before. */
  ghost predicate Settled(timers0: map<nat, Timer>, keys0: map<nat, Key>, now: nat, x: nat, armed: bool, deadline: nat) {
    && x in timers0
    && if KeyOf(keys0, x).deadline <= now
       then (armed <==> timers0[x].periodic) && (armed ==> deadline == now + timers0[x].initTick)
       else armed && deadline == KeyOf(keys0, x).deadline
  }

  /** After `k` expiries, what became of timer `i` of the row the check began with. */
  ghost predicate ProgressAt(q0: seq<nat>, k: nat, timers0: map<nat, Timer>, keys0: map<nat, Key>, now: nat,
                             q: seq<nat>, timers: map<nat, Timer>, keys: map<nat, Key>, i: nat)
    requires i < |q0|
  {
    var x := q0[i];
    && x in timers0 && x in timers && SameSettings(timers0[x], timers[x])
    && if i < k
       then KeyOf(keys0, x).deadline <= now && (x in q <==> timers0[x].periodic)
            && (x in q ==> KeyOf(keys, x).deadline == now + timers0[x].initTick)
       else x in q && KeyOf(keys, x) == KeyOf(keys0, x)
  }

  ghost predicate Progress(q0: seq<nat>, k: nat, timers0: map<nat, Timer>, keys0: map<nat, Key>, now: nat,
                           q: seq<nat>, timers: map<nat, Timer>, keys: map<nat, Key>) {
    && (forall i :: 0 <= i < |q0| ==> ProgressAt(q0, k, timers0, keys0, now, q, timers, keys, i))
    && (forall x :: x in q ==> x in q0)
  }

  lemma ProgressInit(timers: map<nat, Timer>, keys: map<nat, Key>, stamp: nat, q: seq<nat>, now: nat)
    requires AllArmed(timers, keys, stamp, q, now)
    ensures Progress(q, 0, timers, keys, now, q, timers, keys)
  {
    forall i | 0 <= i < |q| ensures ProgressAt(q, 0, timers, keys, now, q, timers, keys, i) {
      assert q[i] in q;
      assert Armed(timers, keys, stamp, q[i], now);
    }
  }

  /** When the head is not due, the check is complete. */
  lemma ProgressEnd(q0: seq<nat>, k: nat, timers0: map<nat, Timer>, keys0: map<nat, Key>, now: nat,
                    q: seq<nat>, timers: map<nat, Timer>, keys: map<nat, Key>)
    requires Progress(q0, k, timers0, keys0, now, q, timers, keys) && Sorted(q, keys) && k <= |q0|
    requires q != [] ==> KeyOf(keys, q[0]).deadline > now
    ensures SplitsAt(q0, keys0, now, k)
    ensures forall x :: x in q0 ==> Settled(timers0, keys0, now, x, x in q, KeyOf(keys, x).deadline)
    ensures forall x :: x in q ==> x in q0 && KeyOf(keys, x).deadline > now
  {
    if q != [] {
      HeadIsLeast(q, keys);
    }
    forall i | 0 <= i < |q0|
      ensures AtMost(q0, keys0, now, i) <==> i < k
      ensures Settled(timers0, keys0, now, q0[i], q0[i] in q, KeyOf(keys, q0[i]).deadline)
    {
      assert ProgressAt(q0, k, timers0, keys0, now, q, timers, keys, i);
    }
  }

  /** A due timer at the head of the row is the next one of the row the check began with. */
  lemma HeadIsNext(q0: seq<nat>, k: nat, timers0: map<nat, Timer>, keys0: map<nat, Key>, now: nat,
                   q: seq<nat>, timers: map<nat, Timer>, keys: map<nat, Key>)
    requires Progress(q0, k, timers0, keys0, now, q, timers, keys) && Sorted(q0, keys0) && Sorted(q, keys)
    requires q != [] && KeyOf(keys, q[0]).deadline <= now
    requires forall x :: x in q && x in timers && timers[x].periodic ==> timers[x].initTick > 0
    ensures k < |q0| && q[0] == q0[k] && KeyOf(keys0, q0[k]).deadline <= now
  {
    var t := q[0];
    assert t in q;
    var i :| 0 <= i < |q0| && q0[i] == t;
    assert ProgressAt(q0, k, timers0, keys0, now, q, timers, keys, i);
    assert i >= k;
    if k < i {
      assert ProgressAt(q0, k, timers0, keys0, now, q, timers, keys, k);
      assert InOrder(q0, keys0, k, i);
      HeadIsLeast(q, keys);
    }
  }

  lemma ProgressStep(q0: seq<nat>, k: nat, timers0: map<nat, Timer>, keys0: map<nat, Key>, now: nat,
                     q: seq<nat>, timers: map<nat, Timer>, keys: map<nat, Key>,
                     q': seq<nat>, timers': map<nat, Timer>, keys': map<nat, Key>)
    requires Progress(q0, k, timers0, keys0, now, q, timers, keys) && NoDup(q0) && k < |q0|
    requires KeyOf(keys0, q0[k]).deadline <= now && q0[k] in timers
    requires forall x :: x in q' <==> x in q && (x != q0[k] || timers[q0[k]].periodic)
    requires forall x: nat :: x != q0[k] ==> KeyOf(keys', x) == KeyOf(keys, x)
    requires timers[q0[k]].periodic ==> KeyOf(keys', q0[k]).deadline == now + timers[q0[k]].initTick
    requires timers'.Keys == timers.Keys && forall x :: x in timers ==> SameSettings(timers[x], timers'[x])
    ensures Progress(q0, k + 1, timers0, keys0, now, q', timers', keys')
  {
    var k' := k + 1;
    forall i | 0 <= i < |q0| ensures ProgressAt(q0, k', timers0, keys0, now, q', timers', keys', i) {
      assert ProgressAt(q0, k, timers0, keys0, now, q, timers, keys, i);
      if i != k {
        Apart(q0, i, k);
      }
    }
  }

  /** The rows without `t` have the same other timers. */
  ghost predicate RowsDrop(rows: seq<seq<nat>>, rows': seq<seq<nat>>, t: nat) {
    |rows'| == |rows| && forall l :: 0 <= l < |rows| ==> RowDrops(rows, rows', t, l)
  }

  ghost predicate RowDrops(rows: seq<seq<nat>>, rows': seq<seq<nat>>, t: nat, l: nat)
    requires l < |rows| == |rows'|
  {
    forall x :: x != t ==> (x in rows'[l] <==> x in rows[l])
  }

  lemma UnlinkedDrop(rows: seq<seq<nat>>, keys: map<nat, Key>, t: nat)
    requires Rows(rows, keys)
    ensures RowsDrop(rows, Unlinked(rows, t), t)
  {
    forall l | 0 <= l < |rows| ensures RowDrops(rows, Unlinked(rows, t), t, l) {
      SortedNoDup(rows[l], keys);
      WithoutMembers(rows[l], t);
    }
  }

  lemma GetAfterDrop(rows: seq<seq<nat>>, mid: seq<seq<nat>>, rows': seq<seq<nat>>, t: nat, nr: nat)
    requires RowsDrop(rows, mid, t) && RowsGet(mid, rows', t, nr)
    ensures RowsGet(rows, rows', t, nr)
  {
    forall l | 0 <= l < |rows| ensures RowGets(rows, rows', t, nr, l) {
      assert RowGets(mid, rows', t, nr, l) && RowDrops(rows, mid, t, l);
    }
  }

  /** `t` stands in `q'` behind the timers of `q` due no later than it, in front of the others. */
  ghost predicate PlacedAt(q: seq<nat>, q': seq<nat>, keys: map<nat, Key>, t: nat) {
    exists p :: SplitsAt(q, keys, KeyOf(keys, t).deadline, p) && q' == InsertAt(q, p, t)
  }

  lemma PlacedMembers(q: seq<nat>, q': seq<nat>, keys: map<nat, Key>, t: nat)
    requires PlacedAt(q, q', keys, t)
    ensures forall x :: x in q' <==> x in q || x == t
  {
    var p :| SplitsAt(q, keys, KeyOf(keys, t).deadline, p) && q' == InsertAt(q, p, t);
    InsertAtMembers(q, p, t);
  }

  /** No timer of `q` is due before `t`. */
  ghost predicate Earliest(q: seq<nat>, keys: map<nat, Key>, t: nat) {
    forall u :: u in q ==> KeyOf(keys, t).deadline <= KeyOf(keys, u).deadline
  }

  lemma HeadIsLeast(q: seq<nat>, keys: map<nat, Key>)
    requires Sorted(q, keys) && q != []
    ensures forall u :: u in q ==> u == q[0] || Less(KeyOf(keys, q[0]), KeyOf(keys, u))
  {
    forall u | u in q ensures u == q[0] || Less(KeyOf(keys, q[0]), KeyOf(keys, u)) {
      var i :| 0 <= i < |q| && q[i] == u;
      assert i > 0 ==> InOrder(q, keys, 0, i);
    }
  }
}
