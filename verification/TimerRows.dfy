/**
 The rows of a timer skip list (rt-thread/src/timer.c): each row is a list of
 timers in order of true deadline, and each row holds timers of the row below.
 The tick counter wraps at 2^32; deadlines here are the unbounded ones.
 */
module TimerRows {
  import opened Base

  const WRAP: nat := 0x1_0000_0000
  const TICK_MAX: nat := 0xffff_ffff
  const HALF: nat := 0x7fff_ffff      // RT_TICK_MAX / 2

  // ------------------------------------------------------------ tick arithmetic

  /** 32-bit subtraction. */
  function Sub32(a: nat, b: nat): (r: nat)
    ensures r < WRAP
  {
    (a - b) % WRAP
  }

  /** The insertion search stops in front of a timer with tick `t` when inserting tick `d`. */
  predicate Later32(t: nat, d: nat) {
    Sub32(t, d) != 0 && Sub32(t, d) < HALF
  }

  /** The timer check takes a timer with tick `t` for due at tick `now`. */
  predicate Due32(now: nat, t: nat) {
    Sub32(now, t) < HALF
  }

  /** Deadlines `x` and `d` are close enough for the 32-bit comparison. */
  predicate InWindow(x: nat, d: nat) {
    x < d + HALF && d <= x + (WRAP - HALF)
  }

  lemma Sub32Is(x: nat, d: nat)
    requires x < d + WRAP && d < x + WRAP
    ensures Sub32(x % WRAP, d % WRAP) == if x >= d then x - d else x - d + WRAP
  {
    var k := x / WRAP - d / WRAP;
    assert x % WRAP - d % WRAP == (x - d) - k * WRAP;
    assert -1 <= k <= 1;
  }

  /** Within one turn of the counter, the 32-bit order is the true order exactly inside the window. */
  lemma LaterExact(x: nat, d: nat)
    requires x < d + WRAP && d < x + WRAP
    ensures (Later32(x % WRAP, d % WRAP) <==> x > d) <==> InWindow(x, d)
  {
    Sub32Is(x, d);
  }

  /** Within one turn of the counter, a timer is taken for due correctly exactly when it is not overdue by half a turn or more. */
  lemma DueExact(now: nat, x: nat)
    requires x < now + WRAP && now < x + WRAP
    ensures (Due32(now % WRAP, x % WRAP) <==> x <= now) <==> now < x + HALF && x <= now + (WRAP - HALF)
  {
    Sub32Is(now, x);
  }

  // -------------------------------------------------------------------- order

  /** When a timer is due and when it was started. */
  datatype Key = Key(deadline: nat, stamp: nat)

  function KeyOf(keys: map<nat, Key>, t: nat): Key {
    if t in keys then keys[t] else Key(0, 0)
  }

  /** Earlier deadline first, and among equal deadlines the one started first. */
  predicate Less(a: Key, b: Key) {
    a.deadline < b.deadline || (a.deadline == b.deadline && a.stamp < b.stamp)
  }

  ghost predicate InOrder(q: seq<nat>, keys: map<nat, Key>, i: nat, j: nat)
    requires i < |q| && j < |q|
  {
    Less(KeyOf(keys, q[i]), KeyOf(keys, q[j]))
  }

  ghost predicate Sorted(q: seq<nat>, keys: map<nat, Key>) {
    forall i, j :: 0 <= i < j < |q| ==> InOrder(q, keys, i, j)
  }

  lemma SortedNoDup(q: seq<nat>, keys: map<nat, Key>)
    requires Sorted(q, keys)
    ensures NoDup(q)
  {
    forall i, j | 0 <= i < j < |q| ensures Differ(q, i, j) {
      assert InOrder(q, keys, i, j);
    }
  }

  /** The keys of the timers in the row are the same. */
  lemma SortedSame(q: seq<nat>, keys: map<nat, Key>, keys': map<nat, Key>)
    requires Sorted(q, keys) && forall t :: t in q ==> KeyOf(keys', t) == KeyOf(keys, t)
    ensures Sorted(q, keys')
  {
    forall i, j | 0 <= i < j < |q| ensures InOrder(q, keys', i, j) {
      assert InOrder(q, keys, i, j) && q[i] in q && q[j] in q;
    }
  }

  // ---------------------------------------------------------------- insertion

  /** Timer `i` of the row is due at `d` or before. */
  ghost predicate AtMost(q: seq<nat>, keys: map<nat, Key>, d: nat, i: nat)
    requires i < |q|
  {
    KeyOf(keys, q[i]).deadline <= d
  }

  /** Exactly the first `p` timers of the row are due at `d` or before. */
  ghost predicate SplitsAt(q: seq<nat>, keys: map<nat, Key>, d: nat, p: nat) {
    && p <= |q|
    && (forall i :: 0 <= i < p ==> AtMost(q, keys, d, i))
    && (forall i :: p <= i < |q| ==> !AtMost(q, keys, d, i))
  }

  /** Where a linear scan for deadline `d` from position `i` stops. */
  ghost function LinearScan(q: seq<nat>, keys: map<nat, Key>, d: nat, i: nat): nat
    requires i <= |q|
    decreases |q| - i
  {
    if i == |q| || !AtMost(q, keys, d, i) then i else LinearScan(q, keys, d, i + 1)
  }

  /** The position of the split is where a linear scan stops. */
  lemma {:induction false} SplitIsLinear(q: seq<nat>, keys: map<nat, Key>, d: nat, p: nat, i: nat)
    requires SplitsAt(q, keys, d, p) && i <= p
    ensures LinearScan(q, keys, d, i) == p
    decreases p - i
  {
    if i < p {
      assert AtMost(q, keys, d, i);
      SplitIsLinear(q, keys, d, p, i + 1);
    }
  }

  /** In a sorted row a stop at the first later timer is a split. */
  lemma StopSplits(q: seq<nat>, keys: map<nat, Key>, d: nat, p: nat)
    requires Sorted(q, keys) && p <= |q| && (p < |q| ==> !AtMost(q, keys, d, p))
    requires p > 0 ==> AtMost(q, keys, d, p - 1)
    ensures SplitsAt(q, keys, d, p)
  {
    forall i | 0 <= i < p ensures AtMost(q, keys, d, i) {
      assert i < p - 1 ==> InOrder(q, keys, i, p - 1);
    }
    forall i | p <= i < |q| ensures !AtMost(q, keys, d, i) {
      assert p < i ==> InOrder(q, keys, p, i);
    }
  }

  function InsertAt(q: seq<nat>, p: nat, t: nat): (r: seq<nat>)
    requires p <= |q|
    ensures |r| == |q| + 1
  {
    q[..p] + [t] + q[p..]
  }

  lemma InsertAtIndex(q: seq<nat>, p: nat, t: nat, i: nat)
    requires p <= |q| && i <= |q|
    ensures InsertAt(q, p, t)[i] == if i < p then q[i] else if i == p then t else q[i - 1]
  {
  }

  lemma InsertAtMembers(q: seq<nat>, p: nat, t: nat)
    requires p <= |q|
    ensures forall x :: x in InsertAt(q, p, t) <==> x in q || x == t
  {
    assert q == q[..p] + q[p..];
  }

  ghost predicate Younger(q: seq<nat>, keys: map<nat, Key>, stamp: nat, i: nat)
    requires i < |q|
  {
    KeyOf(keys, q[i]).stamp < stamp
  }

  /** Inserting a newly started timer at the split keeps the row in order. */
  lemma SortedInsert(q: seq<nat>, keys: map<nat, Key>, p: nat, t: nat)
    requires Sorted(q, keys) && SplitsAt(q, keys, KeyOf(keys, t).deadline, p)
    requires forall i :: 0 <= i < |q| ==> Younger(q, keys, KeyOf(keys, t).stamp, i)
    ensures Sorted(InsertAt(q, p, t), keys)
  {
    var r, d := InsertAt(q, p, t), KeyOf(keys, t).deadline;
    forall i, j | 0 <= i < j < |r| ensures InOrder(r, keys, i, j) {
      InsertAtIndex(q, p, t, i);
      InsertAtIndex(q, p, t, j);
      var i', j' := if i < p then i else i - 1, if j < p then j else j - 1;
      if i == p {
        assert !AtMost(q, keys, d, j');
      } else if j == p {
        assert AtMost(q, keys, d, i') && Younger(q, keys, KeyOf(keys, t).stamp, i');
      } else {
        assert InOrder(q, keys, i', j');
      }
    }
  }

  lemma SortedWithout(q: seq<nat>, keys: map<nat, Key>, t: nat)
    requires Sorted(q, keys)
    ensures Sorted(Without(q, t), keys)
  {
    var k := IndexOf(q, t);
    if k < |q| {
      var r := Without(q, t);
      forall i, j | 0 <= i < j < |r| ensures InOrder(r, keys, i, j) {
        var i', j' := if i < k then i else i + 1, if j < k then j else j + 1;
        DeletedAt(q, k, i');
        DeletedAt(q, k, j');
        assert InOrder(q, keys, i', j');
      }
    }
  }

  // -------------------------------------------------------------- nested rows

  /** Every timer of row `l` is in the row below. */
  ghost predicate NestedAt(rows: seq<seq<nat>>, l: nat)
    requires l + 1 < |rows|
  {
    forall t :: t in rows[l] ==> t in rows[l + 1]
  }

  /** All rows are in order and each holds timers of the row below. */
  ghost predicate Rows(rows: seq<seq<nat>>, keys: map<nat, Key>) {
    && |rows| > 0
    && (forall l :: 0 <= l < |rows| ==> Sorted(rows[l], keys))
    && (forall l :: 0 <= l < |rows| - 1 ==> NestedAt(rows, l))
  }

  /** `e` picks the elements of `a` out of `b`, in order. */
  ghost predicate Picks(a: seq<nat>, b: seq<nat>, e: seq<nat>) {
    && |e| == |a|
    && (forall i :: 0 <= i < |a| ==> e[i] < |b| && b[e[i]] == a[i])
    && forall i, j :: 0 <= i < j < |e| ==> e[i] < e[j]
  }

  lemma PickedInOrder(a: seq<nat>, b: seq<nat>, keys: map<nat, Key>, i: nat, j: nat, i': nat, j': nat)
    requires Sorted(a, keys) && Sorted(b, keys) && i < j < |a| && i' < |b| && j' < |b| && b[i'] == a[i] && b[j'] == a[j]
    ensures i' < j'
  {
    assert InOrder(a, keys, i, j);
    assert j' < i' ==> InOrder(b, keys, j', i');
  }

  /** Each row is a subsequence of the row below. */
  lemma RowIsSubsequence(rows: seq<seq<nat>>, keys: map<nat, Key>, l: nat) returns (e: seq<nat>)
    requires Rows(rows, keys) && l + 1 < |rows|
    ensures Picks(rows[l], rows[l + 1], e)
  {
    var a, b := rows[l], rows[l + 1];
    assert NestedAt(rows, l);
    e := seq(|a|, i requires 0 <= i < |a| => IndexOf(b, a[i]));
    forall i | 0 <= i < |a| ensures e[i] < |b| && b[e[i]] == a[i] {
      assert a[i] in a;
      Found(b, a[i]);
    }
    forall i, j | 0 <= i < j < |e| ensures e[i] < e[j] {
      PickedInOrder(a, b, keys, i, j, e[i], e[j]);
    }
  }

  lemma {:induction false} InBottom(rows: seq<seq<nat>>, keys: map<nat, Key>, l: nat, t: nat)
    requires Rows(rows, keys) && l < |rows| && t in rows[l]
    ensures t in rows[|rows| - 1]
    decreases |rows| - l
  {
    if l + 1 < |rows| {
      assert NestedAt(rows, l);
      InBottom(rows, keys, l + 1, t);
    }
  }

  /** Going down one row at the same timer keeps what is known of the position. */
  lemma Descend(rows: seq<seq<nat>>, keys: map<nat, Key>, d: nat, l: nat, i: nat)
    requires Rows(rows, keys) && l + 1 < |rows| && i < |rows[l]| && AtMost(rows[l], keys, d, i)
    ensures var k := IndexOf(rows[l + 1], rows[l][i]); k < |rows[l + 1]| && AtMost(rows[l + 1], keys, d, k)
  {
    assert NestedAt(rows, l) && rows[l][i] in rows[l];
    Found(rows[l + 1], rows[l][i]);
  }

  /** The rows with `t` unlinked from all of them. */
  ghost function Unlinked(rows: seq<seq<nat>>, t: nat): seq<seq<nat>> {
    seq(|rows|, l requires 0 <= l < |rows| => Without(rows[l], t))
  }

  lemma UnlinkedRows(rows: seq<seq<nat>>, keys: map<nat, Key>, t: nat)
    requires Rows(rows, keys)
    ensures Rows(Unlinked(rows, t), keys)
    ensures forall l :: 0 <= l < |rows| ==> forall x :: x in Unlinked(rows, t)[l] <==> x in rows[l] && x != t
  {
    var r := Unlinked(rows, t);
    forall l | 0 <= l < |rows| ensures Sorted(r[l], keys) && forall x :: x in r[l] <==> x in rows[l] && x != t {
      SortedWithout(rows[l], keys, t);
      SortedNoDup(rows[l], keys);
      WithoutMembers(rows[l], t);
    }
    forall l | 0 <= l < |rows| - 1 ensures NestedAt(r, l) {
      assert NestedAt(rows, l);
    }
  }

  /** The rows with `t` linked into the lowest `height` of them, at the positions `heads`. */
  ghost function Linked(rows: seq<seq<nat>>, heads: seq<nat>, t: nat, height: nat): seq<seq<nat>>
    requires |heads| == |rows| && forall l :: 0 <= l < |rows| ==> heads[l] <= |rows[l]|
  {
    seq(|rows|, l requires 0 <= l < |rows| => if l + height >= |rows| then InsertAt(rows[l], heads[l], t) else rows[l])
  }

  /** The search found the split of every row. */
  ghost predicate HeadsAt(rows: seq<seq<nat>>, keys: map<nat, Key>, d: nat, heads: seq<nat>) {
    |heads| == |rows| && forall l :: 0 <= l < |rows| ==> SplitsAt(rows[l], keys, d, heads[l])
  }

  lemma LinkedRows(rows: seq<seq<nat>>, keys: map<nat, Key>, heads: seq<nat>, t: nat, height: nat)
    requires Rows(rows, keys) && HeadsAt(rows, keys, KeyOf(keys, t).deadline, heads) && 0 < height
    requires forall x :: x in rows[|rows| - 1] ==> KeyOf(keys, x).stamp < KeyOf(keys, t).stamp
    ensures Rows(Linked(rows, heads, t, height), keys)
  {
    var r := Linked(rows, heads, t, height);
    forall l | 0 <= l < |rows| ensures Sorted(r[l], keys) {
      forall i | 0 <= i < |rows[l]| ensures Younger(rows[l], keys, KeyOf(keys, t).stamp, i) {
        InBottom(rows, keys, l, rows[l][i]);
      }
      SortedInsert(rows[l], keys, heads[l], t);
    }
    forall l | 0 <= l < |rows| - 1 ensures NestedAt(r, l) {
      assert NestedAt(rows, l);
      InsertAtMembers(rows[l], heads[l], t);
      InsertAtMembers(rows[l + 1], heads[l + 1], t);
    }
  }

  lemma RowsSame(rows: seq<seq<nat>>, keys: map<nat, Key>, keys': map<nat, Key>)
    requires Rows(rows, keys) && forall t :: t in rows[|rows| - 1] ==> KeyOf(keys', t) == KeyOf(keys, t)
    ensures Rows(rows, keys')
  {
    forall l | 0 <= l < |rows| ensures Sorted(rows[l], keys') {
      forall t | t in rows[l] ensures KeyOf(keys', t) == KeyOf(keys, t) {
        InBottom(rows, keys, l, t);
      }
      SortedSame(rows[l], keys, keys');
    }
  }
}
