/** Definitions shared by the component models. */
module Base {

  datatype Option<+T> = None | Some(value: T)

  const ALIGN: nat := 32   // RT_ALIGN_SIZE

  /** RT_ALIGN to 32 bytes. */
  function Align(size: nat): (r: nat)
    ensures size <= r < size + ALIGN && r % 32 == 0
  {
    (size + 31) / 32 * 32
  }

  function Max(a: int, b: int): int {
    if a < b then b else a
  }

  ghost predicate Differ<T>(q: seq<T>, i: nat, j: nat)
    requires i < |q| && j < |q|
  {
    q[i] != q[j]
  }

  /** No element occurs at two positions: an intrusive list holds a node once. */
  ghost predicate NoDup<T>(q: seq<T>) {
    forall i, j :: 0 <= i < j < |q| ==> Differ(q, i, j)
  }

  lemma SameIndex<T>(q: seq<T>, i: nat, j: nat)
    requires NoDup(q) && i < |q| && j < |q| && q[i] == q[j]
    ensures i == j
  {
    assert i < j ==> Differ(q, i, j);
    assert j < i ==> Differ(q, j, i);
  }

  lemma Apart<T>(q: seq<T>, i: nat, j: nat)
    requires NoDup(q) && i < |q| && j < |q| && i != j
    ensures q[i] != q[j]
  {
    assert i < j ==> Differ(q, i, j);
    assert j < i ==> Differ(q, j, i);
  }

  /** Every element of `q` indexes a table of `n` entries. */
  ghost predicate Below(q: seq<nat>, n: nat) {
    forall i :: 0 <= i < |q| ==> q[i] < n
  }

  /** The first position of `x` in `q` from `i` on, or |q|. */
  function IndexFrom<T(==)>(q: seq<T>, x: T, i: nat): (k: nat)
    requires i <= |q|
    ensures i <= k <= |q|
    ensures k < |q| ==> q[k] == x
    decreases |q| - i
  {
    if i == |q| || q[i] == x then i else IndexFrom(q, x, i + 1)
  }

  /** The first position of `x` in `q`, or |q|. */
  function IndexOf<T(==)>(q: seq<T>, x: T): (k: nat)
    ensures k <= |q|
    ensures k < |q| ==> q[k] == x
  {
    IndexFrom(q, x, 0)
  }

  lemma {:induction false} NotBefore<T>(q: seq<T>, x: T, i: nat, j: nat)
    requires i <= |q| && i <= j < IndexFrom(q, x, i)
    ensures q[j] != x
    decreases j - i
  {
    if i < j {
      NotBefore(q, x, i + 1, j);
    }
  }

  lemma Found<T>(q: seq<T>, x: T)
    ensures IndexOf(q, x) < |q| <==> x in q
  {
    if x in q && IndexOf(q, x) == |q| {
      var j :| 0 <= j < |q| && q[j] == x;
      NotBefore(q, x, 0, j);
    }
  }

  lemma IndexOfIs<T>(q: seq<T>, i: nat)
    requires NoDup(q) && i < |q|
    ensures IndexOf(q, q[i]) == i
  {
    Found(q, q[i]);
    SameIndex(q, i, IndexOf(q, q[i]));
  }

  function Deleted<T>(q: seq<T>, i: nat): (r: seq<T>)
    requires i < |q|
    ensures |r| == |q| - 1
  {
    q[..i] + q[i + 1..]
  }

  /** Where element `k` stands after element `i` was deleted. */
  lemma DeletedAt<T>(q: seq<T>, i: nat, k: nat)
    requires i < |q| && k < |q| && k != i
    ensures Deleted(q, i)[if k < i then k else k - 1] == q[k]
  {
  }

  lemma DeletedNoDup<T>(q: seq<T>, i: nat)
    requires NoDup(q) && i < |q|
    ensures NoDup(Deleted(q, i))
  {
    var c := Deleted(q, i);
    forall x, y | 0 <= x < y < |c| ensures Differ(c, x, y) {
      assert Differ(q, if x < i then x else x + 1, if y < i then y else y + 1);
    }
  }

  lemma DeletedMember<T>(q: seq<T>, i: nat, x: T)
    requires NoDup(q) && i < |q|
    ensures x in Deleted(q, i) <==> x in q && x != q[i]
  {
    var c := Deleted(q, i);
    if x in q && x != q[i] {
      var k :| 0 <= k < |q| && q[k] == x;
      DeletedAt(q, i, k);
    } else if x in c {
      var k :| 0 <= k < |c| && c[k] == x;
      Apart(q, if k < i then k else k + 1, i);
    }
  }

  /** `q` without the element `x` (unlinking the node `x`). */
  function Without<T(==)>(q: seq<T>, x: T): seq<T> {
    var i := IndexOf(q, x);
    if i < |q| then Deleted(q, i) else q
  }

  lemma WithoutMembers<T>(q: seq<T>, x: T)
    requires NoDup(q)
    ensures NoDup(Without(q, x))
    ensures forall y :: y in Without(q, x) <==> y in q && y != x
    ensures |Without(q, x)| == if x in q then |q| - 1 else |q|
  {
    var i := IndexOf(q, x);
    Found(q, x);
    if i < |q| {
      DeletedNoDup(q, i);
      forall y ensures y in Without(q, x) <==> y in q && y != x {
        DeletedMember(q, i, y);
      }
    }
  }

  lemma WithoutBelow(q: seq<nat>, x: nat, n: nat)
    requires Below(q, n)
    ensures Below(Without(q, x), n)
  {
  }

  /** A list with a new element in front. */
  lemma ConsNoDup<T>(x: T, q: seq<T>)
    requires NoDup(q) && x !in q
    ensures NoDup([x] + q)
    ensures forall y :: y in [x] + q <==> y == x || y in q
  {
    var r := [x] + q;
    forall i, j | 0 <= i < j < |r| ensures Differ(r, i, j) {
      assert r[j] == q[j - 1];
      if i > 0 {
        assert Differ(q, i - 1, j - 1);
      }
    }
  }

  /** A list with a new element behind. */
  lemma SnocNoDup<T>(q: seq<T>, n: T)
    requires NoDup(q) && n !in q
    ensures NoDup(q + [n]) && forall x :: x in q + [n] <==> x in q || x == n
  {
    forall i, j | 0 <= i < j < |q| + 1 ensures Differ(q + [n], i, j) {
      assert j < |q| ==> Differ(q, i, j);
    }
  }

  lemma TailNoDup<T>(q: seq<T>)
    requires NoDup(q) && q != []
    ensures NoDup(q[1..]) && q[0] !in q[1..]
    ensures forall y :: y in q <==> y == q[0] || y in q[1..]
  {
    assert q == [q[0]] + q[1..];
    forall i, j | 0 <= i < j < |q| - 1 ensures Differ(q[1..], i, j) {
      assert Differ(q, i + 1, j + 1);
    }
    forall j | 0 <= j < |q| - 1 ensures q[1..][j] != q[0] {
      assert Differ(q, 0, j + 1);
    }
  }

  lemma WithoutHead<T>(x: T, q: seq<T>)
    ensures Without([x] + q, x) == q
  {
    assert IndexOf([x] + q, x) == 0;
  }

  lemma WithoutCons<T>(x: T, q: seq<T>, y: T)
    requires NoDup(q) && x !in q && x != y
    ensures Without([x] + q, y) == [x] + Without(q, y)
  {
    var r := [x] + q;
    ConsNoDup(x, q);
    Found(q, y);
    Found(r, y);
    var i := IndexOf(q, y);
    if i < |q| {
      assert r[i + 1] == y;
      IndexOfIs(r, i + 1);
    }
  }

  /** A list of distinct numbers below `n` is no longer than `n`. */
  lemma {:induction false} PigeonHole(q: seq<nat>, n: nat)
    requires NoDup(q) && forall x :: x in q ==> x < n
    ensures |q| <= n
  {
    if q != [] {
      assert q[0] in q;
      var m: nat := n - 1;
      WithoutMembers(q, m);
      PigeonHole(Without(q, m), m);
    }
  }

  /** A list of `n` distinct numbers below `n` contains them all. */
  lemma Covering(q: seq<nat>, n: nat, x: nat)
    requires NoDup(q) && (forall y :: y in q ==> y < n) && |q| >= n && x < n
    ensures x in q
  {
    if x !in q {
      SnocNoDup(q, x);
      PigeonHole(q + [x], n);
    }
  }

  lemma DivIs(a: nat, g: nat, k: nat)
    requires g > 0 && k * g <= a < k * g + g
    ensures a / g == k
  {
    if a / g < k {
      MulMono(a / g + 1, k, g);
    } else if a / g > k {
      MulMono(k + 1, a / g, g);
    }
  }

  lemma MulMono(a: nat, b: nat, g: nat)
    requires a <= b
    ensures a * g <= b * g
  {
  }
}
