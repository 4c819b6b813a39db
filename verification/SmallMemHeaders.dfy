/**
 The block headers of the small-memory heap (rt-thread/src/mem.c), written in the
 pool itself.  A header field occupies the cell of its first byte and every other
 cell is one data byte, so headers and data share the pool and could overwrite
 each other.
 */
module SmallMemHeaders {
  import opened Base
  import opened IntrusiveList
  import opened BlockRing

  // Offsets of the fields `pool_ptr`, `next` and `prev` in a header.
  const NEXT: nat := 4
  const PREV: nat := 8

  // ---------------------------------------------------------------- headers

  /** The header of block `i` is written in the pool: owner and use flag, next block, and previous block. */
  ghost predicate HeaderAt(c: seq<int>, pool: int, sh: Shape, i: nat)
    requires i < |sh.ring|
  {
    var a := sh.ring[i];
    && a + HDR <= |c| && a in sh.used
    && c[a] == (if sh.used[a] then pool + 1 else pool)
    && c[a + NEXT] == (if i + 1 < |sh.ring| then sh.ring[i + 1] else a)
    && (i + 1 < |sh.ring| ==> c[a + PREV] == if i == 0 then 0 else sh.ring[i - 1])
  }

  ghost predicate Headers(c: seq<int>, pool: int, sh: Shape) {
    forall i :: 0 <= i < |sh.ring| ==> HeaderAt(c, pool, sh, i)
  }

  /** `x` is no cell of the header of block `j`. */
  ghost predicate OffHeader(ring: seq<nat>, j: nat, x: nat)
    requires j < |ring|
  {
    x < ring[j] || ring[j] + HDR <= x
  }

  /** `x` is a data cell. */
  ghost predicate ClearOf(ring: seq<nat>, x: nat) {
    forall j :: 0 <= j < |ring| ==> OffHeader(ring, j, x)
  }

  /** Headers of different blocks do not overlap. */
  lemma HeadersApart(lo: nat, hi: nat, ring: seq<nat>, i: nat, j: nat)
    requires Tiling(lo, hi, ring) && i < |ring| && j < |ring| && i != j
    ensures ring[i] + HDR <= ring[j] || ring[j] + HDR <= ring[i]
  {
    if i < j {
      Ascending(lo, hi, ring, i, j);
    } else {
      Ascending(lo, hi, ring, j, i);
    }
  }

  /** Block `i` of one ring is block `i'` of the other, with the same neighbours. */
  ghost predicate Shifted(ring: seq<nat>, ring': seq<nat>, i: nat, i': nat)
    requires i < |ring| && i' < |ring'|
  {
    && ring'[i'] == ring[i]
    && (i + 1 < |ring| <==> i' + 1 < |ring'|) && (i + 1 < |ring| ==> ring'[i' + 1] == ring[i + 1])
    && (i == 0 <==> i' == 0) && (i > 0 ==> ring'[i' - 1] == ring[i - 1])
  }

  lemma InsertedShifts(ring: seq<nat>, i: nat, a: nat, j: nat)
    requires i + 1 < |ring| && j < |ring| && j != i && j != i + 1
    ensures |Inserted(ring, i, a)| == |ring| + 1
    ensures Shifted(ring, Inserted(ring, i, a), j, if j < i then j else j + 1)
  {
    InsertedAt(ring, i, a, j);
    if j > 0 {
      InsertedAt(ring, i, a, j - 1);
    }
    if j + 1 < |ring| {
      InsertedAt(ring, i, a, j + 1);
    }
  }

  lemma DeletedShifts(ring: seq<nat>, i: nat, j: nat)
    requires i + 2 < |ring| && j < |ring| && j != i && j != i + 1 && j != i + 2
    ensures |Deleted(ring, i + 1)| == |ring| - 1
    ensures Shifted(ring, Deleted(ring, i + 1), j, if j < i then j else j - 1)
  {
    DeletedAt(ring, i + 1, j);
    if j > 0 {
      DeletedAt(ring, i + 1, j - 1);
    }
    if j + 1 < |ring| {
      DeletedAt(ring, i + 1, j + 1);
    }
  }

  /** A header whose cells, use flag and neighbours are unchanged. */
  lemma HeaderSame(c: seq<int>, c': seq<int>, pool: int, sh: Shape, sh': Shape, i: nat, i': nat)
    requires i < |sh.ring| && i' < |sh'.ring| && HeaderAt(c, pool, sh, i) && |c'| == |c|
    requires Shifted(sh.ring, sh'.ring, i, i')
    requires sh.ring[i] in sh'.used && sh'.used[sh.ring[i]] == sh.used[sh.ring[i]]
    requires forall x :: sh.ring[i] <= x < sh.ring[i] + HDR ==> c'[x] == c[x]
    ensures HeaderAt(c', pool, sh', i')
  {
  }

  // ----------------------------------------------------------- cell rewrites

  /** Write the header of a new free block `a` between `h` and the block behind it. */
  function CutCells(c: seq<int>, pool: int, h: nat, a: nat, hi: nat): seq<int>
    requires h + HDR <= a && a + HDR <= |c| && 0 <= c[h + NEXT] && c[h + NEXT] + HDR <= |c|
  {
    var n := c[h + NEXT];
    var c1 := c[a := pool][a + NEXT := n][a + PREV := h][h + NEXT := a];
    if n != hi then c1[n + PREV := a] else c1
  }

  /** Let block `m` swallow the block `n` behind it. */
  function SwallowCells(c: seq<int>, m: nat, n: nat): seq<int>
    requires m + HDR <= n && n + HDR <= |c| && 0 <= c[n + NEXT] && c[n + NEXT] + HDR <= |c|
  {
    c[n := 0][m + NEXT := c[n + NEXT]][c[n + NEXT] + PREV := m]
  }

  /** Headers at `a` and `b` do not overlap. */
  ghost predicate Clear(a: nat, b: nat) {
    a + HDR <= b || b + HDR <= a
  }

  /** The cells of block `i` that cutting at `a` reads. */
  ghost predicate Cuts(c: seq<int>, sh: Shape, i: nat, a: nat)
    requires i + 1 < |sh.ring|
  {
    && sh.ring[i] + HDR <= a && a + HDR <= sh.ring[i + 1]
    && sh.ring[i + 1] + HDR <= |c| && c[sh.ring[i] + NEXT] == sh.ring[i + 1]
  }

  /** The cells of block `i + 1` that merging it into block `i` reads. */
  ghost predicate Swallows(c: seq<int>, sh: Shape, i: nat)
    requires i + 2 < |sh.ring|
  {
    && sh.ring[i] + HDR <= sh.ring[i + 1] && sh.ring[i + 1] + HDR <= sh.ring[i + 2]
    && sh.ring[i + 2] + HDR <= |c| && c[sh.ring[i + 1] + NEXT] == sh.ring[i + 2]
  }

  lemma CutLeft(c: seq<int>, pool: int, sh: Shape, i: nat, a: nat, hi: nat)
    requires i + 1 < |sh.ring| && Cuts(c, sh, i, a) && HeaderAt(c, pool, sh, i)
    ensures HeaderAt(CutCells(c, pool, sh.ring[i], a, hi), pool, Split(sh, i, a), i)
  {
    InsertedAt(sh.ring, i, a, i);
    if i > 0 {
      InsertedAt(sh.ring, i, a, i - 1);
    }
  }

  lemma CutNew(c: seq<int>, pool: int, sh: Shape, i: nat, a: nat, hi: nat)
    requires i + 1 < |sh.ring| && Cuts(c, sh, i, a)
    ensures HeaderAt(CutCells(c, pool, sh.ring[i], a, hi), pool, Split(sh, i, a), i + 1)
  {
    InsertedAt(sh.ring, i, a, i);
    InsertedAt(sh.ring, i, a, i + 1);
  }

  lemma CutRight(c: seq<int>, pool: int, sh: Shape, i: nat, a: nat, hi: nat)
    requires i + 1 < |sh.ring| && Cuts(c, sh, i, a) && HeaderAt(c, pool, sh, i + 1)
    requires sh.ring[i + 1] == hi <==> i + 2 == |sh.ring|
    ensures HeaderAt(CutCells(c, pool, sh.ring[i], a, hi), pool, Split(sh, i, a), i + 2)
  {
    InsertedAt(sh.ring, i, a, i + 1);
    if i + 2 < |sh.ring| {
      InsertedAt(sh.ring, i, a, i + 2);
    }
  }

  /** Cutting writes only the headers of the cut block, the new one and the one behind. */
  lemma CutKeeps(c: seq<int>, pool: int, sh: Shape, i: nat, a: nat, hi: nat, b: nat)
    requires i + 1 < |sh.ring| && Cuts(c, sh, i, a)
    requires b + HDR <= |c| && Clear(b, sh.ring[i]) && Clear(b, a) && Clear(b, sh.ring[i + 1])
    ensures forall x :: b <= x < b + HDR ==> CutCells(c, pool, sh.ring[i], a, hi)[x] == c[x]
  {
  }

  /** `a` lies between the headers of blocks `i` and `i + 1`, so it overlaps no other. */
  lemma BetweenClear(lo: nat, hi: nat, ring: seq<nat>, i: nat, a: nat, j: nat)
    requires Tiling(lo, hi, ring) && i + 1 < |ring| && ring[i] + HDR <= a && a + HDR <= ring[i + 1]
    requires j < |ring| && j != i && j != i + 1
    ensures Clear(ring[j], ring[i]) && Clear(ring[j], a) && Clear(ring[j], ring[i + 1])
  {
    if j < i {
      Ascending(lo, hi, ring, j, i);
    } else {
      Ascending(lo, hi, ring, i + 1, j);
    }
  }

  lemma CutHeaderFar(hi: nat, c: seq<int>, pool: int, sh: Shape, i: nat, a: nat, j: nat)
    requires i + 1 < |sh.ring| && Cuts(c, sh, i, a)
    requires j < |sh.ring| && j != i && j != i + 1 && HeaderAt(c, pool, sh, j)
    requires Clear(sh.ring[j], sh.ring[i]) && Clear(sh.ring[j], a) && Clear(sh.ring[j], sh.ring[i + 1])
    ensures HeaderAt(CutCells(c, pool, sh.ring[i], a, hi), pool, Split(sh, i, a), if j < i then j else j + 1)
  {
    CutKeeps(c, pool, sh, i, a, hi, sh.ring[j]);
    InsertedShifts(sh.ring, i, a, j);
    HeaderSame(c, CutCells(c, pool, sh.ring[i], a, hi), pool, sh, Split(sh, i, a), j, if j < i then j else j + 1);
  }

  lemma CutHeaderNear(hi: nat, c: seq<int>, pool: int, sh: Shape, i: nat, a: nat, k: nat)
    requires i + 1 < |sh.ring| && Cuts(c, sh, i, a) && HeaderAt(c, pool, sh, i) && HeaderAt(c, pool, sh, i + 1)
    requires (sh.ring[i + 1] == hi <==> i + 2 == |sh.ring|) && i <= k <= i + 2
    ensures HeaderAt(CutCells(c, pool, sh.ring[i], a, hi), pool, Split(sh, i, a), k)
  {
    if k == i {
      CutLeft(c, pool, sh, i, a, hi);
    } else if k == i + 1 {
      CutNew(c, pool, sh, i, a, hi);
    } else {
      CutRight(c, pool, sh, i, a, hi);
    }
  }

  lemma OnlyLastIsEnd(lo: nat, hi: nat, ring: seq<nat>, i: nat)
    requires Tiling(lo, hi, ring) && i < |ring|
    ensures ring[i] == hi <==> i + 1 == |ring|
  {
    if i + 1 < |ring| {
      Ascending(lo, hi, ring, i, |ring| - 1);
    }
  }

  lemma CutHeaderAt(hi: nat, c: seq<int>, pool: int, sh: Shape, i: nat, a: nat, k: nat)
    requires Tiling(0, hi, sh.ring) && Headers(c, pool, sh) && i + 1 < |sh.ring| && Cuts(c, sh, i, a) && k <= |sh.ring|
    requires sh.ring[i] + HDR <= a && a + HDR <= sh.ring[i + 1] && (sh.ring[i + 1] == hi <==> i + 2 == |sh.ring|)
    ensures HeaderAt(CutCells(c, pool, sh.ring[i], a, hi), pool, Split(sh, i, a), k)
  {
    assert HeaderAt(c, pool, sh, i) && HeaderAt(c, pool, sh, i + 1);
    if i <= k <= i + 2 {
      CutHeaderNear(hi, c, pool, sh, i, a, k);
    } else {
      CutHeaderOther(hi, c, pool, sh, i, a, if k < i then k else k - 1);
    }
  }

  lemma CutHeaderOther(hi: nat, c: seq<int>, pool: int, sh: Shape, i: nat, a: nat, j: nat)
    requires Tiling(0, hi, sh.ring) && Headers(c, pool, sh) && i + 1 < |sh.ring| && Cuts(c, sh, i, a)
    requires j < |sh.ring| && j != i && j != i + 1
    requires sh.ring[i] + HDR <= a && a + HDR <= sh.ring[i + 1]
    ensures HeaderAt(CutCells(c, pool, sh.ring[i], a, hi), pool, Split(sh, i, a), if j < i then j else j + 1)
  {
    assert HeaderAt(c, pool, sh, j);
    BetweenClear(0, hi, sh.ring, i, a, j);
    CutHeaderFar(hi, c, pool, sh, i, a, j);
  }

  /** Cutting a block leaves a properly headed pool and writes only headers. */
  lemma CutHeaders(hi: nat, c: seq<int>, pool: int, sh: Shape, i: nat, a: nat)
    requires Tiling(0, hi, sh.ring) && Headers(c, pool, sh) && i + 1 < |sh.ring|
    requires sh.ring[i] + HDR <= a && a + HDR <= sh.ring[i + 1]
    ensures Cuts(c, sh, i, a)
    ensures Headers(CutCells(c, pool, sh.ring[i], a, hi), pool, Split(sh, i, a))
    ensures forall x :: 0 <= x < |c| && ClearOf(Inserted(sh.ring, i, a), x) ==>
              CutCells(c, pool, sh.ring[i], a, hi)[x] == c[x]
  {
    assert HeaderAt(c, pool, sh, i) && HeaderAt(c, pool, sh, i + 1);
    OnlyLastIsEnd(0, hi, sh.ring, i + 1);
    forall k | 0 <= k <= |sh.ring| ensures HeaderAt(CutCells(c, pool, sh.ring[i], a, hi), pool, Split(sh, i, a), k) {
      CutHeaderAt(hi, c, pool, sh, i, a, k);
    }
    forall x | 0 <= x < |c| && ClearOf(Inserted(sh.ring, i, a), x)
      ensures CutCells(c, pool, sh.ring[i], a, hi)[x] == c[x]
    {
      CutClear(c, pool, sh, i, a, hi, x);
    }
  }

  lemma CutClear(c: seq<int>, pool: int, sh: Shape, i: nat, a: nat, hi: nat, x: nat)
    requires i + 1 < |sh.ring| && Cuts(c, sh, i, a) && x < |c| && ClearOf(Inserted(sh.ring, i, a), x)
    ensures CutCells(c, pool, sh.ring[i], a, hi)[x] == c[x]
  {
    var r := Inserted(sh.ring, i, a);
    InsertedAt(sh.ring, i, a, i);
    InsertedAt(sh.ring, i, a, i + 1);
    assert OffHeader(r, i, x) && OffHeader(r, i + 1, x) && OffHeader(r, i + 2, x);
  }

  lemma SwallowLeft(c: seq<int>, pool: int, sh: Shape, i: nat)
    requires i + 2 < |sh.ring| && Swallows(c, sh, i) && HeaderAt(c, pool, sh, i)
    ensures HeaderAt(SwallowCells(c, sh.ring[i], sh.ring[i + 1]), pool, Absorb(sh, i), i)
  {
    DeletedAt(sh.ring, i + 1, i);
    DeletedAt(sh.ring, i + 1, i + 2);
    if i > 0 {
      DeletedAt(sh.ring, i + 1, i - 1);
    }
  }

  lemma SwallowRight(c: seq<int>, pool: int, sh: Shape, i: nat)
    requires i + 2 < |sh.ring| && Swallows(c, sh, i) && HeaderAt(c, pool, sh, i + 2)
    ensures HeaderAt(SwallowCells(c, sh.ring[i], sh.ring[i + 1]), pool, Absorb(sh, i), i + 1)
  {
    DeletedAt(sh.ring, i + 1, i);
    DeletedAt(sh.ring, i + 1, i + 2);
    if i + 3 < |sh.ring| {
      DeletedAt(sh.ring, i + 1, i + 3);
    }
  }

  lemma SwallowKeeps(c: seq<int>, sh: Shape, i: nat, b: nat)
    requires i + 2 < |sh.ring| && Swallows(c, sh, i)
    requires b + HDR <= |c| && Clear(b, sh.ring[i]) && Clear(b, sh.ring[i + 1]) && Clear(b, sh.ring[i + 2])
    ensures forall x :: b <= x < b + HDR ==> SwallowCells(c, sh.ring[i], sh.ring[i + 1])[x] == c[x]
  {
  }

  lemma SwallowHeaderFar(c: seq<int>, pool: int, sh: Shape, i: nat, j: nat)
    requires i + 2 < |sh.ring| && Swallows(c, sh, i)
    requires j < |sh.ring| && j != i && j != i + 1 && j != i + 2 && HeaderAt(c, pool, sh, j)
    requires Clear(sh.ring[j], sh.ring[i]) && Clear(sh.ring[j], sh.ring[i + 1]) && Clear(sh.ring[j], sh.ring[i + 2])
    ensures HeaderAt(SwallowCells(c, sh.ring[i], sh.ring[i + 1]), pool, Absorb(sh, i), if j < i then j else j - 1)
  {
    SwallowKeeps(c, sh, i, sh.ring[j]);
    DeletedShifts(sh.ring, i, j);
    HeaderSame(c, SwallowCells(c, sh.ring[i], sh.ring[i + 1]), pool, sh, Absorb(sh, i), j, if j < i then j else j - 1);
  }

  lemma SwallowHeader(hi: nat, c: seq<int>, pool: int, sh: Shape, i: nat, k: nat)
    requires Tiling(0, hi, sh.ring) && Headers(c, pool, sh) && i + 2 < |sh.ring| && Swallows(c, sh, i)
    requires k < |sh.ring| - 1
    ensures HeaderAt(SwallowCells(c, sh.ring[i], sh.ring[i + 1]), pool, Absorb(sh, i), k)
  {
    var j := if k <= i then k else k + 1;
    assert HeaderAt(c, pool, sh, j);
    if k == i {
      SwallowLeft(c, pool, sh, i);
    } else if k == i + 1 {
      SwallowRight(c, pool, sh, i);
    } else {
      HeadersApart(0, hi, sh.ring, j, i);
      HeadersApart(0, hi, sh.ring, j, i + 1);
      HeadersApart(0, hi, sh.ring, j, i + 2);
      SwallowHeaderFar(c, pool, sh, i, j);
    }
  }

  /** Merging two blocks leaves a properly headed pool and writes only headers. */
  lemma SwallowHeaders(hi: nat, c: seq<int>, pool: int, sh: Shape, i: nat)
    requires Tiling(0, hi, sh.ring) && Headers(c, pool, sh) && i + 2 < |sh.ring|
    ensures Swallows(c, sh, i)
    ensures Headers(SwallowCells(c, sh.ring[i], sh.ring[i + 1]), pool, Absorb(sh, i))
    ensures forall x :: 0 <= x < |c| && ClearOf(sh.ring, x) ==> SwallowCells(c, sh.ring[i], sh.ring[i + 1])[x] == c[x]
  {
    assert HeaderAt(c, pool, sh, i + 1) && HeaderAt(c, pool, sh, i + 2) && Fits(sh.ring, i) && Fits(sh.ring, i + 1);
    var c' := SwallowCells(c, sh.ring[i], sh.ring[i + 1]);
    forall k | 0 <= k < |sh.ring| - 1 ensures HeaderAt(c', pool, Absorb(sh, i), k) {
      SwallowHeader(hi, c, pool, sh, i, k);
    }
    forall x | 0 <= x < |c| && ClearOf(sh.ring, x) ensures c'[x] == c[x] {
      assert OffHeader(sh.ring, i, x) && OffHeader(sh.ring, i + 1, x) && OffHeader(sh.ring, i + 2, x);
    }
  }

  /** Rewriting the use flag of a block. */
  lemma FlagHeaders(hi: nat, c: seq<int>, pool: int, sh: Shape, i: nat, flag: bool)
    requires Tiling(0, hi, sh.ring) && Headers(c, pool, sh) && i < |sh.ring| && sh.ring[i] < |c|
    ensures Headers(c[sh.ring[i] := if flag then pool + 1 else pool], pool, sh.(used := sh.used[sh.ring[i] := flag]))
  {
    var c' := c[sh.ring[i] := if flag then pool + 1 else pool];
    var sh' := sh.(used := sh.used[sh.ring[i] := flag]);
    forall k | 0 <= k < |sh.ring| ensures HeaderAt(c', pool, sh', k) {
      assert HeaderAt(c, pool, sh, k);
      if k != i {
        HeadersApart(0, hi, sh.ring, k, i);
        HeaderSame(c, c', pool, sh, sh', k, k);
      }
    }
  }
}
