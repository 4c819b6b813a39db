/**
 A memory pool cut into blocks, as both kernel heaps keep it: block headers in
 address order, each followed by its data, and which blocks are in use.  The last
 header is an empty tailer that is always in use.
 */
module BlockRing {
  import opened Base
  import opened IntrusiveList

  const HDR: nat := 32    // an aligned block header, in both heaps

  /** RT_ALIGN_DOWN to 32 bytes. */
  function AlignDown(size: nat): (r: nat)
    ensures r <= size < r + ALIGN && r % 32 == 0
  {
    size / 32 * 32
  }

  /** `Align` rounds up to the next multiple, so no multiple lies in between. */
  lemma AlignLeast(size: nat, m: nat)
    requires m % 32 == 0
    ensures m >= size <==> m >= Align(size)
  {
  }

  lemma AlignDownMost(size: nat, m: nat)
    requires m % 32 == 0
    ensures m <= size <==> m <= AlignDown(size)
  {
  }

  /** Block headers in address order and use flags. */
  datatype Shape = Shape(ring: seq<nat>, used: map<nat, bool>)

  /** The blocks tile the pool [lo, hi + HDR): headers ascend, each with room for itself. */
  ghost predicate Tiling(lo: nat, hi: nat, ring: seq<nat>) {
    && |ring| >= 2 && ring[0] == lo && ring[|ring| - 1] == hi
    && forall i :: 0 <= i < |ring| - 1 ==> Fits(ring, i)
  }

  /** Header `i` ends before header `i + 1` begins. */
  ghost predicate Fits(ring: seq<nat>, i: nat)
    requires i + 1 < |ring|
  {
    ring[i] + HDR <= ring[i + 1]
  }

  /** `a` lies a multiple of 32 bytes behind `lo`. */
  ghost predicate OnGrid(lo: nat, a: nat) {
    lo <= a && (a - lo) % 32 == 0
  }

  ghost predicate Gridded(lo: nat, ring: seq<nat>) {
    forall i :: 0 <= i < |ring| ==> GridAt(lo, ring, i)
  }

  ghost predicate GridAt(lo: nat, ring: seq<nat>, i: nat)
    requires i < |ring|
  {
    OnGrid(lo, ring[i])
  }

  ghost predicate Flagged(sh: Shape) {
    && AllFlagged(sh.ring, sh.used)
    && sh.ring != [] && sh.used[sh.ring[|sh.ring| - 1]]
  }

  ghost predicate NoAdjacentFree(sh: Shape)
    requires Flagged(sh)
  {
    forall i :: 0 <= i < |sh.ring| - 1 ==> OneUsed(sh, i)
  }

  ghost predicate OneUsed(sh: Shape, i: nat)
    requires Flagged(sh) && i + 1 < |sh.ring|
  {
    sh.used[sh.ring[i]] || sh.used[sh.ring[i + 1]]
  }

  /** A shape that may have adjacent free blocks, as in the middle of an operation. */
  ghost predicate Loose(lo: nat, hi: nat, sh: Shape) {
    Tiling(lo, hi, sh.ring) && Flagged(sh)
  }

  ghost predicate Good(lo: nat, hi: nat, sh: Shape) {
    Loose(lo, hi, sh) && NoAdjacentFree(sh)
  }

  // ------------------------------------------------------------ accounting

  ghost predicate AllFlagged(ring: seq<nat>, used: map<nat, bool>) {
    forall i :: 0 <= i < |ring| ==> ring[i] in used
  }

  /** What to add up: the bytes of the used (or of the free) blocks, without `header` bytes for each. */
  datatype Tally = Tally(flag: bool, header: nat)

  const FREE_DATA: Tally := Tally(false, HDR)   // data bytes of free blocks
  const USED_ALL: Tally := Tally(true, 0)       // used blocks with their headers

  /** The share of a block from address `a` up to `b` with use flag `u`. */
  function Share(c: Tally, u: bool, a: nat, b: nat): int {
    if u == c.flag then b - a - c.header else 0
  }

  ghost function Part(ring: seq<nat>, used: map<nat, bool>, c: Tally, i: nat): int
    requires AllFlagged(ring, used) && i + 1 < |ring|
  {
    Share(c, used[ring[i]], ring[i], ring[i + 1])
  }

  /** The tally from block `i` on. */
  ghost function SumFrom(ring: seq<nat>, used: map<nat, bool>, c: Tally, i: nat): int
    requires AllFlagged(ring, used)
    decreases |ring| - i
  {
    if i + 1 >= |ring| then 0 else Part(ring, used, c, i) + SumFrom(ring, used, c, i + 1)
  }

  /** The tally over the whole pool. */
  ghost function Sum(sh: Shape, c: Tally): int
    requires AllFlagged(sh.ring, sh.used)
  {
    SumFrom(sh.ring, sh.used, c, 0)
  }

  /** From `i` in one ring and `i + d` in the other, the blocks are the same. */
  lemma {:induction false} SuffixSame(ring: seq<nat>, used: map<nat, bool>, ring': seq<nat>, used': map<nat, bool>,
                                      c: Tally, i: nat, d: int)
    requires AllFlagged(ring, used) && AllFlagged(ring', used')
    requires i + d >= 0 && |ring'| == |ring| + d
    requires forall k :: i <= k < |ring| - 1 ==> Part(ring', used', c, k + d) == Part(ring, used, c, k)
    ensures SumFrom(ring', used', c, i + d) == SumFrom(ring, used, c, i)
    decreases |ring| - i
  {
    if i + 1 < |ring| {
      assert Part(ring', used', c, i + d) == Part(ring, used, c, i);
      SuffixSame(ring, used, ring', used', c, i + 1, d);
    }
  }

  /** The blocks in front of `i` are the same in both rings. */
  lemma {:induction false} PrefixSame(ring: seq<nat>, used: map<nat, bool>, ring': seq<nat>, used': map<nat, bool>,
                                      c: Tally, j: nat, i: nat)
    requires AllFlagged(ring, used) && AllFlagged(ring', used')
    requires j <= i < |ring| && i < |ring'|
    requires forall k :: j <= k < i ==> Part(ring', used', c, k) == Part(ring, used, c, k)
    ensures SumFrom(ring', used', c, j) - SumFrom(ring', used', c, i) ==
            SumFrom(ring, used, c, j) - SumFrom(ring, used, c, i)
    decreases i - j
  {
    if j < i {
      assert Part(ring', used', c, j) == Part(ring, used, c, j);
      PrefixSame(ring, used, ring', used', c, j + 1, i);
    }
  }

  lemma {:induction false} SumNonNegative(ring: seq<nat>, used: map<nat, bool>, c: Tally, i: nat)
    requires AllFlagged(ring, used) && (forall k :: 0 <= k < |ring| - 1 ==> Fits(ring, k)) && c.header <= HDR
    ensures SumFrom(ring, used, c, i) >= 0
    decreases |ring| - i
  {
    if i + 1 < |ring| {
      assert Fits(ring, i);
      SumNonNegative(ring, used, c, i + 1);
    }
  }

  /** Every block's share is part of the tally. */
  lemma {:induction false} SumCovers(ring: seq<nat>, used: map<nat, bool>, c: Tally, j: nat, i: nat)
    requires AllFlagged(ring, used) && (forall k :: 0 <= k < |ring| - 1 ==> Fits(ring, k)) && c.header <= HDR
    requires j <= i < |ring| - 1
    ensures Part(ring, used, c, i) <= SumFrom(ring, used, c, j)
    decreases i - j
  {
    assert Fits(ring, j);
    if j < i {
      SumCovers(ring, used, c, j + 1, i);
    } else {
      SumNonNegative(ring, used, c, i + 1);
    }
  }

  // --------------------------------------------------------------- ordering

  lemma {:induction false} Ascending(lo: nat, hi: nat, ring: seq<nat>, i: nat, j: nat)
    requires Tiling(lo, hi, ring) && i < j < |ring|
    ensures ring[i] + HDR <= ring[j]
    decreases j
  {
    assert Fits(ring, j - 1);
    if i + 1 < j {
      Ascending(lo, hi, ring, i, j - 1);
    }
  }

  lemma TilingNoDup(lo: nat, hi: nat, ring: seq<nat>)
    requires Tiling(lo, hi, ring)
    ensures NoDup(ring)
    ensures forall i :: 0 <= i < |ring| ==> lo <= ring[i] <= hi
  {
    forall i, j | 0 <= i < j < |ring| ensures ring[i] + HDR <= ring[j] {
      Ascending(lo, hi, ring, i, j);
    }
  }

  /** `a` is the header of a block in use with `n` data bytes. */
  ghost predicate IsLive(sh: Shape, a: nat, n: nat)
    requires Flagged(sh)
  {
    exists i :: 0 <= i < |sh.ring| - 1 && LiveAt(sh, i, a, n)
  }

  ghost predicate LiveAt(sh: Shape, i: nat, a: nat, n: nat)
    requires Flagged(sh) && i + 1 < |sh.ring|
  {
    sh.ring[i] == a && sh.used[a] && a + HDR + n == sh.ring[i + 1]
  }

  lemma LiveOnlyAt(sh: Shape, i: nat, n: nat)
    requires Flagged(sh) && NoDup(sh.ring) && i + 1 < |sh.ring| && IsLive(sh, sh.ring[i], n)
    ensures LiveAt(sh, i, sh.ring[i], n)
  {
    var k :| 0 <= k < |sh.ring| - 1 && LiveAt(sh, k, sh.ring[i], n);
    SameIndex(sh.ring, k, i);
  }

  lemma BlocksDisjoint(lo: nat, hi: nat, ring: seq<nat>, i: nat, j: nat)
    requires Tiling(lo, hi, ring) && i < |ring| - 1 && j < |ring| - 1 && i != j
    ensures ring[i + 1] <= ring[j] || ring[j + 1] <= ring[i]
  {
    if i + 1 < j {
      Ascending(lo, hi, ring, i + 1, j);
    } else if j + 1 < i {
      Ascending(lo, hi, ring, j + 1, i);
    }
  }

  /** Live blocks never overlap and stay inside the pool. */
  lemma LiveBlocksDisjoint(lo: nat, hi: nat, sh: Shape, a: nat, n: nat, b: nat, k: nat)
    requires Tiling(lo, hi, sh.ring) && Flagged(sh) && IsLive(sh, a, n) && IsLive(sh, b, k)
    ensures lo <= a && a + HDR + n <= hi
    ensures a == b ==> n == k
    ensures a != b ==> a + HDR + n <= b || b + HDR + k <= a
  {
    var i :| 0 <= i < |sh.ring| - 1 && LiveAt(sh, i, a, n);
    var j :| 0 <= j < |sh.ring| - 1 && LiveAt(sh, j, b, k);
    if i > 0 {
      Ascending(lo, hi, sh.ring, 0, i);
    }
    if i + 1 < |sh.ring| - 1 {
      Ascending(lo, hi, sh.ring, i + 1, |sh.ring| - 1);
    }
    if i != j {
      BlocksDisjoint(lo, hi, sh.ring, i, j);
    }
  }

  lemma LiveSizeUnique(lo: nat, hi: nat, sh: Shape, i: nat, size: nat)
    requires Good(lo, hi, sh) && i + 1 < |sh.ring| && LiveAt(sh, i, sh.ring[i], size)
    ensures forall n :: IsLive(sh, sh.ring[i], n) <==> n == size
  {
    forall n ensures IsLive(sh, sh.ring[i], n) <==> n == size {
      if IsLive(sh, sh.ring[i], n) {
        LiveBlocksDisjoint(lo, hi, sh, sh.ring[i], n, sh.ring[i], size);
      }
    }
  }

  // --------------------------------------------------- elementary changes

  /** Cut block `i` at `a`: `a` becomes the header of a new free block. */
  ghost function Split(sh: Shape, i: nat, a: nat): Shape
    requires i < |sh.ring|
  {
    Shape(Inserted(sh.ring, i, a), sh.used[a := false])
  }

  /** Block `i` is no longer free. */
  ghost function Occupy(sh: Shape, i: nat): Shape
    requires i < |sh.ring|
  {
    sh.(used := sh.used[sh.ring[i] := true])
  }

  /** Block `i` becomes free. */
  ghost function Vacate(sh: Shape, i: nat): Shape
    requires i < |sh.ring|
  {
    sh.(used := sh.used[sh.ring[i] := false])
  }

  /** Block `i` swallows the free block behind it. */
  ghost function Absorb(sh: Shape, i: nat): Shape
    requires i + 1 < |sh.ring|
  {
    sh.(ring := Deleted(sh.ring, i + 1))
  }

  lemma SplitTiling(lo: nat, hi: nat, ring: seq<nat>, i: nat, a: nat)
    requires Tiling(lo, hi, ring) && i < |ring| - 1 && ring[i] + HDR <= a && a + HDR <= ring[i + 1]
    ensures Tiling(lo, hi, Inserted(ring, i, a))
    ensures a !in ring
  {
    var r := Inserted(ring, i, a);
    forall k | 0 <= k < |ring| ensures ring[k] != a {
      if k < i {
        Ascending(lo, hi, ring, k, i);
      } else if i + 1 < k {
        Ascending(lo, hi, ring, i + 1, k);
      }
    }
    forall k | 0 <= k < |r| - 1 ensures Fits(r, k) {
      if k < i {
        assert Fits(ring, k) && r[k] == ring[k] && r[k + 1] == ring[k + 1];
      } else if k > i + 1 {
        assert Fits(ring, k - 1) && r[k] == ring[k - 1] && r[k + 1] == ring[k];
      }
    }
  }

  lemma SplitGrid(lo: nat, ring: seq<nat>, i: nat, a: nat)
    requires Gridded(lo, ring) && i < |ring| && OnGrid(lo, a)
    ensures Gridded(lo, Inserted(ring, i, a))
  {
    var r := Inserted(ring, i, a);
    forall k | 0 <= k < |r| ensures GridAt(lo, r, k) {
      if k != i + 1 {
        var j := if k <= i then k else k - 1;
        InsertedAt(ring, i, a, j);
        assert GridAt(lo, ring, j);
      }
    }
  }

  lemma SplitFlagged(sh: Shape, i: nat, a: nat)
    requires Flagged(sh) && i + 1 < |sh.ring| && a !in sh.ring
    ensures Flagged(Split(sh, i, a))
  {
    InsertedMembers(sh.ring, i, a);
    InsertedAt(sh.ring, i, a, |sh.ring| - 1);
  }

  lemma SplitLoose(lo: nat, hi: nat, sh: Shape, i: nat, a: nat)
    requires Loose(lo, hi, sh) && i < |sh.ring| - 1
    requires sh.ring[i] + HDR <= a && a + HDR <= sh.ring[i + 1]
    ensures a !in sh.ring
    ensures Loose(lo, hi, Split(sh, i, a))
  {
    SplitTiling(lo, hi, sh.ring, i, a);
    SplitFlagged(sh, i, a);
  }

  lemma SplitSum(sh: Shape, c: Tally, i: nat, a: nat)
    requires i < |sh.ring| - 1 && a !in sh.ring && AllFlagged(sh.ring, sh.used)
    requires AllFlagged(Split(sh, i, a).ring, Split(sh, i, a).used)
    ensures Sum(Split(sh, i, a), c) == Sum(sh, c)
              - Share(c, sh.used[sh.ring[i]], sh.ring[i], sh.ring[i + 1])
              + Share(c, sh.used[sh.ring[i]], sh.ring[i], a) + Share(c, false, a, sh.ring[i + 1])
  {
    var r, used := sh.ring, sh.used;
    var r', used' := Inserted(r, i, a), used[a := false];
    forall k | 0 <= k < i ensures Part(r', used', c, k) == Part(r, used, c, k) {
      InsertedAt(r, i, a, k);
      InsertedAt(r, i, a, k + 1);
    }
    forall k | i + 1 <= k < |r| - 1 ensures Part(r', used', c, k + 1) == Part(r, used, c, k) {
      InsertedAt(r, i, a, k);
      InsertedAt(r, i, a, k + 1);
    }
    PrefixSame(r, used, r', used', c, 0, i);
    SuffixSame(r, used, r', used', c, i + 1, 1);
    InsertedAt(r, i, a, i);
    InsertedAt(r, i, a, i + 1);
    assert SumFrom(r', used', c, i) == Part(r', used', c, i) + (Part(r', used', c, i + 1) + SumFrom(r', used', c, i + 2));
  }

  lemma AbsorbTiling(lo: nat, hi: nat, ring: seq<nat>, i: nat)
    requires Tiling(lo, hi, ring) && i + 2 < |ring|
    ensures Tiling(lo, hi, Deleted(ring, i + 1))
  {
    var r := Deleted(ring, i + 1);
    forall k | 0 <= k < |r| - 1 ensures Fits(r, k) {
      if k < i {
        assert Fits(ring, k) && r[k] == ring[k] && r[k + 1] == ring[k + 1];
      } else {
        assert Fits(ring, k) && Fits(ring, k + 1) && r[k + 1] == ring[k + 2];
      }
    }
  }

  lemma AbsorbGrid(lo: nat, ring: seq<nat>, i: nat)
    requires Gridded(lo, ring) && i < |ring|
    ensures Gridded(lo, Deleted(ring, i))
  {
    var r := Deleted(ring, i);
    forall k | 0 <= k < |r| ensures GridAt(lo, r, k) {
      var j := if k < i then k else k + 1;
      DeletedAt(ring, i, j);
      assert GridAt(lo, ring, j);
    }
  }

  lemma AbsorbFlagged(sh: Shape, i: nat)
    requires Flagged(sh) && i + 1 < |sh.ring| && !sh.used[sh.ring[i + 1]]
    ensures i + 2 < |sh.ring| && Flagged(Absorb(sh, i))
  {
    DeletedAt(sh.ring, i + 1, |sh.ring| - 1);
    var r := Deleted(sh.ring, i + 1);
    forall k | 0 <= k < |r| ensures r[k] in sh.used {
      DeletedAt(sh.ring, i + 1, if k < i + 1 then k else k + 1);
    }
  }

  lemma AbsorbLoose(lo: nat, hi: nat, sh: Shape, i: nat)
    requires Loose(lo, hi, sh) && i + 1 < |sh.ring| && !sh.used[sh.ring[i + 1]]
    ensures i + 2 < |sh.ring|
    ensures Loose(lo, hi, Absorb(sh, i))
  {
    TilingNoDup(lo, hi, sh.ring);
    AbsorbFlagged(sh, i);
    AbsorbTiling(lo, hi, sh.ring, i);
  }

  /** Deleting a header leaves the tally of the blocks in front of it, and of those behind, alone. */
  lemma AbsorbOutside(r: seq<nat>, used: map<nat, bool>, c: Tally, i: nat)
    requires i + 2 < |r| && AllFlagged(r, used) && AllFlagged(Deleted(r, i + 1), used)
    ensures SumFrom(Deleted(r, i + 1), used, c, 0) - SumFrom(Deleted(r, i + 1), used, c, i)
            == SumFrom(r, used, c, 0) - SumFrom(r, used, c, i)
    ensures SumFrom(Deleted(r, i + 1), used, c, i + 1) == SumFrom(r, used, c, i + 2)
  {
    var r' := Deleted(r, i + 1);
    forall k | 0 <= k < i ensures Part(r', used, c, k) == Part(r, used, c, k) {
      DeletedAt(r, i + 1, k);
      DeletedAt(r, i + 1, k + 1);
    }
    forall k | i + 2 <= k < |r| - 1 ensures Part(r', used, c, k + (-1)) == Part(r, used, c, k) {
      DeletedAt(r, i + 1, k);
      DeletedAt(r, i + 1, k + 1);
    }
    PrefixSame(r, used, r', used, c, 0, i);
    SuffixSame(r, used, r', used, c, i + 2, -1);
  }

  lemma AbsorbSum(sh: Shape, c: Tally, i: nat)
    requires i + 2 < |sh.ring| && AllFlagged(sh.ring, sh.used) && AllFlagged(Absorb(sh, i).ring, sh.used)
    ensures Sum(Absorb(sh, i), c) == Sum(sh, c)
              - Share(c, sh.used[sh.ring[i]], sh.ring[i], sh.ring[i + 1])
              - Share(c, sh.used[sh.ring[i + 1]], sh.ring[i + 1], sh.ring[i + 2])
              + Share(c, sh.used[sh.ring[i]], sh.ring[i], sh.ring[i + 2])
  {
    var r, used := sh.ring, sh.used;
    AbsorbOutside(r, used, c, i);
    DeletedAt(r, i + 1, i);
    DeletedAt(r, i + 1, i + 2);
    assert SumFrom(r, used, c, i) == Part(r, used, c, i) + (Part(r, used, c, i + 1) + SumFrom(r, used, c, i + 2));
  }

  lemma OccupyLoose(lo: nat, hi: nat, sh: Shape, i: nat)
    requires Loose(lo, hi, sh) && i < |sh.ring| - 1 && !sh.used[sh.ring[i]]
    ensures Loose(lo, hi, Occupy(sh, i))
  {
  }

  lemma VacateLoose(lo: nat, hi: nat, sh: Shape, i: nat)
    requires Loose(lo, hi, sh) && i < |sh.ring| - 1 && sh.used[sh.ring[i]]
    ensures Loose(lo, hi, Vacate(sh, i))
  {
    TilingNoDup(lo, hi, sh.ring);
    Apart(sh.ring, i, |sh.ring| - 1);
  }

  lemma FlagSum(sh: Shape, c: Tally, i: nat, flag: bool)
    requires NoDup(sh.ring) && i < |sh.ring| - 1 && AllFlagged(sh.ring, sh.used)
    requires AllFlagged(sh.ring, sh.used[sh.ring[i] := flag])
    ensures Sum(sh.(used := sh.used[sh.ring[i] := flag]), c) == Sum(sh, c)
              - Share(c, sh.used[sh.ring[i]], sh.ring[i], sh.ring[i + 1])
              + Share(c, flag, sh.ring[i], sh.ring[i + 1])
  {
    var r, used, used' := sh.ring, sh.used, sh.used[sh.ring[i] := flag];
    forall k | 0 <= k < i ensures Part(r, used', c, k) == Part(r, used, c, k) {
      Apart(r, k, i);
    }
    PrefixSame(r, used, r, used', c, 0, i);
    forall k | i + 1 <= k < |r| - 1 ensures Part(r, used', c, k + 0) == Part(r, used, c, k) {
      Apart(r, k, i);
    }
    SuffixSame(r, used, r, used', c, i + 1, 0);
  }

  // ------------------------------------------------------------ live blocks

  lemma SplitKeepsLive(sh: Shape, i: nat, a: nat, b: nat, n: nat)
    requires Flagged(sh) && i < |sh.ring| - 1 && a !in sh.ring && Flagged(Split(sh, i, a))
    requires b != sh.ring[i] && IsLive(sh, b, n)
    ensures IsLive(Split(sh, i, a), b, n)
  {
    var k :| 0 <= k < |sh.ring| - 1 && LiveAt(sh, k, b, n);
    InsertedAt(sh.ring, i, a, k);
    InsertedAt(sh.ring, i, a, k + 1);
    assert LiveAt(Split(sh, i, a), if k < i then k else k + 1, b, n);
  }

  lemma SplitAddsNoLive(sh: Shape, i: nat, a: nat, b: nat, n: nat)
    requires Flagged(sh) && i < |sh.ring| - 1 && a !in sh.ring && Flagged(Split(sh, i, a))
    requires b != sh.ring[i] && IsLive(Split(sh, i, a), b, n)
    ensures IsLive(sh, b, n)
  {
    var sh' := Split(sh, i, a);
    var k :| 0 <= k < |sh'.ring| - 1 && LiveAt(sh', k, b, n);
    InsertedAt(sh.ring, i, a, i);
    assert k != i && k != i + 1;
    var j := if k < i then k else k - 1;
    InsertedAt(sh.ring, i, a, j);
    InsertedAt(sh.ring, i, a, j + 1);
    assert LiveAt(sh, j, b, n);
  }

  lemma SplitLive(sh: Shape, i: nat, a: nat, b: nat, n: nat)
    requires Flagged(sh) && NoDup(sh.ring) && i < |sh.ring| - 1 && a !in sh.ring && Flagged(Split(sh, i, a))
    ensures IsLive(Split(sh, i, a), b, n) <==>
            if b == sh.ring[i] then sh.used[b] && b + HDR + n == a else IsLive(sh, b, n)
  {
    if b == sh.ring[i] {
      SplitLiveAt(sh, i, a, b, n);
    } else {
      if IsLive(sh, b, n) {
        SplitKeepsLive(sh, i, a, b, n);
      }
      if IsLive(Split(sh, i, a), b, n) {
        SplitAddsNoLive(sh, i, a, b, n);
      }
    }
  }

  lemma SplitLiveAt(sh: Shape, i: nat, a: nat, b: nat, n: nat)
    requires Flagged(sh) && NoDup(sh.ring) && i < |sh.ring| - 1 && a !in sh.ring && Flagged(Split(sh, i, a))
    requires b == sh.ring[i]
    ensures IsLive(Split(sh, i, a), b, n) <==> sh.used[b] && b + HDR + n == a
  {
    var sh' := Split(sh, i, a);
    InsertedAt(sh.ring, i, a, i);
    if sh.used[b] && b + HDR + n == a {
      assert LiveAt(sh', i, b, n);
    }
    if IsLive(sh', b, n) {
      InsertedNoDup(sh.ring, i, a);
      LiveOnlyAt(sh', i, n);
    }
  }

  lemma AbsorbKeepsLive(sh: Shape, i: nat, b: nat, n: nat)
    requires Flagged(sh) && i + 2 < |sh.ring| && !sh.used[sh.ring[i + 1]] && Flagged(Absorb(sh, i))
    requires b != sh.ring[i] && IsLive(sh, b, n)
    ensures IsLive(Absorb(sh, i), b, n)
  {
    var k :| 0 <= k < |sh.ring| - 1 && LiveAt(sh, k, b, n);
    DeletedAt(sh.ring, i + 1, k);
    DeletedAt(sh.ring, i + 1, k + 1);
    assert LiveAt(Absorb(sh, i), if k < i then k else k - 1, b, n);
  }

  lemma AbsorbAddsNoLive(sh: Shape, i: nat, b: nat, n: nat)
    requires Flagged(sh) && i + 2 < |sh.ring| && !sh.used[sh.ring[i + 1]] && Flagged(Absorb(sh, i))
    requires b != sh.ring[i] && IsLive(Absorb(sh, i), b, n)
    ensures IsLive(sh, b, n)
  {
    var sh' := Absorb(sh, i);
    var k :| 0 <= k < |sh'.ring| - 1 && LiveAt(sh', k, b, n);
    DeletedAt(sh.ring, i + 1, i);
    var j := if k < i then k else k + 1;
    DeletedAt(sh.ring, i + 1, j);
    DeletedAt(sh.ring, i + 1, j + 1);
    assert LiveAt(sh, j, b, n);
  }

  lemma AbsorbLive(sh: Shape, i: nat, b: nat, n: nat)
    requires Flagged(sh) && NoDup(sh.ring) && i + 2 < |sh.ring| && !sh.used[sh.ring[i + 1]] && Flagged(Absorb(sh, i))
    ensures IsLive(Absorb(sh, i), b, n) <==>
            if b == sh.ring[i] then sh.used[b] && b + HDR + n == sh.ring[i + 2] else IsLive(sh, b, n)
  {
    if b == sh.ring[i] {
      AbsorbLiveAt(sh, i, b, n);
    } else {
      if IsLive(sh, b, n) {
        AbsorbKeepsLive(sh, i, b, n);
      }
      if IsLive(Absorb(sh, i), b, n) {
        AbsorbAddsNoLive(sh, i, b, n);
      }
    }
  }

  lemma AbsorbLiveAt(sh: Shape, i: nat, b: nat, n: nat)
    requires Flagged(sh) && NoDup(sh.ring) && i + 2 < |sh.ring| && !sh.used[sh.ring[i + 1]] && Flagged(Absorb(sh, i))
    requires b == sh.ring[i]
    ensures IsLive(Absorb(sh, i), b, n) <==> sh.used[b] && b + HDR + n == sh.ring[i + 2]
  {
    var sh' := Absorb(sh, i);
    DeletedAt(sh.ring, i + 1, i);
    DeletedAt(sh.ring, i + 1, i + 2);
    if sh.used[b] && b + HDR + n == sh.ring[i + 2] {
      assert LiveAt(sh', i, b, n);
    }
    if IsLive(sh', b, n) {
      DeletedNoDup(sh.ring, i + 1);
      LiveOnlyAt(sh', i, n);
    }
  }

  lemma FlagLive(sh: Shape, i: nat, flag: bool, b: nat, n: nat)
    requires Flagged(sh) && NoDup(sh.ring) && i < |sh.ring| - 1
    requires Flagged(sh.(used := sh.used[sh.ring[i] := flag]))
    ensures IsLive(sh.(used := sh.used[sh.ring[i] := flag]), b, n) <==>
            if b == sh.ring[i] then flag && b + HDR + n == sh.ring[i + 1] else IsLive(sh, b, n)
  {
    var sh' := sh.(used := sh.used[sh.ring[i] := flag]);
    if b == sh.ring[i] && flag && b + HDR + n == sh.ring[i + 1] {
      assert LiveAt(sh', i, b, n);
    }
    if IsLive(sh, b, n) && b != sh.ring[i] {
      var k :| 0 <= k < |sh.ring| - 1 && LiveAt(sh, k, b, n);
      assert LiveAt(sh', k, b, n);
    }
    if IsLive(sh', b, n) {
      var k :| 0 <= k < |sh.ring| - 1 && LiveAt(sh', k, b, n);
      if b == sh.ring[i] {
        SameIndex(sh.ring, k, i);
      } else {
        assert LiveAt(sh, k, b, n);
      }
    }
  }

  // ------------------------------------------------------------- operations

  /** Data bytes of block `i`. */
  function Size(sh: Shape, i: nat): int
    requires i + 1 < |sh.ring|
  {
    sh.ring[i + 1] - sh.ring[i] - HDR
  }

  /** Give out the first `size` bytes of the free block `i`; the rest becomes a free block if it has `min` data bytes. */
  ghost function Carve(sh: Shape, i: nat, size: nat, min: nat): Shape
    requires i + 1 < |sh.ring|
  {
    if Size(sh, i) >= size + HDR + min
    then Occupy(Split(sh, i, sh.ring[i] + HDR + size), i)
    else Occupy(sh, i)
  }

  /** The data bytes of the block given out. */
  function Granted(sh: Shape, i: nat, size: nat, min: nat): int
    requires i + 1 < |sh.ring|
  {
    if Size(sh, i) >= size + HDR + min then size else Size(sh, i)
  }

  lemma SizeOnGrid(lo: nat, sh: Shape, i: nat)
    requires Gridded(lo, sh.ring) && i + 1 < |sh.ring| && Fits(sh.ring, i)
    ensures Size(sh, i) >= 0 && Size(sh, i) % 32 == 0
  {
    assert GridAt(lo, sh.ring, i) && GridAt(lo, sh.ring, i + 1);
  }

  /** Giving out a block keeps the headers on the grid exactly if the size given out is a multiple of 32. */
  lemma CarveGridded(lo: nat, sh: Shape, i: nat, size: nat, min: nat)
    requires Gridded(lo, sh.ring) && i + 1 < |sh.ring| && Fits(sh.ring, i)
    ensures Gridded(lo, Carve(sh, i, size, min).ring) <==> Granted(sh, i, size, min) % 32 == 0
  {
    if Size(sh, i) >= size + HDR + min {
      CutGridded(lo, sh.ring, i, size);
    } else {
      SizeOnGrid(lo, sh, i);
    }
  }

  lemma CutGridded(lo: nat, ring: seq<nat>, i: nat, size: nat)
    requires Gridded(lo, ring) && i + 1 < |ring|
    ensures Gridded(lo, Inserted(ring, i, ring[i] + HDR + size)) <==> size % 32 == 0
  {
    var a := ring[i] + HDR + size;
    assert GridAt(lo, ring, i);
    assert OnGrid(lo, a) <==> size % 32 == 0;
    if size % 32 == 0 {
      SplitGrid(lo, ring, i, a);
    } else {
      InsertedAt(ring, i, a, i + 1);
      assert !GridAt(lo, Inserted(ring, i, a), i + 1);
    }
  }

  lemma NoAdjacentAfterSplit(lo: nat, hi: nat, sh: Shape, i: nat, a: nat)
    requires Good(lo, hi, sh) && i + 1 < |sh.ring| && a !in sh.ring && Loose(lo, hi, Split(sh, i, a))
    ensures forall k :: 0 <= k < |sh.ring| && k != i + 1 && k != i ==> OneUsed(Split(sh, i, a), k)
    ensures sh.used[sh.ring[i]] ==> OneUsed(Split(sh, i, a), i)
    ensures sh.used[sh.ring[i + 1]] ==> OneUsed(Split(sh, i, a), i + 1)
  {
    var sh' := Split(sh, i, a);
    forall k | 0 <= k < |sh.ring| && k != i + 1 && k != i ensures OneUsed(sh', k) {
      var j := if k < i then k else k - 1;
      assert OneUsed(sh, j);
      InsertedAt(sh.ring, i, a, j);
      InsertedAt(sh.ring, i, a, j + 1);
    }
    InsertedAt(sh.ring, i, a, i);
    InsertedAt(sh.ring, i, a, i + 1);
  }

  lemma CarveSplitLoose(lo: nat, hi: nat, sh: Shape, i: nat, size: nat)
    requires Loose(lo, hi, sh) && i + 1 < |sh.ring|
    requires size + HDR <= Size(sh, i)
    ensures var a := sh.ring[i] + HDR + size;
            a !in sh.ring && Loose(lo, hi, Split(sh, i, a))
  {
    SplitLoose(lo, hi, sh, i, sh.ring[i] + HDR + size);
  }

  lemma CarveSplit(lo: nat, hi: nat, sh: Shape, i: nat, a: nat)
    requires Good(lo, hi, sh) && i + 1 < |sh.ring| && !sh.used[sh.ring[i]]
    requires a !in sh.ring && Loose(lo, hi, Split(sh, i, a))
    ensures Good(lo, hi, Occupy(Split(sh, i, a), i))
  {
    var sh1 := Split(sh, i, a);
    assert OneUsed(sh, i);
    NoAdjacentAfterSplit(lo, hi, sh, i, a);
    InsertedAt(sh.ring, i, a, i);
    OccupyLoose(lo, hi, sh1, i);
    forall k | 0 <= k < |sh1.ring| - 1 ensures OneUsed(Occupy(sh1, i), k) {
      assert k != i ==> OneUsed(sh1, k);
    }
  }

  lemma CarveWhole(lo: nat, hi: nat, sh: Shape, i: nat)
    requires Good(lo, hi, sh) && i + 1 < |sh.ring| && !sh.used[sh.ring[i]]
    ensures Good(lo, hi, Occupy(sh, i))
  {
    OccupyLoose(lo, hi, sh, i);
    forall k | 0 <= k < |sh.ring| - 1 ensures OneUsed(Occupy(sh, i), k) {
      assert OneUsed(sh, k);
    }
  }

  /** Giving out a block keeps the pool well formed. */
  lemma CarveGood(lo: nat, hi: nat, sh: Shape, i: nat, size: nat, min: nat)
    requires Good(lo, hi, sh) && i + 1 < |sh.ring| && !sh.used[sh.ring[i]]
    requires size <= Size(sh, i)
    ensures Good(lo, hi, Carve(sh, i, size, min))
  {
    if Size(sh, i) >= size + HDR + min {
      CarveSplitLoose(lo, hi, sh, i, size);
      CarveSplit(lo, hi, sh, i, sh.ring[i] + HDR + size);
    } else {
      CarveWhole(lo, hi, sh, i);
    }
  }

  lemma CarveSplitSum(sh: Shape, c: Tally, i: nat, a: nat)
    requires Flagged(sh) && NoDup(sh.ring) && i + 1 < |sh.ring| && !sh.used[sh.ring[i]] && a !in sh.ring
    requires Flagged(Split(sh, i, a)) && Flagged(Occupy(Split(sh, i, a), i))
    ensures Sum(Occupy(Split(sh, i, a), i), c) == Sum(sh, c)
              - Share(c, false, sh.ring[i], sh.ring[i + 1])
              + Share(c, true, sh.ring[i], a) + Share(c, false, a, sh.ring[i + 1])
  {
    InsertedAt(sh.ring, i, a, i);
    InsertedNoDup(sh.ring, i, a);
    SplitSum(sh, c, i, a);
    FlagSum(Split(sh, i, a), c, i, true);
  }

  /** Carving makes exactly one block live, with at least the requested size. */
  lemma CarveLive(lo: nat, hi: nat, sh: Shape, i: nat, size: nat, min: nat, b: nat, n: nat)
    requires Good(lo, hi, sh) && i + 1 < |sh.ring| && !sh.used[sh.ring[i]]
    requires size <= Size(sh, i) && Good(lo, hi, Carve(sh, i, size, min))
    ensures IsLive(Carve(sh, i, size, min), b, n) <==>
            if b == sh.ring[i] then n == Granted(sh, i, size, min) else IsLive(sh, b, n)
  {
    TilingNoDup(lo, hi, sh.ring);
    if Size(sh, i) >= size + HDR + min {
      CarveSplitLoose(lo, hi, sh, i, size);
      var a := sh.ring[i] + HDR + size;
      SplitLive(sh, i, a, b, n);
      InsertedAt(sh.ring, i, a, i);
      InsertedNoDup(sh.ring, i, a);
      FlagLive(Split(sh, i, a), i, true, b, n);
    } else {
      FlagLive(sh, i, true, b, n);
    }
  }

  // ------------------------------------------------------ merging neighbours

  /** Good except that block `j` and the block behind it may both be free. */
  ghost predicate GoodBut(lo: nat, hi: nat, sh: Shape, j: nat) {
    Loose(lo, hi, sh) && forall k :: 0 <= k < |sh.ring| - 1 && k != j ==> OneUsed(sh, k)
  }

  lemma AbsorbPairAt(sh: Shape, j: nat)
    requires Flagged(sh) && j + 2 < |sh.ring| && Flagged(Absorb(sh, j))
    ensures OneUsed(Absorb(sh, j), j) <==> sh.used[sh.ring[j]] || sh.used[sh.ring[j + 2]]
  {
    DeletedAt(sh.ring, j + 1, j);
    DeletedAt(sh.ring, j + 1, j + 2);
  }

  lemma AbsorbPairs(sh: Shape, j: nat, k: nat)
    requires Flagged(sh) && j + 2 < |sh.ring| && Flagged(Absorb(sh, j)) && k + 2 < |sh.ring| && k != j
    ensures OneUsed(Absorb(sh, j), k) <==> OneUsed(sh, if k < j then k else k + 1)
  {
    var i := if k < j then k else k + 1;
    DeletedAt(sh.ring, j + 1, i);
    DeletedAt(sh.ring, j + 1, i + 1);
  }

  /** Merge block `j` with the block behind it if that one is free. */
  ghost function Coalesce(sh: Shape, j: nat): Shape
    requires j + 1 < |sh.ring| && sh.ring[j + 1] in sh.used
  {
    if sh.used[sh.ring[j + 1]] then sh else Absorb(sh, j)
  }

  lemma CoalesceGood(lo: nat, hi: nat, sh: Shape, j: nat)
    requires GoodBut(lo, hi, sh, j) && j + 1 < |sh.ring|
    ensures Good(lo, hi, Coalesce(sh, j))
  {
    if sh.used[sh.ring[j + 1]] {
      assert OneUsed(sh, j);
    } else {
      AbsorbLoose(lo, hi, sh, j);
      assert OneUsed(sh, j + 1);
      AbsorbPairAt(sh, j);
      forall k | 0 <= k < |sh.ring| - 2 && k != j ensures OneUsed(Absorb(sh, j), k) {
        AbsorbPairs(sh, j, k);
      }
    }
  }

  /** Block `i` is given back and merged with a free block in front of it, not yet with one behind it. */
  ghost function MergedLeft(sh: Shape, i: nat): (Shape, nat)
    requires i < |sh.ring| && (i > 0 ==> sh.ring[i - 1] in sh.used)
  {
    var sh1 := Vacate(sh, i);
    if i > 0 && !sh.used[sh.ring[i - 1]] then (Absorb(sh1, i - 1), i - 1) else (sh1, i)
  }

  lemma VacatePairs(lo: nat, hi: nat, sh: Shape, i: nat)
    requires Good(lo, hi, sh) && i + 1 < |sh.ring| && sh.used[sh.ring[i]]
    ensures Loose(lo, hi, Vacate(sh, i))
    ensures forall k :: 0 <= k < |sh.ring| - 1 && k != i && k + 1 != i ==> OneUsed(Vacate(sh, i), k)
    ensures i > 0 ==> (OneUsed(Vacate(sh, i), i - 1) <==> sh.used[sh.ring[i - 1]])
  {
    VacateLoose(lo, hi, sh, i);
    TilingNoDup(lo, hi, sh.ring);
    if i > 0 {
      Apart(sh.ring, i - 1, i);
    }
    forall k | 0 <= k < |sh.ring| - 1 && k != i && k + 1 != i ensures OneUsed(Vacate(sh, i), k) {
      assert OneUsed(sh, k);
      Apart(sh.ring, k, i);
      Apart(sh.ring, k + 1, i);
    }
  }

  lemma AbsorbFreeGoodBut(lo: nat, hi: nat, sh: Shape, j: nat)
    requires Loose(lo, hi, sh) && j + 2 < |sh.ring| && !sh.used[sh.ring[j + 1]]
    requires forall k :: 0 <= k < |sh.ring| - 1 && k != j && k != j + 1 ==> OneUsed(sh, k)
    ensures GoodBut(lo, hi, Absorb(sh, j), j)
  {
    AbsorbLoose(lo, hi, sh, j);
    forall k | 0 <= k < |sh.ring| - 2 && k != j ensures OneUsed(Absorb(sh, j), k) {
      AbsorbPairs(sh, j, k);
    }
  }

  lemma MergedLeftGoodBut(lo: nat, hi: nat, sh: Shape, i: nat)
    requires Good(lo, hi, sh) && i + 1 < |sh.ring| && sh.used[sh.ring[i]]
    ensures var r := MergedLeft(sh, i); GoodBut(lo, hi, r.0, r.1) && r.1 + 1 < |r.0.ring|
  {
    VacatePairs(lo, hi, sh, i);
    if i > 0 && !sh.used[sh.ring[i - 1]] {
      AbsorbFreeGoodBut(lo, hi, Vacate(sh, i), i - 1);
    }
  }

  /** `rt_memheap_free` of block `i`. */
  ghost function Merged(sh: Shape, i: nat): Shape
    requires i < |sh.ring| && (i > 0 ==> sh.ring[i - 1] in sh.used)
    requires var r := MergedLeft(sh, i); r.1 + 1 < |r.0.ring| && r.0.ring[r.1 + 1] in r.0.used
  {
    var r := MergedLeft(sh, i);
    Coalesce(r.0, r.1)
  }

  lemma MergedGood(lo: nat, hi: nat, sh: Shape, i: nat)
    requires Good(lo, hi, sh) && i + 1 < |sh.ring| && sh.used[sh.ring[i]]
    ensures var r := MergedLeft(sh, i); GoodBut(lo, hi, r.0, r.1) && r.1 + 1 < |r.0.ring|
    ensures Good(lo, hi, Merged(sh, i))
  {
    MergedLeftGoodBut(lo, hi, sh, i);
    CoalesceGood(lo, hi, MergedLeft(sh, i).0, MergedLeft(sh, i).1);
  }

  lemma CoalesceGridded(lo: nat, sh: Shape, j: nat)
    requires Gridded(lo, sh.ring) && j + 1 < |sh.ring| && sh.ring[j + 1] in sh.used
    ensures Gridded(lo, Coalesce(sh, j).ring)
  {
    if !sh.used[sh.ring[j + 1]] {
      AbsorbGrid(lo, sh.ring, j + 1);
    }
  }

  lemma MergedGridded(lo: nat, hi: nat, sh: Shape, i: nat)
    requires Good(lo, hi, sh) && Gridded(lo, sh.ring) && i + 1 < |sh.ring| && sh.used[sh.ring[i]]
    requires var r := MergedLeft(sh, i); Flagged(r.0) && r.1 + 1 < |r.0.ring|
    ensures Gridded(lo, Merged(sh, i).ring)
  {
    var r := MergedLeft(sh, i);
    if r.1 != i {
      AbsorbGrid(lo, sh.ring, i);
    }
    CoalesceGridded(lo, r.0, r.1);
  }

  lemma CoalesceSum(sh: Shape, c: Tally, j: nat)
    requires Flagged(sh) && j + 1 < |sh.ring| && Flagged(Coalesce(sh, j))
    ensures Sum(Coalesce(sh, j), c) == Sum(sh, c) +
              if sh.used[sh.ring[j + 1]] then 0
              else Share(c, sh.used[sh.ring[j]], sh.ring[j], sh.ring[j + 2])
                   - Share(c, sh.used[sh.ring[j]], sh.ring[j], sh.ring[j + 1])
                   - Share(c, false, sh.ring[j + 1], sh.ring[j + 2])
  {
    if !sh.used[sh.ring[j + 1]] {
      AbsorbSum(sh, c, j);
    }
  }

  lemma MergedLeftSum(lo: nat, hi: nat, sh: Shape, c: Tally, i: nat)
    requires Good(lo, hi, sh) && i + 1 < |sh.ring| && sh.used[sh.ring[i]]
    ensures var r := MergedLeft(sh, i);
            && Loose(lo, hi, r.0)
            && Sum(r.0, c) == Sum(sh, c)
                 - Share(c, true, sh.ring[i], sh.ring[i + 1]) + Share(c, false, sh.ring[i], sh.ring[i + 1])
                 + (if i > 0 && !sh.used[sh.ring[i - 1]]
                    then Share(c, false, sh.ring[i - 1], sh.ring[i + 1]) - Share(c, false, sh.ring[i - 1], sh.ring[i])
                         - Share(c, false, sh.ring[i], sh.ring[i + 1])
                    else 0)
            && r.1 < |r.0.ring| && !r.0.used[r.0.ring[r.1]]
            && (r.1 == i ==> r.0.ring == sh.ring)
            && (r.1 != i ==> r.1 + 1 == i && r.0.ring == Deleted(sh.ring, i))
  {
    TilingNoDup(lo, hi, sh.ring);
    VacateLoose(lo, hi, sh, i);
    FlagSum(sh, c, i, false);
    var sh1 := Vacate(sh, i);
    if i > 0 && !sh.used[sh.ring[i - 1]] {
      Apart(sh.ring, i - 1, i);
      AbsorbLoose(lo, hi, sh1, i - 1);
      AbsorbSum(sh1, c, i - 1);
      DeletedAt(sh.ring, i, i - 1);
    }
  }

  /** Merging free blocks changes no live block. */
  lemma CoalesceLive(lo: nat, hi: nat, sh: Shape, j: nat, b: nat, n: nat)
    requires Loose(lo, hi, sh) && j + 1 < |sh.ring| && !sh.used[sh.ring[j]]
    ensures Loose(lo, hi, Coalesce(sh, j))
    ensures IsLive(Coalesce(sh, j), b, n) <==> IsLive(sh, b, n)
  {
    if !sh.used[sh.ring[j + 1]] {
      AbsorbLoose(lo, hi, sh, j);
      TilingNoDup(lo, hi, sh.ring);
      AbsorbLive(sh, j, b, n);
    }
  }

  /** Freeing a block ends its life and touches no other live block. */
  lemma MergedLive(lo: nat, hi: nat, sh: Shape, i: nat, b: nat, n: nat)
    requires Good(lo, hi, sh) && i + 1 < |sh.ring| && sh.used[sh.ring[i]]
    requires var r := MergedLeft(sh, i); GoodBut(lo, hi, r.0, r.1) && r.1 + 1 < |r.0.ring|
    requires Good(lo, hi, Merged(sh, i))
    ensures IsLive(Merged(sh, i), b, n) <==> b != sh.ring[i] && IsLive(sh, b, n)
  {
    var sh1 := Vacate(sh, i);
    TilingNoDup(lo, hi, sh.ring);
    VacateLoose(lo, hi, sh, i);
    FlagLive(sh, i, false, b, n);
    MergedLeftSum(lo, hi, sh, FREE_DATA, i);
    if i > 0 && !sh.used[sh.ring[i - 1]] {
      CoalesceLive(lo, hi, sh1, i - 1, b, n);
    }
    CoalesceLive(lo, hi, MergedLeft(sh, i).0, MergedLeft(sh, i).1, b, n);
  }

  /** The shapes have the same blocks with the same use flags. */
  ghost predicate SameBlocks(sh: Shape, sh': Shape) {
    sh'.ring == sh.ring && forall k :: 0 <= k < |sh.ring| ==> SameFlag(sh, sh', k)
  }

  /** `Merged` is defined for block `i`. */
  ghost predicate Mergeable(sh: Shape, i: nat) {
    && i < |sh.ring| && (i > 0 ==> sh.ring[i - 1] in sh.used)
    && var r := MergedLeft(sh, i); r.1 + 1 < |r.0.ring| && r.0.ring[r.1 + 1] in r.0.used
  }

  /** Giving back block `i` of `sh'` leads to the blocks of `sh`. */
  ghost predicate UndoneBy(sh: Shape, sh': Shape, i: nat) {
    Mergeable(sh', i) && SameBlocks(sh, Merged(sh', i))
  }

  lemma UndoSplit(sh: Shape, i: nat, a: nat)
    requires Flagged(sh) && i + 1 < |sh.ring| && !sh.used[sh.ring[i]] && a !in sh.ring
    requires i > 0 ==> sh.used[sh.ring[i - 1]]
    ensures UndoneBy(sh, Occupy(Split(sh, i, a), i), i)
  {
    var ring := Inserted(sh.ring, i, a);
    InsertedAt(sh.ring, i, a, i);
    InsertedAt(sh.ring, i, a, i + 1);
    if i > 0 {
      InsertedAt(sh.ring, i, a, i - 1);
    }
    assert Deleted(ring, i + 1) == sh.ring;
    JoinSplit(sh, i, ring, Split(sh, i, a).used[sh.ring[i] := true]);
  }

  /** Block `i` in use between a used block and a free one: giving it back takes in the one behind it. */
  lemma JoinSplit(sh: Shape, i: nat, ring: seq<nat>, used: map<nat, bool>)
    requires Flagged(sh) && i + 1 < |sh.ring| && !sh.used[sh.ring[i]] && |ring| == |sh.ring| + 1
    requires ring[i] == sh.ring[i] && ring[i + 1] !in sh.ring && Deleted(ring, i + 1) == sh.ring
    requires used == sh.used[ring[i + 1] := false][ring[i] := true]
    requires i > 0 ==> ring[i - 1] in used && used[ring[i - 1]]
    ensures UndoneBy(sh, Shape(ring, used), i)
  {
    var sh' := Shape(ring, used);
    assert Merged(sh', i) == Shape(sh.ring, used[ring[i] := false]);
    forall k | 0 <= k < |sh.ring| ensures SameFlag(sh, Merged(sh', i), k) {
      assert sh.ring[k] != ring[i + 1];
    }
  }

  lemma UndoWhole(sh: Shape, i: nat)
    requires Flagged(sh) && i + 1 < |sh.ring| && !sh.used[sh.ring[i]] && sh.used[sh.ring[i + 1]]
    requires i > 0 ==> sh.used[sh.ring[i - 1]]
    ensures UndoneBy(sh, Occupy(sh, i), i)
  {
  }

  /** Giving back the block just given out restores the blocks and their use flags. */
  lemma MergedUndoesCarve(lo: nat, hi: nat, sh: Shape, i: nat, size: nat, min: nat, sh': Shape)
    requires Good(lo, hi, sh) && i + 1 < |sh.ring| && !sh.used[sh.ring[i]]
    requires size <= Size(sh, i) && sh' == Carve(sh, i, size, min)
    ensures UndoneBy(sh, sh', i)
  {
    assert OneUsed(sh, i);
    if i > 0 {
      assert OneUsed(sh, i - 1);
    }
    if Size(sh, i) >= size + HDR + min {
      SplitTiling(lo, hi, sh.ring, i, sh.ring[i] + HDR + size);
      UndoSplit(sh, i, sh.ring[i] + HDR + size);
    } else {
      UndoWhole(sh, i);
    }
  }

  ghost predicate SameFlag(sh: Shape, sh': Shape, k: nat)
    requires k < |sh.ring|
  {
    sh.ring[k] in sh.used && sh.ring[k] in sh'.used && sh.used[sh.ring[k]] == sh'.used[sh.ring[k]]
  }

  // -------------------------------------------------------------- reallocation

  /** Grow block `i` up to `a` into the free block behind it, whose rest becomes the new free block. */
  ghost function Grown(sh: Shape, i: nat, a: nat): Shape
    requires i + 2 < |sh.ring|
  {
    Split(Absorb(sh, i), i, a)
  }

  /** Shrink block `i` to end at `a`; its tail becomes free and merges with a free block behind it. */
  ghost function Shrunk(sh: Shape, i: nat, a: nat): Shape
    requires i + 1 < |sh.ring| && sh.ring[i + 1] in sh.used
  {
    InsertedAt(sh.ring, i, a, i + 1);
    Coalesce(Split(sh, i, a), i + 1)
  }

  /** `a` may start a block inside block `i`. */
  ghost predicate CutsBlock(sh: Shape, i: nat, a: nat) {
    i + 1 < |sh.ring| && sh.ring[i] + HDR <= a && a + HDR <= sh.ring[i + 1]
  }

  lemma SplitUsed(lo: nat, hi: nat, sh: Shape, i: nat, a: nat)
    requires Good(lo, hi, sh) && CutsBlock(sh, i, a) && sh.used[sh.ring[i]]
    ensures a !in sh.ring
    ensures GoodBut(lo, hi, Split(sh, i, a), i + 1)
  {
    SplitLoose(lo, hi, sh, i, a);
    NoAdjacentAfterSplit(lo, hi, sh, i, a);
    forall k | 0 <= k < |sh.ring| && k != i + 1 ensures OneUsed(Split(sh, i, a), k) {
    }
  }

  lemma SplitBeforeUsed(lo: nat, hi: nat, sh: Shape, i: nat, a: nat)
    requires i + 1 < |sh.ring| && sh.ring[i + 1] in sh.used && GoodBut(lo, hi, Split(sh, i, a), i + 1)
    requires sh.used[sh.ring[i + 1]] && a != sh.ring[i + 1]
    ensures Good(lo, hi, Split(sh, i, a))
  {
    InsertedAt(sh.ring, i, a, i + 1);
    assert OneUsed(Split(sh, i, a), i + 1);
  }

  lemma AbsorbUsedGood(lo: nat, hi: nat, sh: Shape, i: nat)
    requires Good(lo, hi, sh) && i + 1 < |sh.ring| && sh.used[sh.ring[i]] && !sh.used[sh.ring[i + 1]]
    ensures i + 2 < |sh.ring| && Good(lo, hi, Absorb(sh, i)) && sh.used[sh.ring[i + 2]]
    ensures var r := Absorb(sh, i).ring; i + 1 < |r| && r[i] == sh.ring[i] && r[i + 1] == sh.ring[i + 2]
  {
    assert GoodBut(lo, hi, sh, i);
    CoalesceGood(lo, hi, sh, i);
    AbsorbLoose(lo, hi, sh, i);
    assert OneUsed(sh, i + 1);
    DeletedAt(sh.ring, i + 1, i);
    DeletedAt(sh.ring, i + 1, i + 2);
  }

  /** Growing in place keeps the heap well formed. */
  lemma GrownGood(lo: nat, hi: nat, sh: Shape, i: nat, a: nat)
    requires Good(lo, hi, sh) && i + 2 < |sh.ring| && sh.used[sh.ring[i]] && !sh.used[sh.ring[i + 1]]
    requires sh.ring[i] + HDR <= a && a + HDR <= sh.ring[i + 2]
    ensures Good(lo, hi, Absorb(sh, i)) && Good(lo, hi, Grown(sh, i, a))
    ensures a !in Absorb(sh, i).ring
  {
    AbsorbUsedGood(lo, hi, sh, i);
    SplitUsed(lo, hi, Absorb(sh, i), i, a);
    SplitBeforeUsed(lo, hi, Absorb(sh, i), i, a);
  }

  lemma SplitUsedLive(sh: Shape, i: nat, a: nat, b: nat, n: nat)
    requires Flagged(sh) && NoDup(sh.ring) && i + 1 < |sh.ring| && sh.used[sh.ring[i]]
    requires a !in sh.ring && Flagged(Split(sh, i, a))
    ensures IsLive(Split(sh, i, a), b, n) <==> if b == sh.ring[i] then b + HDR + n == a else IsLive(sh, b, n)
  {
    SplitLive(sh, i, a, b, n);
  }

  lemma AbsorbUsedLive(sh: Shape, i: nat, b: nat, n: nat)
    requires Flagged(sh) && NoDup(sh.ring) && i + 2 < |sh.ring| && sh.used[sh.ring[i]] && !sh.used[sh.ring[i + 1]]
    requires Flagged(Absorb(sh, i)) && b != sh.ring[i]
    ensures IsLive(Absorb(sh, i), b, n) <==> IsLive(sh, b, n)
  {
    AbsorbLive(sh, i, b, n);
  }

  /** Shrinking in place keeps the heap well formed. */
  lemma ShrunkGood(lo: nat, hi: nat, sh: Shape, i: nat, a: nat)
    requires Good(lo, hi, sh) && CutsBlock(sh, i, a) && sh.used[sh.ring[i]]
    ensures a !in sh.ring
    ensures GoodBut(lo, hi, Split(sh, i, a), i + 1)
    ensures Good(lo, hi, Shrunk(sh, i, a))
  {
    SplitUsed(lo, hi, sh, i, a);
    CutThenCoalesce(lo, hi, sh, i, a);
  }

  lemma CutThenCoalesce(lo: nat, hi: nat, sh: Shape, i: nat, a: nat)
    requires i + 1 < |sh.ring| && sh.ring[i + 1] in sh.used && GoodBut(lo, hi, Split(sh, i, a), i + 1)
    ensures Good(lo, hi, Shrunk(sh, i, a))
  {
    CoalesceGood(lo, hi, Split(sh, i, a), i + 1);
  }

  lemma ShrunkLive(lo: nat, hi: nat, sh: Shape, i: nat, a: nat, size: nat, b: nat, n: nat)
    requires Flagged(sh) && NoDup(sh.ring) && i + 1 < |sh.ring| && sh.used[sh.ring[i]]
    requires a !in sh.ring && a == sh.ring[i] + HDR + size
    requires Loose(lo, hi, Split(sh, i, a)) && Flagged(Shrunk(sh, i, a))
    ensures IsLive(Shrunk(sh, i, a), b, n) <==> if b == sh.ring[i] then n == size else IsLive(sh, b, n)
  {
    SplitUsedLive(sh, i, a, b, n);
    InsertedAt(sh.ring, i, a, i + 1);
    CoalesceLive(lo, hi, Split(sh, i, a), i + 1, b, n);
  }

  lemma ShrunkGridded(lo: nat, sh: Shape, i: nat, size: nat, a: nat)
    requires Gridded(lo, sh.ring) && i + 1 < |sh.ring| && sh.ring[i + 1] in sh.used
    requires size % 32 == 0 && a == sh.ring[i] + HDR + size
    ensures Gridded(lo, Shrunk(sh, i, a).ring)
  {
    CutGridded(lo, sh.ring, i, size);
    InsertedAt(sh.ring, i, a, i + 1);
    CoalesceGridded(lo, Split(sh, i, a), i + 1);
  }

  lemma GrownGridded(lo: nat, sh: Shape, i: nat, size: nat, a: nat)
    requires Gridded(lo, sh.ring) && i + 2 < |sh.ring|
    requires size % 32 == 0 && a == sh.ring[i] + HDR + size
    ensures Gridded(lo, Grown(sh, i, a).ring)
  {
    AbsorbGrid(lo, sh.ring, i + 1);
    DeletedAt(sh.ring, i + 1, i);
    CutGridded(lo, Absorb(sh, i).ring, i, size);
  }
}
