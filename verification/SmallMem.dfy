/**
 The small-memory heap of rt-thread/src/mem.c: first-fit allocation from the
 lowest free block, release with merging, and reallocation.
 */
module SmallMem {
  import opened Base
  import opened IntrusiveList
  import opened BlockRing
  import opened SmallMemHeaders

  const MIN_SIZE: nat := 12
  const MIN_SIZE_ALIGNED: nat := 32
  const SIZE_MAX: nat := 0xffff_ffff

  // ------------------------------------------------------ lowest free block

  /** `f` is the lowest free block, or the end of the heap if there is none. */
  ghost predicate Lowest(sh: Shape, f: nat)
    requires Flagged(sh)
  {
    && f in sh.ring && (f == sh.ring[|sh.ring| - 1] || !sh.used[f])
    && UsedUpTo(sh, f)
  }

  /** Every block below `f` is in use. */
  ghost predicate UsedUpTo(sh: Shape, f: nat)
    requires Flagged(sh)
  {
    forall k :: 0 <= k < |sh.ring| ==> UsedBelow(sh, f, k)
  }

  ghost predicate UsedBelow(sh: Shape, f: nat, k: nat)
    requires Flagged(sh) && k < |sh.ring|
  {
    sh.ring[k] < f ==> sh.used[sh.ring[k]]
  }

  lemma LowestBound(sh: Shape, f: nat, i: nat)
    requires Flagged(sh) && Lowest(sh, f) && i < |sh.ring| && !sh.used[sh.ring[i]]
    ensures f <= sh.ring[i]
  {
    assert UsedBelow(sh, f, i);
  }

  lemma SplitUsedUpTo(sh: Shape, f: nat, i: nat, a: nat)
    requires Flagged(sh) && UsedUpTo(sh, f) && i + 1 < |sh.ring| && a !in sh.ring && f <= a && Flagged(Split(sh, i, a))
    ensures UsedUpTo(Split(sh, i, a), f)
  {
    var sh' := Split(sh, i, a);
    forall k | 0 <= k < |sh'.ring| ensures UsedBelow(sh', f, k) {
      if k != i + 1 {
        var j := if k <= i then k else k - 1;
        InsertedAt(sh.ring, i, a, j);
        assert UsedBelow(sh, f, j);
      }
    }
  }

  /** Cutting a block moves the lowest free block down to the new one if it is lower. */
  lemma SplitLowest(sh: Shape, f: nat, i: nat, a: nat)
    requires Flagged(sh) && Lowest(sh, f) && i + 1 < |sh.ring| && a !in sh.ring && Flagged(Split(sh, i, a))
    ensures Lowest(Split(sh, i, a), if a < f then a else f)
  {
    var f' := if a < f then a else f;
    assert UsedUpTo(sh, f') by {
      forall k | 0 <= k < |sh.ring| ensures UsedBelow(sh, f', k) {
        assert UsedBelow(sh, f, k);
      }
    }
    SplitUsedUpTo(sh, f', i, a);
    InsertedMembers(sh.ring, i, a);
    InsertedAt(sh.ring, i, a, |sh.ring| - 1);
  }

  lemma OccupyUsedUpTo(sh: Shape, f: nat, i: nat)
    requires Flagged(sh) && UsedUpTo(sh, f) && i < |sh.ring| && Flagged(Occupy(sh, i))
    ensures UsedUpTo(Occupy(sh, i), f)
  {
    forall k | 0 <= k < |sh.ring| ensures UsedBelow(Occupy(sh, i), f, k) {
      assert UsedBelow(sh, f, k);
    }
  }

  lemma VacateLowest(lo: nat, hi: nat, sh: Shape, f: nat, i: nat)
    requires Loose(lo, hi, sh) && Lowest(sh, f) && i + 1 < |sh.ring| && Flagged(Vacate(sh, i))
    ensures Lowest(Vacate(sh, i), if sh.ring[i] < f then sh.ring[i] else f)
  {
    var h := sh.ring[i];
    var f' := if h < f then h else f;
    assert h in sh.ring;
    forall k | 0 <= k < |sh.ring| ensures UsedBelow(Vacate(sh, i), f', k) {
      assert UsedBelow(sh, f, k);
    }
  }

  lemma AbsorbUsedUpTo(sh: Shape, f: nat, j: nat)
    requires Flagged(sh) && UsedUpTo(sh, f) && j + 2 < |sh.ring| && Flagged(Absorb(sh, j))
    ensures UsedUpTo(Absorb(sh, j), f)
  {
    forall k | 0 <= k < |sh.ring| - 1 ensures UsedBelow(Absorb(sh, j), f, k) {
      var i := if k <= j then k else k + 1;
      DeletedAt(sh.ring, j + 1, i);
      assert UsedBelow(sh, f, i);
    }
  }

  /** Merging two free blocks leaves the lowest free block where it was. */
  lemma AbsorbLowest(lo: nat, hi: nat, sh: Shape, f: nat, j: nat)
    requires Loose(lo, hi, sh) && Lowest(sh, f) && j + 2 < |sh.ring| && Flagged(Absorb(sh, j))
    requires !sh.used[sh.ring[j]] && !sh.used[sh.ring[j + 1]]
    ensures f != sh.ring[j + 1] && Lowest(Absorb(sh, j), f)
  {
    LowestBound(sh, f, j);
    Ascending(lo, hi, sh.ring, j, j + 1);
    TilingNoDup(lo, hi, sh.ring);
    DeletedMember(sh.ring, j + 1, f);
    DeletedAt(sh.ring, j + 1, |sh.ring| - 1);
    AbsorbUsedUpTo(sh, f, j);
  }

  // -------------------------------------------------------------- plug_holes

  /** `plug_holes` on the free block `i`: merge with a free block behind it, then with one in front. */
  ghost function Plug(sh: Shape, i: nat): Shape
    requires i + 1 < |sh.ring| && sh.ring[i + 1] in sh.used && (i > 0 ==> sh.ring[i - 1] in sh.used)
  {
    var sh1 := Coalesce(sh, i);
    if i > 0 && !sh.used[sh.ring[i - 1]] then Absorb(sh1, i - 1) else sh1
  }

  /** What `plug_holes` makes of the lowest-free hint. */
  ghost function PlugHint(sh: Shape, i: nat, f: nat): nat
    requires i + 1 < |sh.ring| && sh.ring[i + 1] in sh.used && (i > 0 ==> sh.ring[i - 1] in sh.used)
  {
    var f1 := if !sh.used[sh.ring[i + 1]] && f == sh.ring[i + 1] then sh.ring[i] else f;
    if i > 0 && !sh.used[sh.ring[i - 1]] && f1 == sh.ring[i] then sh.ring[i - 1] else f1
  }

  /** Merging behind first and in front second gives the same pool as the other order. */
  lemma PlugIsMerged(lo: nat, hi: nat, sh: Shape, i: nat)
    requires Good(lo, hi, sh) && i + 1 < |sh.ring| && sh.used[sh.ring[i]]
    requires var r := MergedLeft(sh, i); GoodBut(lo, hi, r.0, r.1) && r.1 + 1 < |r.0.ring|
    ensures Vacate(sh, i).ring == sh.ring && sh.ring[i + 1] in Vacate(sh, i).used && (i > 0 ==> sh.ring[i - 1] in Vacate(sh, i).used)
    ensures Plug(Vacate(sh, i), i) == Merged(sh, i)
  {
    TilingNoDup(lo, hi, sh.ring);
    Apart(sh.ring, i, i + 1);
    var r := MergedLeft(sh, i);
    if i > 0 {
      Apart(sh.ring, i, i - 1);
      if !sh.used[sh.ring[i - 1]] {
        DeletedAt(sh.ring, i, i + 1);
        assert Deleted(Deleted(sh.ring, i + 1), i) == Deleted(Deleted(sh.ring, i), i);
      }
    }
  }

  lemma CoalesceLowest(lo: nat, hi: nat, sh: Shape, f: nat, i: nat)
    requires Loose(lo, hi, sh) && Lowest(sh, f) && i + 1 < |sh.ring| && !sh.used[sh.ring[i]]
    ensures !sh.used[sh.ring[i + 1]] ==> f != sh.ring[i + 1]
    ensures var sh' := Coalesce(sh, i); Loose(lo, hi, sh') && Lowest(sh', f) && i + 1 < |sh'.ring|
    ensures var r := Coalesce(sh, i).ring; r[i] == sh.ring[i] && (i > 0 ==> r[i - 1] == sh.ring[i - 1])
  {
    if !sh.used[sh.ring[i + 1]] {
      AbsorbLoose(lo, hi, sh, i);
      AbsorbLowest(lo, hi, sh, f, i);
      DeletedAt(sh.ring, i + 1, i);
      if i > 0 {
        DeletedAt(sh.ring, i + 1, i - 1);
      }
    }
  }

  lemma AbsorbFrontLowest(lo: nat, hi: nat, sh: Shape, f: nat, i: nat)
    requires Loose(lo, hi, sh) && Lowest(sh, f) && 0 < i < |sh.ring| && !sh.used[sh.ring[i]] && !sh.used[sh.ring[i - 1]]
    ensures f != sh.ring[i] && Flagged(Absorb(sh, i - 1)) && Lowest(Absorb(sh, i - 1), f)
  {
    AbsorbLoose(lo, hi, sh, i - 1);
    AbsorbLowest(lo, hi, sh, f, i - 1);
  }

  /** The hint branches of `plug_holes` never fire when the hint is the lowest free block. */
  lemma PlugLowest(lo: nat, hi: nat, sh: Shape, f: nat, i: nat)
    requires Loose(lo, hi, sh) && Lowest(sh, f) && i + 1 < |sh.ring| && !sh.used[sh.ring[i]]
    ensures PlugHint(sh, i, f) == f
    ensures Flagged(Plug(sh, i)) && Lowest(Plug(sh, i), f)
  {
    CoalesceLowest(lo, hi, sh, f, i);
    if i > 0 && !sh.used[sh.ring[i - 1]] {
      AbsorbFrontLowest(lo, hi, Coalesce(sh, i), f, i);
    }
  }

  // -------------------------------------------------------------- data bytes

  /** Cell `x` is a data byte of the block in use at `b`. */
  ghost predicate LiveByte(sh: Shape, b: nat, x: nat)
    requires Flagged(sh)
  {
    exists n: nat :: IsLive(sh, b, n) && b + HDR <= x < b + HDR + n
  }

  /** No header overlaps the data of a block in use. */
  lemma LiveByteClear(lo: nat, hi: nat, sh: Shape, b: nat, x: nat)
    requires Tiling(lo, hi, sh.ring) && Flagged(sh) && LiveByte(sh, b, x)
    ensures lo <= x < hi && ClearOf(sh.ring, x)
  {
    var n: nat :| IsLive(sh, b, n) && b + HDR <= x < b + HDR + n;
    var i :| 0 <= i < |sh.ring| - 1 && LiveAt(sh, i, b, n);
    TilingNoDup(lo, hi, sh.ring);
    forall j | 0 <= j < |sh.ring| ensures OffHeader(sh.ring, j, x) {
      if j < i {
        Ascending(lo, hi, sh.ring, j, i);
      } else if i + 1 < j {
        Ascending(lo, hi, sh.ring, i + 1, j);
      }
    }
  }

  lemma ClearDeleted(ring: seq<nat>, i: nat, x: nat)
    requires i < |ring| && ClearOf(ring, x)
    ensures ClearOf(Deleted(ring, i), x)
  {
    forall j | 0 <= j < |ring| - 1 ensures OffHeader(Deleted(ring, i), j, x) {
      var k := if j < i then j else j + 1;
      DeletedAt(ring, i, k);
      assert OffHeader(ring, k, x);
    }
  }

  lemma DeletedKeeps(ring: seq<nat>, i: nat)
    requires i + 1 < |ring|
    ensures var r := Deleted(ring, i + 1); i < |r| && r[i] == ring[i] && (i > 0 ==> r[i - 1] == ring[i - 1])
    ensures forall x :: ClearOf(ring, x) ==> ClearOf(Deleted(ring, i + 1), x)
  {
    DeletedAt(ring, i + 1, i);
    forall x | ClearOf(ring, x) ensures ClearOf(Deleted(ring, i + 1), x) {
      ClearDeleted(ring, i + 1, x);
    }
  }

  // --------------------------------------------------------- smallest blocks

  /** Every block has room for the smallest request. */
  ghost predicate Roomy(ring: seq<nat>) {
    forall i :: 0 <= i < |ring| - 1 ==> RoomAt(ring, i)
  }

  ghost predicate RoomAt(ring: seq<nat>, i: nat)
    requires i + 1 < |ring|
  {
    ring[i] + HDR + MIN_SIZE_ALIGNED <= ring[i + 1]
  }

  lemma SplitRoomy(ring: seq<nat>, i: nat, a: nat)
    requires Roomy(ring) && i + 1 < |ring|
    requires ring[i] + HDR + MIN_SIZE_ALIGNED <= a && a + HDR + MIN_SIZE_ALIGNED <= ring[i + 1]
    ensures Roomy(Inserted(ring, i, a))
  {
    var r := Inserted(ring, i, a);
    forall k | 0 <= k < |r| - 1 ensures RoomAt(r, k) {
      InsertedAt(ring, i, a, i);
      InsertedAt(ring, i, a, i + 1);
      if k < i || k > i + 1 {
        var j := if k < i then k else k - 1;
        InsertedAt(ring, i, a, j);
        InsertedAt(ring, i, a, j + 1);
        assert RoomAt(ring, j);
      }
    }
  }

  lemma AbsorbRoomy(ring: seq<nat>, i: nat)
    requires Roomy(ring) && i + 2 < |ring|
    ensures Roomy(Deleted(ring, i + 1))
  {
    var r := Deleted(ring, i + 1);
    forall k | 0 <= k < |r| - 1 ensures RoomAt(r, k) {
      var j := if k <= i then k else k + 1;
      DeletedAt(ring, i + 1, j);
      assert RoomAt(ring, j);
      if k == i {
        DeletedAt(ring, i + 1, i + 2);
        assert RoomAt(ring, i + 1);
      } else {
        DeletedAt(ring, i + 1, j + 1);
      }
    }
  }

  // ----------------------------------- what each operation does to the shape

  /** All that is kept between operations, apart from the header cells. */
  ghost predicate Kept(hi: nat, sh: Shape, used: int) {
    Good(0, hi, sh) && Gridded(0, sh.ring) && used == Sum(sh, USED_ALL) && (hi >= HDR + MIN_SIZE_ALIGNED ==> Roomy(sh.ring))
  }

  lemma CarveFacts(hi: nat, sh: Shape, i: nat, size: nat, used: int)
    requires Kept(hi, sh, used) && i + 1 < |sh.ring| && !sh.used[sh.ring[i]]
    requires size % 32 == 0 && MIN_SIZE_ALIGNED <= size <= Size(sh, i)
    ensures var cut := Size(sh, i) >= size + HDR + MIN_SIZE_ALIGNED;
            Kept(hi, Carve(sh, i, size, MIN_SIZE_ALIGNED), used + if cut then size + HDR else Size(sh, i) + HDR)
  {
    var a := sh.ring[i] + HDR + size;
    CarveGood(0, hi, sh, i, size, MIN_SIZE_ALIGNED);
    assert Fits(sh.ring, i);
    SizeOnGrid(0, sh, i);
    CarveGridded(0, sh, i, size, MIN_SIZE_ALIGNED);
    TilingNoDup(0, hi, sh.ring);
    if Size(sh, i) >= size + HDR + MIN_SIZE_ALIGNED {
      CarveSplitLoose(0, hi, sh, i, size);
      CarveSplitSum(sh, USED_ALL, i, a);
      if hi >= HDR + MIN_SIZE_ALIGNED {
        SplitRoomy(sh.ring, i, a);
      }
    } else {
      FlagSum(sh, USED_ALL, i, true);
    }
  }

  lemma MergedRoomy(sh: Shape, i: nat)
    requires Flagged(sh) && i + 1 < |sh.ring| && Roomy(sh.ring) && sh.used[sh.ring[i]]
    requires var r := MergedLeft(sh, i); Flagged(r.0) && r.1 + 1 < |r.0.ring|
    ensures Roomy(Merged(sh, i).ring)
  {
    var r := MergedLeft(sh, i);
    if r.1 != i {
      AbsorbRoomy(sh.ring, i - 1);
    }
    CoalesceRoomy(r.0, r.1);
  }

  lemma CoalesceRoomy(sh: Shape, j: nat)
    requires Flagged(sh) && j + 1 < |sh.ring| && Roomy(sh.ring)
    ensures Roomy(Coalesce(sh, j).ring)
  {
    if !sh.used[sh.ring[j + 1]] {
      AbsorbFlagged(sh, j);
      AbsorbRoomy(sh.ring, j);
    }
  }

  lemma MergedFacts(hi: nat, sh: Shape, i: nat, used: int)
    requires Kept(hi, sh, used) && i + 1 < |sh.ring| && sh.used[sh.ring[i]]
    ensures var r := MergedLeft(sh, i); GoodBut(0, hi, r.0, r.1) && r.1 + 1 < |r.0.ring|
    ensures Kept(hi, Merged(sh, i), used - Size(sh, i) - HDR)
  {
    MergedGood(0, hi, sh, i);
    MergedGridded(0, hi, sh, i);
    MergedLeftSum(0, hi, sh, USED_ALL, i);
    CoalesceSum(MergedLeft(sh, i).0, USED_ALL, MergedLeft(sh, i).1);
    if hi >= HDR + MIN_SIZE_ALIGNED {
      MergedRoomy(sh, i);
    }
  }

  lemma ShrunkSum(sh: Shape, i: nat, a: nat)
    requires Flagged(sh) && i + 1 < |sh.ring| && sh.used[sh.ring[i]] && a !in sh.ring
    requires Flagged(Split(sh, i, a)) && Flagged(Shrunk(sh, i, a))
    ensures Sum(Shrunk(sh, i, a), USED_ALL) == Sum(sh, USED_ALL) - (sh.ring[i + 1] - a)
  {
    InsertedAt(sh.ring, i, a, i + 1);
    SplitSum(sh, USED_ALL, i, a);
    CoalesceSum(Split(sh, i, a), USED_ALL, i + 1);
  }

  lemma ShrunkRoomy(sh: Shape, i: nat, a: nat)
    requires Flagged(sh) && i + 1 < |sh.ring| && Roomy(sh.ring) && Flagged(Split(sh, i, a))
    requires sh.ring[i] + HDR + MIN_SIZE_ALIGNED <= a && a + HDR + MIN_SIZE_ALIGNED <= sh.ring[i + 1]
    ensures Roomy(Shrunk(sh, i, a).ring)
  {
    SplitRoomy(sh.ring, i, a);
    CoalesceRoomy(Split(sh, i, a), i + 1);
  }

  lemma ShrunkFacts(hi: nat, sh: Shape, i: nat, a: nat, used: int)
    requires Kept(hi, sh, used) && CutsBlock(sh, i, a) && sh.used[sh.ring[i]]
    requires sh.ring[i] + HDR + MIN_SIZE_ALIGNED <= a && a + HDR + MIN_SIZE_ALIGNED <= sh.ring[i + 1]
    requires (a - sh.ring[i]) % 32 == 0
    ensures Kept(hi, Shrunk(sh, i, a), used - (sh.ring[i + 1] - a))
  {
    ShrunkGood(0, hi, sh, i, a);
    ShrunkGridded(0, sh, i, a - sh.ring[i] - HDR, a);
    ShrunkSum(sh, i, a);
    if hi >= HDR + MIN_SIZE_ALIGNED {
      ShrunkRoomy(sh, i, a);
    }
  }

  /** A cut made although the code only asks for MIN_SIZE spare bytes still leaves an aligned minimal block. */
  lemma RemainderIsRoomy(hi: nat, sh: Shape, i: nat, newSize: nat)
    requires Good(0, hi, sh) && Gridded(0, sh.ring) && i + 1 < |sh.ring| && newSize % 32 == 0
    ensures newSize + HDR + MIN_SIZE < Size(sh, i) <==> newSize + HDR + MIN_SIZE_ALIGNED <= Size(sh, i)
    ensures newSize + HDR + MIN_SIZE < Size(sh, i) ==> CutsBlock(sh, i, sh.ring[i] + HDR + newSize)
  {
    assert Fits(sh.ring, i);
    SizeOnGrid(0, sh, i);
  }

  // ------------------------------------------------------------- first fit

  /** Block `k` cannot serve a request for `size` bytes. */
  ghost predicate Fails(sh: Shape, size: int, k: nat)
    requires Flagged(sh) && k + 1 < |sh.ring|
  {
    sh.used[sh.ring[k]] || Size(sh, k) < size
  }

  ghost predicate NoneFits(sh: Shape, size: int)
    requires Flagged(sh)
  {
    forall k :: 0 <= k < |sh.ring| - 1 ==> Fails(sh, size, k)
  }

  /** Block `i` is the one of lowest address that can serve `size` bytes. */
  ghost predicate FirstFitAt(sh: Shape, size: int, i: nat)
    requires Flagged(sh)
  {
    i + 1 < |sh.ring| && !Fails(sh, size, i) && forall k :: 0 <= k < i ==> Fails(sh, size, k)
  }

  ghost predicate FirstFit(sh: Shape, size: int, h: nat)
    requires Flagged(sh)
  {
    exists i :: 0 <= i < |sh.ring| && FirstFitAt(sh, size, i) && sh.ring[i] == h
  }

  /** A block that begins too close to the end of the heap is too small. */
  lemma TooCloseToEnd(hi: nat, sh: Shape, size: int, i: nat)
    requires Good(0, hi, sh) && i < |sh.ring| && sh.ring[i] + HDR + size > hi
    ensures forall k :: i <= k < |sh.ring| - 1 ==> Fails(sh, size, k)
  {
    forall k | i <= k < |sh.ring| - 1 ensures Fails(sh, size, k) {
      if i < k {
        Ascending(0, hi, sh.ring, i, k);
      }
      TilingNoDup(0, hi, sh.ring);
    }
  }

  lemma BelowLowestFails(hi: nat, sh: Shape, f: nat, size: int, i: nat)
    requires Good(0, hi, sh) && Lowest(sh, f) && i < |sh.ring| && sh.ring[i] == f
    ensures forall k :: 0 <= k < i ==> Fails(sh, size, k)
  {
    forall k | 0 <= k < i ensures Fails(sh, size, k) {
      Ascending(0, hi, sh.ring, k, i);
      assert UsedBelow(sh, f, k);
    }
  }

  /** Outside the headers of `ring` nothing was written. */
  ghost predicate SameData(c: seq<int>, c': seq<int>, ring: seq<nat>) {
    |c'| == |c| && forall x :: 0 <= x < |c| && ClearOf(ring, x) ==> c'[x] == c[x]
  }

  lemma SameDataTrans(c: seq<int>, c1: seq<int>, c2: seq<int>, ring: seq<nat>)
    requires SameData(c, c1, ring) && SameData(c1, c2, ring)
    ensures SameData(c, c2, ring)
  {
  }

  /** Bytes of blocks in use survive when only headers are written. */
  lemma LiveBytesSame(hi: nat, sh: Shape, c: seq<int>, c': seq<int>)
    requires Tiling(0, hi, sh.ring) && Flagged(sh) && SameData(c, c', sh.ring) && hi <= |c|
    ensures forall b: nat, x: nat :: LiveByte(sh, b, x) ==> x < |c| && c'[x] == c[x]
  {
    forall b: nat, x: nat | LiveByte(sh, b, x) ensures x < |c| && c'[x] == c[x] {
      LiveByteClear(0, hi, sh, b, x);
    }
  }

  // ---------------------------------------------------------- initialization

  /** Where `rt_smem_init` puts the heap object and the pool, and the pool's usable size. */
  datatype Layout = Layout(owner: nat, heap: nat, memSize: nat)

  /** `rt_smem_init` on `size` bytes from address `begin`, with a heap object of `structSize` bytes. */
  function InitLayout(begin: nat, size: nat, structSize: nat): Option<Layout> {
    var owner := Align(begin);
    var start := owner + structSize;
    var endAlign := AlignDown(begin + size);
    if endAlign > 2 * HDR && endAlign - 2 * HDR >= start
    then AlignLeast(start, endAlign - 2 * HDR);
         Some(Layout(owner, Align(start), endAlign - 2 * HDR - Align(start)))
    else None
  }

  /**
   Initialization fails exactly when the object and an empty pool do not fit.  The code compares
   with the unaligned end of the object, yet never computes a negative size.
   */
  lemma InitLayoutFits(begin: nat, size: nat, structSize: nat)
    requires structSize > 0
    ensures InitLayout(begin, size, structSize).None? <==> Align(Align(begin) + structSize) + 2 * HDR > begin + size
    ensures InitLayout(begin, size, structSize).Some? ==>
              var l := InitLayout(begin, size, structSize).value;
              && begin <= l.owner && l.owner + structSize <= l.heap && l.heap + l.memSize + 2 * HDR <= begin + size
              && l.owner % 2 == 0 && l.heap % 32 == 0 && l.memSize % 32 == 0
  {
    var start, end := Align(begin) + structSize, AlignDown(begin + size);
    AlignIsEven(begin);
    RoomTest(begin + size, end, start);
    if end >= 2 * HDR {
      AlignLeast(start, end - 2 * HDR);
      MultipleGap(end - 2 * HDR, Align(start));
    }
  }

  /** Testing the aligned end against the unaligned start is testing the room for two headers. */
  lemma RoomTest(limit: nat, end: nat, start: nat)
    requires end == AlignDown(limit) && start > 0
    ensures end > 2 * HDR && end - 2 * HDR >= start <==> Align(start) + 2 * HDR <= limit
  {
    AlignDownMost(limit, Align(start) + 2 * HDR);
    if end >= 2 * HDR {
      AlignLeast(start, end - 2 * HDR);
    }
  }

  lemma AlignIsEven(x: nat)
    ensures Align(x) % 2 == 0
  {
    var k := (x + 31) / 32;
    assert Align(x) == 2 * (16 * k);
  }

  lemma MultipleGap(x: nat, y: nat)
    requires x % 32 == 0 && y % 32 == 0
    ensures (x - y) % 32 == 0
  {
  }

  /** The pool right after initialization. */
  lemma InitFacts(size: nat)
    requires size % 32 == 0
    ensures var sh := Shape([0, size + HDR], map[0 := false, size + HDR := true]);
            Kept(size + HDR, sh, 0) && Lowest(sh, 0) && forall a, n :: !IsLive(sh, a, n)
  {
    var ring := [0, size + HDR];
    var sh := Shape(ring, map[0 := false, size + HDR := true]);
    assert GridAt(0, ring, 0) && GridAt(0, ring, 1);
    assert Fits(ring, 0) && OneUsed(sh, 0);
    assert SumFrom(ring, sh.used, USED_ALL, 1) == 0;
    assert size + HDR >= HDR + MIN_SIZE_ALIGNED ==> RoomAt(ring, 0);
    assert UsedBelow(sh, 0, 0) && UsedBelow(sh, 0, 1);
    assert 0 in ring by {
      assert ring[0] == 0;
    }
  }

  class SmallHeap {
    const pool: int           // address of the heap object, the owner mark in every header
    const memSize: nat        // mem_size_aligned
    const hi: nat             // offset of heap_end
    const cells: array<int>
    var lfree: nat
    var used: int
    var maxUsed: int
    ghost var sh: Shape

    /** The pool is tiled by properly headed blocks. */
    ghost predicate Headed()
      reads this, cells
    {
      && pool % 2 == 0 && hi == memSize + HDR && cells.Length == hi + HDR
      && Loose(0, hi, sh) && Headers(cells[..], pool, sh)
    }

    ghost predicate Valid()
      reads this, cells
    {
      Headed() && Kept(hi, sh, used) && Lowest(sh, lfree) && maxUsed >= used
    }

    /** `rt_smem_init` over an aligned pool: one free block and the end mark. */
    constructor (self: int, size: nat)
      requires self % 2 == 0 && size % 32 == 0
      ensures Valid() && memSize == size && used == 0 && maxUsed == 0 && fresh(cells)
      ensures hi == size + HDR && sh.ring == [0, hi] && !sh.used[0]
      ensures forall a, n :: !IsLive(sh, a, n)
    {
      pool, memSize, hi := self, size, size + HDR;
      cells := new int[size + 2 * HDR];
      lfree, used, maxUsed := 0, 0, 0;
      sh := Shape([0, size + HDR], map[0 := false, size + HDR := true]);
      new;
      var end := memSize + HDR;
      cells[0] := pool;
      cells[NEXT] := end;
      cells[PREV] := 0;
      cells[end] := pool + 1;
      cells[end + NEXT] := end;
      cells[end + PREV] := end;
      InitFacts(size);
      assert HeaderAt(cells[..], pool, sh, 0) && HeaderAt(cells[..], pool, sh, 1);
    }

    // ------------------------------------------------------ header rewriting

    /** Cut the block `h` at `a`, whose header is written in its data. */
    method Cut(h: nat, a: nat, ghost i: nat)
      requires Headed() && i + 1 < |sh.ring| && sh.ring[i] == h && CutsBlock(sh, i, a)
      modifies cells, this`sh
      ensures Headed() && sh == Split(old(sh), i, a) && a !in old(sh).ring
      ensures SameData(old(cells[..]), cells[..], sh.ring)
    {
      CutHeaders(hi, cells[..], pool, sh, i, a);
      SplitLoose(0, hi, sh, i, a);
      cells[a] := pool;
      cells[a + NEXT] := cells[h + NEXT];
      cells[a + PREV] := h;
      cells[h + NEXT] := a;
      if cells[a + NEXT] != memSize + HDR {
        cells[cells[a + NEXT] + PREV] := a;
      }
      sh := Split(sh, i, a);
      assert cells[..] == CutCells(old(cells[..]), pool, h, a, hi);
    }

    /** Merge the free block `n` into the block `m` in front of it. */
    method Swallow(m: nat, n: nat, ghost i: nat)
      requires Headed() && i + 1 < |sh.ring| && sh.ring[i] == m && sh.ring[i + 1] == n && !sh.used[n]
      modifies cells, this`sh
      ensures Headed() && sh == Absorb(old(sh), i) && i < |sh.ring|
      ensures SameData(old(cells[..]), cells[..], old(sh).ring)
      ensures forall x :: ClearOf(old(sh).ring, x) ==> ClearOf(sh.ring, x)
      ensures sh.ring[i] == m && (i > 0 ==> sh.ring[i - 1] == old(sh).ring[i - 1])
    {
      AbsorbLoose(0, hi, sh, i);
      SwallowHeaders(hi, cells[..], pool, sh, i);
      cells[n] := 0;
      cells[m + NEXT] := cells[n + NEXT];
      cells[cells[n + NEXT] + PREV] := m;
      assert cells[..] == SwallowCells(old(cells[..]), m, n);
      sh := Absorb(sh, i);
      DeletedKeeps(old(sh).ring, i);
    }

    /** Set the use flag of the block `h`. */
    method Mark(h: nat, flag: bool, ghost i: nat)
      requires Headed() && i + 1 < |sh.ring| && sh.ring[i] == h && sh.used[h] != flag
      modifies cells, this`sh
      ensures Headed() && sh == old(sh).(used := old(sh).used[h := flag])
      ensures SameData(old(cells[..]), cells[..], sh.ring)
    {
      assert HeaderAt(cells[..], pool, sh, i);
      FlagHeaders(hi, cells[..], pool, sh, i, flag);
      if flag {
        OccupyLoose(0, hi, sh, i);
      } else {
        VacateLoose(0, hi, sh, i);
      }
      ghost var c := cells[..];
      cells[h] := if flag then pool + 1 else pool;
      sh := sh.(used := sh.used[h := flag]);
      assert cells[..] == c[h := if flag then pool + 1 else pool];
      forall x | 0 <= x < |c| && ClearOf(sh.ring, x) ensures cells[..][x] == c[x] {
        assert OffHeader(sh.ring, i, x);
      }
    }

    /** `plug_holes`. */
    method PlugHoles(mem: nat, ghost i: nat)
      requires Headed() && i + 1 < |sh.ring| && sh.ring[i] == mem && !sh.used[mem]
      modifies cells, this`sh, this`lfree
      ensures Headed() && sh == Plug(old(sh), i) && lfree == PlugHint(old(sh), i, old(lfree))
      ensures SameData(old(cells[..]), cells[..], old(sh).ring)
    {
      PlugBehind(mem, i);
      PlugFront(mem, i);
    }

    /** The first half of `plug_holes`. */
    method PlugBehind(mem: nat, ghost i: nat)
      requires Headed() && i + 1 < |sh.ring| && sh.ring[i] == mem && !sh.used[mem]
      modifies cells, this`sh, this`lfree
      ensures Headed() && sh == Coalesce(old(sh), i) && i + 1 < |sh.ring| && sh.ring[i] == mem
      ensures i > 0 ==> sh.ring[i - 1] == old(sh).ring[i - 1]
      ensures lfree == if !sh.used[old(sh).ring[i + 1]] && old(lfree) == old(sh).ring[i + 1] then mem else old(lfree)
      ensures SameData(old(cells[..]), cells[..], old(sh).ring)
      ensures forall x :: ClearOf(old(sh).ring, x) ==> ClearOf(sh.ring, x)
    {
      assert HeaderAt(cells[..], pool, sh, i) && HeaderAt(cells[..], pool, sh, i + 1) && Fits(sh.ring, i);
      var nmem := cells[mem + NEXT];
      if mem != nmem && cells[nmem] % 2 == 0 && nmem != hi {
        if lfree == nmem {
          lfree := mem;
        }
        Swallow(mem, nmem, i);
      }
    }

    /** The second half of `plug_holes`. */
    method PlugFront(mem: nat, ghost i: nat)
      requires Headed() && i + 1 < |sh.ring| && sh.ring[i] == mem && !sh.used[mem]
      modifies cells, this`sh, this`lfree
      ensures Headed()
      ensures sh == if i > 0 && !old(sh).used[old(sh).ring[i - 1]] then Absorb(old(sh), i - 1) else old(sh)
      ensures lfree == if i > 0 && !old(sh).used[old(sh).ring[i - 1]] && old(lfree) == mem then old(sh).ring[i - 1] else old(lfree)
      ensures SameData(old(cells[..]), cells[..], old(sh).ring)
    {
      assert HeaderAt(cells[..], pool, sh, i);
      if i > 0 {
        assert HeaderAt(cells[..], pool, sh, i - 1) && Fits(sh.ring, i - 1);
      }
      var pmem := cells[mem + PREV];
      if pmem != mem && cells[pmem] % 2 == 0 {
        if lfree == mem {
          lfree := pmem;
        }
        Swallow(pmem, mem, i - 1);
      }
    }

    // ------------------------------------------------------------ allocation

    /** Scan from the lowest free block for the first one with room for `size` bytes. */
    method FindFit(size: nat) returns (found: bool, ptr: nat, ghost i: nat)
      requires Valid() && size <= memSize
      ensures found <==> !NoneFits(sh, size)
      ensures found ==> FirstFitAt(sh, size, i) && sh.ring[i] == ptr
    {
      found := false;
      ptr := lfree;
      i := IndexOf(sh.ring, lfree);
      Found(sh.ring, lfree);
      BelowLowestFails(hi, sh, lfree, size, i);
      while ptr <= memSize - size
        invariant i < |sh.ring| && sh.ring[i] == ptr
        invariant forall k :: 0 <= k < i ==> Fails(sh, size, k)
        decreases |sh.ring| - i
      {
        OnlyLastIsEnd(0, hi, sh.ring, i);
        assert HeaderAt(cells[..], pool, sh, i) && Fits(sh.ring, i);
        if cells[ptr] % 2 == 0 && cells[ptr + NEXT] - (ptr + HDR) >= size {
          found := true;
          assert !Fails(sh, size, i);
          return;
        }
        assert Fails(sh, size, i);
        ptr := cells[ptr + NEXT];
        i := i + 1;
      }
      TooCloseToEnd(hi, sh, size, i);
    }

    /** Move the lowest-free hint on to the next free block. */
    method AdvanceFree()
      requires Headed() && lfree in sh.ring && UsedUpTo(sh, lfree)
      modifies this`lfree
      ensures Lowest(sh, lfree)
    {
      ghost var i := IndexOf(sh.ring, lfree);
      Found(sh.ring, lfree);
      assert HeaderAt(cells[..], pool, sh, i);
      while cells[lfree] % 2 == 1 && lfree != hi
        invariant i < |sh.ring| && sh.ring[i] == lfree && UsedUpTo(sh, lfree) && HeaderAt(cells[..], pool, sh, i)
        decreases |sh.ring| - i
      {
        OnlyLastIsEnd(0, hi, sh.ring, i);
        HintStep(hi, sh, i);
        lfree := cells[lfree + NEXT];
        i := i + 1;
        assert HeaderAt(cells[..], pool, sh, i);
      }
      OnlyLastIsEnd(0, hi, sh.ring, i);
      assert lfree in sh.ring;
    }

    /** Count the bytes of a block given out. */
    method NoteUse(bytes: int)
      modifies this`used, this`maxUsed
      ensures used == old(used) + bytes
      ensures maxUsed == Max(old(maxUsed), used)
    {
      used := used + bytes;
      if maxUsed < used {
        maxUsed := used;
      }
    }

    /** Give out the free block `h`, cutting off what is not needed. */
    method CutAndMark(h: nat, size: nat, ghost i: nat)
      requires Headed() && i + 1 < |sh.ring| && sh.ring[i] == h && !sh.used[h]
      requires size <= Size(sh, i)
      modifies cells, this`sh, this`used, this`maxUsed
      ensures Headed() && sh == Carve(old(sh), i, size, MIN_SIZE_ALIGNED)
      ensures used == old(used) + Granted(old(sh), i, size, MIN_SIZE_ALIGNED) + HDR
      ensures maxUsed == Max(old(maxUsed), used)
      ensures SameData(old(cells[..]), cells[..], sh.ring)
    {
      assert HeaderAt(cells[..], pool, sh, i);
      if cells[h + NEXT] - (h + HDR) >= size + HDR + MIN_SIZE_ALIGNED {
        InsertedAt(sh.ring, i, h + HDR + size, i);
        Cut(h, h + HDR + size, i);
        NoteUse(size + HDR);
      } else {
        NoteUse(cells[h + NEXT] - h);
      }
      Mark(h, true, i);
    }

    /** Give out the free block `h` and move the hint on if it was the lowest. */
    method Take(h: nat, size: nat, ghost i: nat)
      requires Valid() && i + 1 < |sh.ring| && sh.ring[i] == h && !sh.used[h]
      requires size % 32 == 0 && MIN_SIZE_ALIGNED <= size <= Size(sh, i)
      modifies this, cells
      ensures Valid() && sh == Carve(old(sh), i, size, MIN_SIZE_ALIGNED)
      ensures used == old(used) + Granted(old(sh), i, size, MIN_SIZE_ALIGNED) + HDR
      ensures maxUsed == Max(old(maxUsed), used)
      ensures SameData(old(cells[..]), cells[..], sh.ring)
    {
      CarveFacts(hi, sh, i, size, used);
      CarveHint(hi, sh, lfree, i, size);
      CutAndMark(h, size, i);
      if h == lfree {
        AdvanceFree();
      }
    }

    /** `rt_smem_alloc`: `got` is the data size of the block given out. */
    method Alloc(request: nat) returns (p: Option<nat>, ghost got: nat)
      requires Valid() && request <= SIZE_MAX - ALIGN
      modifies this, cells
      ensures Valid() && maxUsed == Max(old(maxUsed), used)
      ensures p.None? <==> request == 0 || NoneFits(old(sh), Align(request))
      ensures p.None? ==> sh == old(sh) && cells[..] == old(cells[..]) && used == old(used)
      ensures p.Some? ==> p.value >= HDR && FirstFit(old(sh), Align(request), p.value - HDR) && p.value % 32 == 0
      ensures p.Some? ==> got >= Align(request) && used == old(used) + got + HDR
      ensures p.Some? ==> Given(old(sh).ring, p.value - HDR, Align(request), got)
      ensures p.Some? ==> forall b, n :: IsLive(sh, b, n) <==>
                if b == p.value - HDR then n == got else IsLive(old(sh), b, n)
      ensures forall b: nat, x: nat :: LiveByte(old(sh), b, x) ==> x < cells.Length && cells[x] == old(cells[x])
    {
      p, got := None, 0;
      LiveBytesSame(hi, sh, cells[..], cells[..]);
      if request == 0 {
        return;
      }
      var size := Align(request);
      if size < MIN_SIZE_ALIGNED {
        size := MIN_SIZE_ALIGNED;
      }
      if size > memSize {
        TooCloseToEnd(hi, sh, size, 0);
        return;
      }
      var found, ptr;
      ghost var i;
      found, ptr, i := FindFit(size);
      if found {
        got := Granted(sh, i, size, MIN_SIZE_ALIGNED);
        ghost var was := sh;
        assert GivenAt(was.ring, i, ptr, size, got);
        PlaceAligned(sh, i);
        Take(ptr, size, i);
        CarveKeepsLive(hi, was, i, size, old(cells[..]), cells[..]);
        p := Some(ptr + HDR);
      }
    }

    // --------------------------------------------------------------- release

    /** `rt_smem_free` of the block in use whose data starts at `ptr`. */
    method Free(ptr: nat, ghost size: nat)
      requires Valid() && ptr >= HDR && IsLive(sh, ptr - HDR, size)
      modifies this, cells
      ensures Valid() && maxUsed == old(maxUsed) && used == old(used) - size - HDR
      ensures forall b, n :: IsLive(sh, b, n) <==> b != ptr - HDR && IsLive(old(sh), b, n)
      ensures forall b: nat, x: nat :: LiveByte(old(sh), b, x) ==> x < cells.Length && cells[x] == old(cells[x])
    {
      var mem := ptr - HDR;
      ghost var was := sh;
      ghost var i :| 0 <= i < |sh.ring| - 1 && LiveAt(was, i, mem, size);
      FreeFacts(hi, was, i, used, lfree);
      Unmark(mem, i);
      PlugHoles(mem, i);
      LiveBytesSame(hi, was, old(cells[..]), cells[..]);
    }

    /** Mark the block `mem` free and account for it. */
    method Unmark(mem: nat, ghost i: nat)
      requires Headed() && i + 1 < |sh.ring| && sh.ring[i] == mem && sh.used[mem]
      modifies cells, this`sh, this`lfree, this`used
      ensures Headed() && sh == Vacate(old(sh), i) && lfree == (if mem < old(lfree) then mem else old(lfree))
      ensures used == old(used) - Size(old(sh), i) - HDR
      ensures SameData(old(cells[..]), cells[..], sh.ring)
    {
      Mark(mem, false, i);
      if mem < lfree {
        lfree := mem;
      }
      assert HeaderAt(cells[..], pool, sh, i);
      used := used - (cells[mem + NEXT] - mem);
    }

    // ---------------------------------------------------------- reallocation

    /** Shrink the block at `ptr` to `newSize` data bytes where it is. */
    method ShrinkInPlace(ptr: nat, newSize: nat, size: nat, ghost i: nat)
      requires Valid() && ptr >= HDR && i + 1 < |sh.ring| && LiveAt(sh, i, ptr - HDR, size)
      requires newSize % 32 == 0 && 0 < newSize && newSize + HDR + MIN_SIZE < size
      modifies this, cells
      ensures Valid() && maxUsed == old(maxUsed) && used == old(used) - (size - newSize)
      ensures sh == Shrunk(old(sh), i, ptr + newSize)
      ensures SameData(old(cells[..]), cells[..], Inserted(old(sh).ring, i, ptr + newSize))
    {
      ghost var was := sh;
      var ptr2 := ptr + newSize;
      RemainderIsRoomy(hi, was, i, newSize);
      ShrunkFacts(hi, was, i, ptr2, used);
      SplitLoose(0, hi, was, i, ptr2);
      PlugAfterCut(was, i, ptr2);
      CutHint(hi, was, Split(was, i, ptr2), i, ptr2, lfree, if ptr2 < lfree then ptr2 else lfree);
      used := used - (size - newSize);
      CutTail(ptr - HDR, ptr2, i);
    }

    /** Cut off the tail of the block `h` at `a`, which may now be the lowest free block, and merge it. */
    method CutTail(h: nat, a: nat, ghost i: nat)
      requires Headed() && i + 1 < |sh.ring| && sh.ring[i] == h && CutsBlock(sh, i, a)
      requires Flagged(Split(sh, i, a)) && i + 2 < |Split(sh, i, a).ring| && Split(sh, i, a).ring[i + 1] == a
      modifies cells, this`sh, this`lfree
      ensures Headed() && sh == Plug(Split(old(sh), i, a), i + 1)
      ensures lfree == PlugHint(Split(old(sh), i, a), i + 1, if a < old(lfree) then a else old(lfree))
      ensures SameData(old(cells[..]), cells[..], Inserted(old(sh).ring, i, a))
    {
      Cut(h, a, i);
      if a < lfree {
        lfree := a;
      }
      ghost var c := cells[..];
      PlugHoles(a, i + 1);
      SameDataTrans(old(cells[..]), c, cells[..], Inserted(old(sh).ring, i, a));
    }

    /** Copy `n` data bytes from `src` to `dst`, two separate stretches. */
    method Copy(dst: nat, src: nat, n: nat)
      requires dst + n <= cells.Length && src + n <= cells.Length && (dst + n <= src || src + n <= dst)
      modifies cells
      ensures forall x :: 0 <= x < cells.Length ==>
                cells[x] == if dst <= x < dst + n then old(cells[src + (x - dst)]) else old(cells[x])
    {
      var k := 0;
      while k < n
        invariant 0 <= k <= n
        invariant forall x :: 0 <= x < cells.Length ==>
                    cells[x] == if dst <= x < dst + k then old(cells[src + (x - dst)]) else old(cells[x])
      {
        cells[dst + k] := cells[src + k];
        k := k + 1;
      }
    }

    /** Copy `n` bytes between two blocks in use. */
    method CopyBlock(dst: nat, src: nat, n: nat, ghost dstSize: nat, ghost srcSize: nat)
      requires Valid() && dst >= HDR && src >= HDR && dst != src && n <= dstSize && n <= srcSize
      requires IsLive(sh, dst - HDR, dstSize) && IsLive(sh, src - HDR, srcSize)
      modifies cells
      ensures Valid()
      ensures CopiedTo(old(cells[..]), cells[..], src, dst, n)
      ensures forall b: nat, x: nat :: LiveByte(sh, b, x) && b != dst - HDR ==> x < cells.Length && cells[x] == old(cells[x])
    {
      LiveBlocksDisjoint(0, hi, sh, dst - HDR, dstSize, src - HDR, srcSize);
      LiveBlocksDisjoint(0, hi, sh, src - HDR, srcSize, dst - HDR, dstSize);
      Copy(dst, src, n);
      forall x | dst <= x < dst + n ensures ClearOf(sh.ring, x) {
        assert LiveByte(sh, dst - HDR, x);
        LiveByteClear(0, hi, sh, dst - HDR, x);
      }
      HeadersSurvive(old(cells[..]), cells[..], pool, sh, dst, n);
      forall b: nat, x: nat | LiveByte(sh, b, x) && b != dst - HDR ensures x < cells.Length && cells[x] == old(cells[x]) {
        LiveBytesApart(hi, sh, b, x, dst - HDR, dstSize);
      }
    }

    /** Move the block at `ptr` to a new place with room for `newSize` bytes. */
    method Move(ptr: nat, newSize: nat, size: nat) returns (p: Option<nat>, ghost got: nat)
      requires Valid() && ptr >= HDR && IsLive(sh, ptr - HDR, size) && 0 < newSize <= SIZE_MAX - ALIGN && newSize % 32 == 0
      modifies this, cells
      ensures Valid() && maxUsed == if p.None? then old(maxUsed) else Max(old(maxUsed), old(used) + got + HDR)
      ensures p.None? <==> NoneFits(old(sh), newSize)
      ensures p.None? ==> sh == old(sh) && cells[..] == old(cells[..]) && used == old(used)
      ensures p.Some? ==> p.value >= HDR && got >= newSize && p != Some(ptr) && used == old(used) + got - size
      ensures p.Some? ==> forall b, n :: IsLive(sh, b, n) <==>
                if b == p.value - HDR then n == got else b != ptr - HDR && IsLive(old(sh), b, n)
      ensures p.Some? ==> CopiedTo(old(cells[..]), cells[..], ptr, p.value, if size < newSize then size else newSize)
      ensures forall b: nat, x: nat :: LiveByte(old(sh), b, x) && b != ptr - HDR ==>
                x < cells.Length && cells[x] == old(cells[x])
    {
      ghost var was, c := sh, cells[..];
      p, got := Alloc(newSize);
      if p.Some? {
        FirstFitNotLive(hi, was, newSize, p.value - HDR, ptr - HDR, size);
        FinishMove(ptr, p.value, newSize, size, got, was, c);
      }
    }

    /** Copy the data of the block at `ptr` to the new one at `dst`, allocated after `was`, and release the old block. */
    method FinishMove(ptr: nat, dst: nat, newSize: nat, size: nat, ghost got: nat, ghost was: Shape, ghost c: seq<int>)
      requires Valid() && ptr >= HDR && dst >= HDR && ptr != dst && newSize <= got
      requires Tiling(0, hi, was.ring) && Flagged(was) && |c| == cells.Length && IsLive(was, ptr - HDR, size)
      requires forall b, n :: IsLive(was, b, n) ==> b != dst - HDR
      requires forall b, n :: IsLive(sh, b, n) <==> if b == dst - HDR then n == got else IsLive(was, b, n)
      requires forall b: nat, x: nat :: LiveByte(was, b, x) ==> x < cells.Length && cells[x] == c[x]
      modifies this, cells
      ensures Valid() && maxUsed == old(maxUsed) && used == old(used) - size - HDR
      ensures forall b, n :: IsLive(sh, b, n) <==> if b == dst - HDR then n == got else b != ptr - HDR && IsLive(was, b, n)
      ensures CopiedTo(c, cells[..], ptr, dst, if size < newSize then size else newSize)
      ensures forall b: nat, x: nat :: LiveByte(was, b, x) && b != ptr - HDR ==> x < cells.Length && cells[x] == c[x]
    {
      ghost var mid, c1 := sh, cells[..];
      assert IsLive(mid, dst - HDR, got) && IsLive(mid, ptr - HDR, size);
      CopyBlock(dst, ptr, if size < newSize then size else newSize, got, size);
      ghost var c2 := cells[..];
      Free(ptr, size);
      MoveKeeps(hi, was, mid, c, c1, c2, cells[..], ptr, dst, size, got, if size < newSize then size else newSize);
    }

    /** Shrink the block at `ptr`, keeping its first bytes and all other blocks. */
    method Trim(ptr: nat, newSize: nat, size: nat, ghost i: nat)
      requires Valid() && ptr >= HDR && i + 1 < |sh.ring| && LiveAt(sh, i, ptr - HDR, size) && 0 < newSize && newSize % 32 == 0
      requires newSize + HDR + MIN_SIZE < size
      modifies this, cells
      ensures Valid() && maxUsed == old(maxUsed) && used == old(used) + newSize - size
      ensures forall b, n :: IsLive(sh, b, n) <==> if b == ptr - HDR then n == newSize else IsLive(old(sh), b, n)
      ensures CopiedTo(old(cells[..]), cells[..], ptr, ptr, newSize)
      ensures forall b: nat, x: nat :: LiveByte(old(sh), b, x) && b != ptr - HDR ==>
                x < cells.Length && cells[x] == old(cells[x])
    {
      ghost var was := sh;
      RemainderIsRoomy(hi, was, i, newSize);
      ShrunkLives(hi, was, i, ptr + newSize, newSize);
      ShrinkInPlace(ptr, newSize, size, i);
      CutKeepsBytes(hi, was, i, ptr, newSize, old(cells[..]), cells[..]);
    }

    /** `rt_smem_realloc`. */
    method Realloc(ptr: Option<nat>, request: nat, ghost oldSize: nat) returns (p: Option<nat>, ghost got: nat)
      requires Valid() && request <= SIZE_MAX - 2 * ALIGN
      requires ptr.Some? ==> ptr.value >= HDR && IsLive(sh, ptr.value - HDR, oldSize)
      modifies this, cells
      ensures Valid()
      ensures maxUsed == if p.None? || p == ptr then old(maxUsed) else Max(old(maxUsed), old(used) + got + HDR)
      ensures request == 0 ==> p.None? && forall b: nat, n: nat :: IsLive(sh, b, n) <==>
                ptr != Some(b + HDR) && IsLive(old(sh), b, n)
      ensures request > 0 ==> (p.None? <==>
                NoneFits(old(sh), Align(request)) &&
                (ptr.Some? ==> oldSize != Align(request) && oldSize <= Align(request) + HDR + MIN_SIZE))
      ensures request > 0 && p.None? ==> sh == old(sh) && cells[..] == old(cells[..]) && used == old(used)
      ensures p.Some? ==> p.value >= HDR && got >= Align(request)
      ensures p.Some? ==> (p == ptr <==> ptr.Some? && (oldSize == Align(request) || oldSize > Align(request) + HDR + MIN_SIZE))
      ensures p.Some? && p == ptr ==> got == Align(request) && used == old(used) - (oldSize - got)
      ensures p.Some? && ptr.Some? && p != ptr ==> used == old(used) + got - oldSize
      ensures p.Some? ==> forall b: nat, n: nat :: IsLive(sh, b, n) <==>
                if b == p.value - HDR then n == got else ptr != Some(b + HDR) && IsLive(old(sh), b, n)
      ensures p.Some? && ptr.Some? ==>
                CopiedTo(old(cells[..]), cells[..], ptr.value, p.value, if oldSize < Align(request) then oldSize else Align(request))
      ensures forall b: nat, x: nat :: LiveByte(old(sh), b, x) && ptr != Some(b + HDR) ==>
                x < cells.Length && cells[x] == old(cells[x])
    {
      p, got := None, 0;
      LiveBytesSame(hi, sh, cells[..], cells[..]);
      var newSize := Align(request);
      if newSize > memSize {
        TooCloseToEnd(hi, sh, newSize, 0);
        if ptr.Some? {
          LiveBlocksDisjoint(0, hi, sh, ptr.value - HDR, oldSize, ptr.value - HDR, oldSize);
        }
        return;
      }
      if newSize == 0 {
        if ptr.Some? {
          Free(ptr.value, oldSize);
        }
        return;
      }
      if ptr.None? {
        p, got := Alloc(newSize);
        return;
      }
      p, got := Resize(ptr.value, newSize, oldSize);
    }

    /** Reallocation of a block in use to a non-zero, rounded size. */
    method Resize(ptr: nat, newSize: nat, ghost oldSize: nat) returns (p: Option<nat>, ghost got: nat)
      requires Valid() && 0 < newSize <= SIZE_MAX - ALIGN && newSize % 32 == 0
      requires ptr >= HDR && IsLive(sh, ptr - HDR, oldSize)
      modifies this, cells
      ensures Valid()
      ensures maxUsed == if p.None? || p == Some(ptr) then old(maxUsed) else Max(old(maxUsed), old(used) + got + HDR)
      ensures p.None? <==> NoneFits(old(sh), newSize) && !StaysInPlace(oldSize, newSize)
      ensures p.None? ==> sh == old(sh) && cells[..] == old(cells[..]) && used == old(used)
      ensures p.Some? ==> p.value >= HDR && got >= newSize && (p == Some(ptr) <==> StaysInPlace(oldSize, newSize))
      ensures p == Some(ptr) ==> got == newSize
      ensures p.Some? ==> used == old(used) + got - oldSize
      ensures p.Some? ==> forall b: nat, n: nat :: IsLive(sh, b, n) <==>
                if b == p.value - HDR then n == got else b != ptr - HDR && IsLive(old(sh), b, n)
      ensures p.Some? ==>
                CopiedTo(old(cells[..]), cells[..], ptr, p.value, if oldSize < newSize then oldSize else newSize)
      ensures forall b: nat, x: nat :: LiveByte(old(sh), b, x) && b != ptr - HDR ==>
                x < cells.Length && cells[x] == old(cells[x])
    {
      var mem := ptr - HDR;
      ghost var i :| 0 <= i < |sh.ring| - 1 && LiveAt(sh, i, mem, oldSize);
      assert HeaderAt(cells[..], pool, sh, i);
      var size := cells[mem + NEXT] - mem - HDR;
      if size == newSize {
        LiveSizeUnique(0, hi, sh, i, size);
        LiveBlocksDisjoint(0, hi, sh, mem, size, mem, size);
        LiveBytesSame(hi, sh, cells[..], cells[..]);
        return Some(ptr), size;
      }
      if newSize + HDR + MIN_SIZE < size {
        Trim(ptr, newSize, size, i);
        p, got := Some(ptr), newSize;
      } else {
        p, got := Move(ptr, newSize, size);
      }
    }
  }

  /** A request for `size` bytes gets `got` bytes of the block at `b`: all of it unless the rest holds a smallest block. */
  ghost predicate Given(ring: seq<nat>, b: nat, size: nat, got: nat) {
    exists i :: 0 <= i < |ring| - 1 && GivenAt(ring, i, b, size, got)
  }

  ghost predicate GivenAt(ring: seq<nat>, i: nat, b: nat, size: nat, got: nat)
    requires i + 1 < |ring|
  {
    ring[i] == b && got == if ring[i + 1] - b - HDR >= size + HDR + MIN_SIZE_ALIGNED then size else ring[i + 1] - b - HDR
  }

  /** `rt_smem_realloc` leaves the block where it is. */
  predicate StaysInPlace(size: nat, newSize: nat) {
    newSize == size || newSize + HDR + MIN_SIZE < size
  }

  /** `n` bytes at `src` in the old pool are at `dst` in the new one. */
  ghost predicate CopiedTo(c: seq<int>, c': seq<int>, src: nat, dst: nat, n: nat) {
    && src + n <= |c| && dst + n <= |c'|
    && forall x :: dst <= x < dst + n ==> c'[x] == c[src + (x - dst)]
  }

  lemma ShrunkLives(hi: nat, sh: Shape, i: nat, a: nat, size: nat)
    requires Good(0, hi, sh) && CutsBlock(sh, i, a) && sh.used[sh.ring[i]] && a == sh.ring[i] + HDR + size
    ensures Flagged(Shrunk(sh, i, a))
    ensures forall b, n :: IsLive(Shrunk(sh, i, a), b, n) <==> if b == sh.ring[i] then n == size else IsLive(sh, b, n)
  {
    ShrunkGood(0, hi, sh, i, a);
    TilingNoDup(0, hi, sh.ring);
    forall b, n ensures IsLive(Shrunk(sh, i, a), b, n) <==> if b == sh.ring[i] then n == size else IsLive(sh, b, n) {
      ShrunkLive(0, hi, sh, i, a, size, b, n);
    }
  }

  lemma CutKeepsBytes(hi: nat, sh: Shape, i: nat, ptr: nat, newSize: nat, c: seq<int>, c': seq<int>)
    requires Good(0, hi, sh) && CutsBlock(sh, i, ptr + newSize) && ptr == sh.ring[i] + HDR && sh.used[sh.ring[i]]
    requires |c| == hi + HDR && SameData(c, c', Inserted(sh.ring, i, ptr + newSize))
    ensures CopiedTo(c, c', ptr, ptr, newSize)
    ensures forall b: nat, x: nat :: LiveByte(sh, b, x) && b != ptr - HDR ==> x < |c| && c'[x] == c[x]
  {
    var a := ptr + newSize;
    SplitLoose(0, hi, sh, i, a);
    TilingNoDup(0, hi, sh.ring);
    var sh1 := Split(sh, i, a);
    LiveBytesSame(hi, sh1, c, c');
    SplitUsedLive(sh, i, a, ptr - HDR, newSize);
    TilingNoDup(0, hi, sh1.ring);
    forall x | ptr <= x < ptr + newSize ensures c'[x] == c[ptr + (x - ptr)] {
      assert LiveByte(sh1, ptr - HDR, x);
    }
    forall b: nat, x: nat | LiveByte(sh, b, x) && b != ptr - HDR ensures LiveByte(sh1, b, x) {
      var n: nat :| IsLive(sh, b, n) && b + HDR <= x < b + HDR + n;
      SplitUsedLive(sh, i, a, b, n);
    }
  }

  lemma FirstFitNotLive(hi: nat, sh: Shape, size: int, h: nat, b: nat, n: nat)
    requires Good(0, hi, sh) && FirstFit(sh, size, h) && IsLive(sh, b, n)
    ensures h != b
  {
  }

  /** What allocating, copying and releasing leave of the bytes in use. */
  lemma MoveKeeps(hi: nat, sh: Shape, sh1: Shape, c: seq<int>, c1: seq<int>, c2: seq<int>, c3: seq<int>,
                  src: nat, dst: nat, size: nat, got: nat, n: nat)
    requires Tiling(0, hi, sh.ring) && Flagged(sh) && Tiling(0, hi, sh1.ring) && Flagged(sh1)
    requires |c| == |c1| == |c2| == |c3| == hi + HDR
    requires src >= HDR && dst >= HDR && src != dst && n <= size && n <= got
    requires IsLive(sh, src - HDR, size) && IsLive(sh1, dst - HDR, got)
    requires forall b, m :: IsLive(sh, b, m) ==> b != dst - HDR && IsLive(sh1, b, m)
    requires forall b: nat, x: nat :: LiveByte(sh, b, x) ==> x < |c| && c1[x] == c[x]
    requires forall b: nat, x: nat :: LiveByte(sh1, b, x) && b != dst - HDR ==> x < |c| && c2[x] == c1[x]
    requires CopiedTo(c1, c2, src, dst, n)
    requires forall b: nat, x: nat :: LiveByte(sh1, b, x) ==> x < |c| && c3[x] == c2[x]
    ensures CopiedTo(c, c3, src, dst, n)
    ensures forall b: nat, x: nat :: LiveByte(sh, b, x) ==> x < |c| && c3[x] == c[x]
  {
    forall x | dst <= x < dst + n ensures c3[x] == c[src + (x - dst)] {
      assert LiveByte(sh1, dst - HDR, x);
      assert LiveByte(sh, src - HDR, src + (x - dst));
    }
    forall b: nat, x: nat | LiveByte(sh, b, x) ensures x < |c| && c3[x] == c[x] {
      var m: nat :| IsLive(sh, b, m) && b + HDR <= x < b + HDR + m;
      assert IsLive(sh1, b, m);
      assert LiveByte(sh1, b, x);
    }
  }

  /** Data written between the headers leaves them alone. */
  lemma HeadersSurvive(c: seq<int>, c': seq<int>, pool: int, sh: Shape, dst: nat, n: nat)
    requires Headers(c, pool, sh) && |c'| == |c|
    requires forall x :: 0 <= x < |c| && !(dst <= x < dst + n) ==> c'[x] == c[x]
    requires forall x :: dst <= x < dst + n ==> ClearOf(sh.ring, x)
    ensures Headers(c', pool, sh)
  {
    forall i | 0 <= i < |sh.ring| ensures HeaderAt(c', pool, sh, i) {
      assert HeaderAt(c, pool, sh, i);
      forall x | sh.ring[i] <= x < sh.ring[i] + HDR ensures c'[x] == c[x] {
        assert dst <= x < dst + n ==> ClearOf(sh.ring, x);
        assert ClearOf(sh.ring, x) ==> OffHeader(sh.ring, i, x);
      }
      HeaderSame(c, c', pool, sh, sh, i, i);
    }
  }

  lemma LiveBytesApart(hi: nat, sh: Shape, b: nat, x: nat, d: nat, n: nat)
    requires Tiling(0, hi, sh.ring) && Flagged(sh) && LiveByte(sh, b, x) && IsLive(sh, d, n) && b != d
    ensures x < hi && !(d + HDR <= x < d + HDR + n)
  {
    var k: nat :| IsLive(sh, b, k) && b + HDR <= x < b + HDR + k;
    LiveBlocksDisjoint(0, hi, sh, b, k, d, n);
  }

  lemma FreeFacts(hi: nat, sh: Shape, i: nat, used: int, f: nat)
    requires Kept(hi, sh, used) && Lowest(sh, f) && i + 1 < |sh.ring| && sh.used[sh.ring[i]]
    ensures var sh1 := Vacate(sh, i);
            var f1 := if sh.ring[i] < f then sh.ring[i] else f;
            && sh1.ring == sh.ring && Flagged(sh1) && PlugHint(sh1, i, f1) == f1
            && Kept(hi, Plug(sh1, i), used - Size(sh, i) - HDR) && Lowest(Plug(sh1, i), f1)
            && forall b, n :: IsLive(Plug(sh1, i), b, n) <==> b != sh.ring[i] && IsLive(sh, b, n)
  {
    MergedFacts(hi, sh, i, used);
    PlugIsMerged(0, hi, sh, i);
    VacateLoose(0, hi, sh, i);
    VacateLowest(0, hi, sh, f, i);
    PlugLowest(0, hi, Vacate(sh, i), if sh.ring[i] < f then sh.ring[i] else f, i);
    forall b, n ensures IsLive(Merged(sh, i), b, n) <==> b != sh.ring[i] && IsLive(sh, b, n) {
      MergedLive(0, hi, sh, i, b, n);
    }
  }

  lemma PlugAfterCut(sh: Shape, i: nat, a: nat)
    requires Flagged(sh) && i + 1 < |sh.ring| && sh.used[sh.ring[i]] && a != sh.ring[i] && Flagged(Split(sh, i, a))
    ensures var sh1 := Split(sh, i, a); i + 2 < |sh1.ring| && sh1.ring[i + 1] == a && !sh1.used[a]
    ensures Plug(Split(sh, i, a), i + 1) == Shrunk(sh, i, a)
  {
    InsertedAt(sh.ring, i, a, i);
    InsertedAt(sh.ring, i, a, i + 1);
  }

  /** The lowest free block after block `i` was cut at `a` and the tail merged. */
  lemma CutHint(hi: nat, sh: Shape, sh1: Shape, i: nat, a: nat, f: nat, f1: nat)
    requires Good(0, hi, sh) && i + 1 < |sh.ring| && a !in sh.ring && Lowest(sh, f)
    requires sh1 == Split(sh, i, a) && Loose(0, hi, sh1) && f1 == if a < f then a else f
    requires i + 2 < |sh1.ring| && sh1.ring[i + 1] == a && !sh1.used[a]
    ensures PlugHint(sh1, i + 1, f1) == f1 && Flagged(Plug(sh1, i + 1)) && Lowest(Plug(sh1, i + 1), f1)
  {
    SplitLowest(sh, f, i, a);
    PlugLowest(0, hi, sh1, f1, i + 1);
  }

  /** The hint may move past a block in use. */
  lemma HintStep(hi: nat, sh: Shape, i: nat)
    requires Loose(0, hi, sh) && i + 1 < |sh.ring| && UsedUpTo(sh, sh.ring[i]) && sh.used[sh.ring[i]]
    ensures UsedUpTo(sh, sh.ring[i + 1])
  {
    var f := sh.ring[i + 1];
    forall k | 0 <= k < |sh.ring| ensures UsedBelow(sh, f, k) {
      assert UsedBelow(sh, sh.ring[i], k);
      if k > i + 1 {
        Ascending(0, hi, sh.ring, i + 1, k);
      } else if k < i {
        Ascending(0, hi, sh.ring, k, i);
      }
    }
  }

  /** The hint after giving out block `i`, before it is moved on. */
  lemma CarveHint(hi: nat, sh: Shape, f: nat, i: nat, size: nat)
    requires Good(0, hi, sh) && Lowest(sh, f) && i + 1 < |sh.ring| && !sh.used[sh.ring[i]]
    requires size <= Size(sh, i)
    ensures Flagged(Carve(sh, i, size, MIN_SIZE_ALIGNED)) && f in Carve(sh, i, size, MIN_SIZE_ALIGNED).ring
    ensures UsedUpTo(Carve(sh, i, size, MIN_SIZE_ALIGNED), f)
    ensures f != sh.ring[i] ==> Lowest(Carve(sh, i, size, MIN_SIZE_ALIGNED), f)
  {
    LowestBound(sh, f, i);
    CarveGood(0, hi, sh, i, size, MIN_SIZE_ALIGNED);
    if Size(sh, i) >= size + HDR + MIN_SIZE_ALIGNED {
      var a := sh.ring[i] + HDR + size;
      CarveSplitLoose(0, hi, sh, i, size);
      SplitLowest(sh, f, i, a);
      OccupyUsedUpTo(Split(sh, i, a), f, i);
      InsertedAt(sh.ring, i, a, i);
    } else {
      OccupyUsedUpTo(sh, f, i);
    }
  }

  lemma CarveKeepsLive(hi: nat, sh: Shape, i: nat, size: nat, c: seq<int>, c': seq<int>)
    requires Good(0, hi, sh) && i + 1 < |sh.ring| && !sh.used[sh.ring[i]] && size <= Size(sh, i)
    requires Good(0, hi, Carve(sh, i, size, MIN_SIZE_ALIGNED)) && hi <= |c|
    requires SameData(c, c', Carve(sh, i, size, MIN_SIZE_ALIGNED).ring)
    ensures forall b, n :: IsLive(Carve(sh, i, size, MIN_SIZE_ALIGNED), b, n) <==>
              if b == sh.ring[i] then n == Granted(sh, i, size, MIN_SIZE_ALIGNED) else IsLive(sh, b, n)
    ensures forall b: nat, x: nat :: LiveByte(sh, b, x) ==> x < |c| && c'[x] == c[x]
  {
    var sh' := Carve(sh, i, size, MIN_SIZE_ALIGNED);
    forall b, n ensures IsLive(sh', b, n) <==>
      if b == sh.ring[i] then n == Granted(sh, i, size, MIN_SIZE_ALIGNED) else IsLive(sh, b, n)
    {
      CarveLive(0, hi, sh, i, size, MIN_SIZE_ALIGNED, b, n);
    }
    LiveBytesSame(hi, sh', c, c');
    forall b: nat, x: nat | LiveByte(sh, b, x) ensures LiveByte(sh', b, x) {
      var n: nat :| IsLive(sh, b, n) && b + HDR <= x < b + HDR + n;
      FreeIsNotLive(hi, sh, i, n);
      assert IsLive(sh', b, n);
    }
  }

  lemma PlaceAligned(sh: Shape, i: nat)
    requires Gridded(0, sh.ring) && i < |sh.ring|
    ensures (sh.ring[i] + HDR) % 32 == 0
  {
    assert GridAt(0, sh.ring, i);
  }

  lemma FreeIsNotLive(hi: nat, sh: Shape, i: nat, n: nat)
    requires Tiling(0, hi, sh.ring) && Flagged(sh) && i < |sh.ring| && !sh.used[sh.ring[i]]
    ensures !IsLive(sh, sh.ring[i], n)
  {
  }

  // ------------------------------------------------------ a shrink that fails

  /** A block at the front of the pool that reaches to the end mark leaves no free block. */
  lemma OneBlockFillsPool(hi: nat, sh: Shape, n: nat, size: nat)
    requires Good(0, hi, sh) && IsLive(sh, 0, n) && HDR + n == hi
    ensures NoneFits(sh, size)
  {
    var i :| 0 <= i < |sh.ring| - 1 && LiveAt(sh, i, 0, n);
    if i > 0 {
      Ascending(0, hi, sh.ring, 0, i);
    }
    if i + 1 < |sh.ring| - 1 {
      Ascending(0, hi, sh.ring, i + 1, |sh.ring| - 1);
    }
  }

  /** A block of 64 bytes that fills its pool cannot be made smaller by half: it would have to move. */
  method ShrinkFails() returns (h: SmallHeap, ptr: Option<nat>, p: Option<nat>)
    ensures fresh(h) && h.Valid() && ptr.Some? && ptr.value >= HDR && IsLive(h.sh, ptr.value - HDR, 64) && p.None?
  {
    h := new SmallHeap(0, 64);
    assert !Fails(h.sh, 64, 0);
    ghost var got;
    ptr, got := h.Alloc(64);
    assert IsLive(h.sh, ptr.value - HDR, got);
    LiveBlocksDisjoint(0, h.hi, h.sh, ptr.value - HDR, got, ptr.value - HDR, got);
    OneBlockFillsPool(h.hi, h.sh, got, 32);
    p, got := h.Realloc(ptr, 32, got);
  }
}
