/**
 The memory heap of rt-thread/src/memheap.c with its headers in the pool: every
 block header holds four links and a use flag, rewritten in place.  Ghost fields
 record the ring and the free list that the links spell out.
 */
module MemHeap {
  import opened Base
  import opened IntrusiveList
  import opened BlockRing
  import opened RawMemory

  const MINIALLOC: nat := 12
  const FREE_HEADER: nat := 0   // the address of the free list's head, outside every pool
  const SIZE_MAX: nat := 0xffff_ffff

  // -------------------------------------------------------------- free list

  /** The free list holds exactly the unused blocks of the ring, each once. */
  ghost predicate FreeListAgrees(sh: Shape, frees: seq<nat>)
    requires Flagged(sh)
  {
    && NoDup(frees)
    && (forall i :: 0 <= i < |sh.ring| ==> BlockListed(sh, frees, i))
    && (forall j :: 0 <= j < |frees| ==> ListedBlock(sh, frees, j))
  }

  /** Block `i` is on the free list exactly when it is unused. */
  ghost predicate BlockListed(sh: Shape, frees: seq<nat>, i: nat)
    requires Flagged(sh) && i < |sh.ring|
  {
    sh.ring[i] in frees <==> !sh.used[sh.ring[i]]
  }

  /** Entry `j` of the free list is a block. */
  ghost predicate ListedBlock(sh: Shape, frees: seq<nat>, j: nat)
    requires j < |frees|
  {
    frees[j] in sh.ring
  }

  lemma FreeListIs(sh: Shape, frees: seq<nat>)
    requires Flagged(sh) && FreeListAgrees(sh, frees)
    ensures forall a :: a in frees <==> a in sh.ring && !sh.used[a]
  {
    forall a ensures a in frees <==> a in sh.ring && !sh.used[a] {
      if a in frees {
        var j :| 0 <= j < |frees| && frees[j] == a;
        assert ListedBlock(sh, frees, j);
      }
      if a in sh.ring {
        var i :| 0 <= i < |sh.ring| && sh.ring[i] == a;
        assert BlockListed(sh, frees, i);
      }
    }
  }

  lemma FreeListFrom(sh: Shape, frees: seq<nat>)
    requires Flagged(sh) && NoDup(frees)
    requires forall a :: a in frees <==> a in sh.ring && !sh.used[a]
    ensures FreeListAgrees(sh, frees)
  {
    forall i | 0 <= i < |sh.ring| ensures BlockListed(sh, frees, i) {
      assert sh.ring[i] in sh.ring;
    }
    forall j | 0 <= j < |frees| ensures ListedBlock(sh, frees, j) {
      assert frees[j] in frees;
    }
  }

  lemma SplitListed(sh: Shape, frees: seq<nat>, i: nat, a: nat)
    requires Flagged(sh) && FreeListAgrees(sh, frees) && i + 1 < |sh.ring| && a !in sh.ring && Flagged(Split(sh, i, a))
    ensures a !in frees
    ensures FreeListAgrees(Split(sh, i, a), [a] + frees)
  {
    FreeListIs(sh, frees);
    InsertedMembers(sh.ring, i, a);
    ConsNoDup(a, frees);
    FreeListFrom(Split(sh, i, a), [a] + frees);
  }

  lemma AbsorbListed(sh: Shape, frees: seq<nat>, i: nat)
    requires Flagged(sh) && FreeListAgrees(sh, frees) && NoDup(sh.ring)
    requires i + 1 < |sh.ring| && !sh.used[sh.ring[i + 1]] && Flagged(Absorb(sh, i))
    ensures sh.ring[i + 1] in frees
    ensures FreeListAgrees(Absorb(sh, i), Without(frees, sh.ring[i + 1]))
  {
    assert BlockListed(sh, frees, i + 1);
    FreeListIs(sh, frees);
    WithoutMembers(frees, sh.ring[i + 1]);
    forall x ensures x in Deleted(sh.ring, i + 1) <==> x in sh.ring && x != sh.ring[i + 1] {
      DeletedMember(sh.ring, i + 1, x);
    }
    FreeListFrom(Absorb(sh, i), Without(frees, sh.ring[i + 1]));
  }

  lemma OccupyListed(sh: Shape, frees: seq<nat>, i: nat)
    requires Flagged(sh) && FreeListAgrees(sh, frees) && i + 1 < |sh.ring| && Flagged(Occupy(sh, i))
    ensures FreeListAgrees(Occupy(sh, i), Without(frees, sh.ring[i]))
  {
    FreeListIs(sh, frees);
    WithoutMembers(frees, sh.ring[i]);
    FreeListFrom(Occupy(sh, i), Without(frees, sh.ring[i]));
  }

  lemma VacateListed(sh: Shape, frees: seq<nat>, i: nat)
    requires Flagged(sh) && FreeListAgrees(sh, frees) && i + 1 < |sh.ring| && sh.used[sh.ring[i]] && Flagged(Vacate(sh, i))
    ensures sh.ring[i] !in frees
    ensures FreeListAgrees(Vacate(sh, i), [sh.ring[i]] + frees)
  {
    FreeListIs(sh, frees);
    ConsNoDup(sh.ring[i], frees);
    FreeListFrom(Vacate(sh, i), [sh.ring[i]] + frees);
  }

  class Heap {
    const lo: nat      // start_addr
    const hi: nat      // address of the tailer
    const memory: Memory
    var next: Links
    var prev: Links
    var nextFree: Links
    var prevFree: Links
    var used: map<nat, bool>
    var available: int
    var maxUsed: int
    ghost var ring: seq<nat>
    ghost var frees: seq<nat>

    ghost function Sh(): Shape
      reads this
    {
      Shape(ring, used)
    }

    function PoolSize(): int {
      hi + HDR - lo
    }

    /** The links spell out the ring and the free list. */
    ghost predicate Linked()
      reads this
    {
      Circular(next, prev, ring) && Circular(nextFree, prevFree, [FREE_HEADER] + frees)
    }

    ghost predicate Valid()
      reads this
    {
      && Linked()
      && lo > 0
      && Good(lo, hi, Sh())
      && FreeListAgrees(Sh(), frees)
      && available == Sum(Sh(), FREE_DATA)
      && maxUsed >= PoolSize() - available
    }

    /** `rt_memheap_init`: one free block and the tailer. */
    constructor (start: nat, size: nat, memory: Memory)
      requires start > 0 && size / 32 * 32 >= 2 * HDR
      ensures Valid() && lo == start && PoolSize() == size / 32 * 32
      ensures this.memory == memory
      ensures ring == [lo, hi] && !used[lo] && frees == [lo] && Gridded(lo, ring)
      ensures available == PoolSize() - 2 * HDR && maxUsed == 2 * HDR
      ensures forall a, n :: !IsLive(Sh(), a, n)
    {
      var poolSize := size / 32 * 32;
      this.memory := memory;
      lo := start;
      hi := start + poolSize - HDR;
      var tail := start + poolSize - HDR;
      available := poolSize - 2 * HDR;
      maxUsed := poolSize - (poolSize - 2 * HDR);
      next := map[start := tail, tail := start];
      prev := map[start := tail, tail := start];
      nextFree := map[FREE_HEADER := start, start := FREE_HEADER];
      prevFree := map[FREE_HEADER := start, start := FREE_HEADER];
      used := map[start := false, tail := true];
      ring := [start, tail];
      frees := [start];
      new;
      assert GridAt(lo, ring, 0) && GridAt(lo, ring, 1);
      assert [FREE_HEADER] + frees == [FREE_HEADER, start];
      assert forall i :: 0 <= i < 2 ==> LinkedAt(next, prev, ring, i) && LinkedAt(nextFree, prevFree, [FREE_HEADER, start], i);
      assert Fits(ring, 0) && OneUsed(Sh(), 0);
      FreeListFrom(Sh(), frees);
      assert SumFrom(ring, used, FREE_DATA, 1) == 0;
    }

    // ------------------------------------------------------- link surgery

    /** Link the header `a` into the ring behind `h`. */
    method LinkBlock(h: nat, a: nat, ghost i: nat)
      requires Circular(next, prev, ring) && i < |ring| && ring[i] == h && a !in ring
      modifies this`next, this`prev, this`ring
      ensures Circular(next, prev, ring) && ring == Inserted(old(ring), i, a)
    {
      InsertAfter(next, prev, ring, i, a);
      var n := next[h];
      prev := prev[a := h];
      next := next[a := n];
      prev := prev[n := a];
      next := next[h := a];
      assert n != a by {
        assert LinkedAt(old(next), old(prev), old(ring), i);
      }
      assert prev == PrevAfterInsert(old(next), old(prev), h, a);
      ring := Inserted(ring, i, a);
    }

    /** Take the header `n` out of the ring. */
    method UnlinkBlock(n: nat, ghost i: nat)
      requires Circular(next, prev, ring) && i < |ring| && ring[i] == n && |ring| >= 2
      modifies this`next, this`prev, this`ring
      ensures Circular(next, prev, ring) && ring == Deleted(old(ring), i)
    {
      Unlink(next, prev, ring, i);
      var x, y := next[n], prev[n];
      prev := prev[x := y];
      next := next[y := x];
      ring := Deleted(ring, i);
    }

    /** Put the header `a` at the front of the free list. */
    method InsertFree(a: nat)
      requires Circular(nextFree, prevFree, [FREE_HEADER] + frees) && a !in frees && a != FREE_HEADER
      modifies this`nextFree, this`prevFree, this`frees
      ensures Circular(nextFree, prevFree, [FREE_HEADER] + frees) && frees == [a] + old(frees)
    {
      ghost var c := [FREE_HEADER] + frees;
      assert c[0] == FREE_HEADER;
      InsertAfter(nextFree, prevFree, c, 0, a);
      var n := nextFree[FREE_HEADER];
      assert n != a by {
        assert LinkedAt(nextFree, prevFree, c, 0);
      }
      nextFree := nextFree[a := n];
      prevFree := prevFree[a := FREE_HEADER];
      prevFree := prevFree[n := a];
      nextFree := nextFree[FREE_HEADER := a];
      assert prevFree == PrevAfterInsert(old(nextFree), old(prevFree), FREE_HEADER, a);
      frees := [a] + frees;
      assert Inserted(c, 0, a) == [FREE_HEADER] + frees;
    }

    /** Take the header `a` out of the free list. */
    method RemoveFree(a: nat)
      requires Circular(nextFree, prevFree, [FREE_HEADER] + frees) && a in frees
      modifies this`nextFree, this`prevFree, this`frees
      ensures Circular(nextFree, prevFree, [FREE_HEADER] + frees) && frees == Without(old(frees), a)
    {
      ghost var c := [FREE_HEADER] + frees;
      ghost var j := IndexOf(frees, a);
      Found(frees, a);
      assert c[j + 1] == a;
      Unlink(nextFree, prevFree, c, j + 1);
      var x, y := nextFree[a], prevFree[a];
      prevFree := prevFree[x := y];
      nextFree := nextFree[y := x];
      assert Deleted(c, j + 1) == [FREE_HEADER] + Without(frees, a);
      frees := Without(frees, a);
    }

    // --------------------------------------------------------- allocation

    /** No free block has `size` data bytes. */
    ghost predicate NoneFits(size: nat)
      requires Flagged(Sh())
      reads this
    {
      forall i :: 0 <= i < |ring| - 1 && !used[ring[i]] ==> Size(Sh(), i) < size
    }

    /** Walk the free list to the first block with room for `size` bytes. */
    method FindFree(size: nat) returns (h: nat, ghost i: nat)
      requires Valid() && size > 0
      ensures h == FREE_HEADER <==> FirstFree(Sh(), frees, size).None?
      ensures h == FREE_HEADER <==> NoneFits(size)
      ensures h != FREE_HEADER ==> FirstFree(Sh(), frees, size) == Some(h) && i == PlaceOf(Sh(), h)
      ensures h != FREE_HEADER ==>
                i < |ring| - 1 && ring[i] == h && !used[h] && h in frees && size <= Size(Sh(), i) && h in next && next[h] == ring[i + 1]
    {
      ghost var q := 0;
      var freeSize := 0;
      ghost var c := [FREE_HEADER] + frees;
      assert c[0] == FREE_HEADER && LinkedAt(nextFree, prevFree, c, 0);
      h := nextFree[FREE_HEADER];
      forall j | 0 <= j < |frees| ensures frees[j] != FREE_HEADER {
        FreeBlockSize(lo, hi, next, prev, Sh(), frees, j);
      }
      while h != FREE_HEADER && freeSize < size
        invariant 0 <= q <= |frees| && h == if q < |frees| then frees[q] else FREE_HEADER
        invariant forall j :: 0 <= j < q ==> BlockSize(Sh(), frees[j]) < size
        invariant freeSize >= size ==> h != FREE_HEADER && freeSize == BlockSize(Sh(), h)
        decreases |frees| - q, size - freeSize
      {
        FreeBlockSize(lo, hi, next, prev, Sh(), frees, q);
        assert c[q + 1] == h && LinkedAt(nextFree, prevFree, c, q + 1);
        freeSize := next[h] - h - HDR;
        if freeSize < size {
          h := nextFree[h];
          q := q + 1;
          assert q < |frees| ==> c[q + 1] == frees[q];
        }
      }
      FirstFreeIs(Sh(), frees, size, q);
      i := PlaceOf(Sh(), h);
      if h != FREE_HEADER {
        FreeBlockSize(lo, hi, next, prev, Sh(), frees, q);
      } else {
        NothingFree(lo, hi, Sh(), frees, size);
      }
    }

    /** The bookkeeping after the available byte count went down. */
    method NoteUse()
      modifies this`maxUsed
      ensures maxUsed == Max(old(maxUsed), PoolSize() - available)
    {
      if PoolSize() - available > maxUsed {
        maxUsed := PoolSize() - available;
      }
    }

    /** Give out the first `size` bytes of the free block `h`; the rest becomes a free block. */
    method TakeFront(h: nat, size: nat, a: nat, ghost i: nat)
      requires Linked() && i < |ring| - 1 && ring[i] == h && h in frees
      requires a !in ring && a !in frees && a != FREE_HEADER && NoDup(frees)
      modifies this
      ensures Linked() && Sh() == Occupy(Split(old(Sh()), i, a), i) && frees == [a] + Without(old(frees), h)
      ensures available == old(available) - size - HDR
      ensures maxUsed == Max(old(maxUsed), PoolSize() - available)
    {
      WithoutMembers(frees, h);
      InsertedAt(ring, i, a, i);
      used := used[a := false];
      LinkBlock(h, a, i);
      RemoveFree(h);
      InsertFree(a);
      available := available - size - HDR;
      NoteUse();
      used := used[h := true];
    }

    /** Give out the whole free block `h`. */
    method TakeAll(h: nat, freeSize: nat, ghost i: nat)
      requires Linked() && i < |ring| - 1 && ring[i] == h && h in frees
      modifies this
      ensures Linked() && Sh() == Occupy(old(Sh()), i) && frees == Without(old(frees), h)
      ensures available == old(available) - freeSize
      ensures maxUsed == Max(old(maxUsed), PoolSize() - available)
    {
      available := available - freeSize;
      NoteUse();
      RemoveFree(h);
      used := used[h := true];
    }

    /** Give out the free block `h`, splitting it if worthwhile. */
    method TakeBlock(h: nat, size: nat, ghost i: nat, ghost request: nat) returns (ghost got: nat)
      requires Valid() && i < |ring| - 1 && ring[i] == h && !used[h] && h in frees
      requires size <= Size(Sh(), i) && size == Rounded(request)
      modifies this
      ensures available == old(available) - got - if BlockSize(old(Sh()), h) > got then HDR else 0
      ensures TakenFrom(old(Sh()), h, size, got) && RestListed(old(Sh()), old(frees), frees, h, got)
      ensures Valid() && got == Granted(old(Sh()), i, size, MINIALLOC) && got >= size
      ensures old(Gridded(lo, ring)) ==> OnGrid(lo, h)
      ensures old(Gridded(lo, ring)) ==> (Gridded(lo, ring) <==> request > 0 || BlockSize(old(Sh()), h) < MINIALLOC + HDR + MINIALLOC)
      ensures forall b, n :: IsLive(Sh(), b, n) <==> if b == h then n == got else IsLive(old(Sh()), b, n)
      ensures maxUsed == Max(old(maxUsed), PoolSize() - available)
    {
      ghost var sh := Sh();
      assert LinkedAt(next, prev, ring, i);
      var freeSize := next[h] - h - HDR;
      got := Granted(sh, i, size, MINIALLOC);
      CarveFacts(lo, hi, sh, frees, i, size, h + HDR + size);
      if Gridded(lo, ring) {
        assert Fits(ring, i);
        CarveGridded(lo, sh, i, size, MINIALLOC);
        GrantedOnGrid(lo, hi, sh, i, request);
      }
      TakenAt(lo, hi, sh, i, size);
      if freeSize >= size + HDR + MINIALLOC {
        TakeFront(h, size, h + HDR + size, i);
      } else {
        TakeAll(h, freeSize, i);
      }
    }

    /**
     `rt_memheap_alloc`: the first block with room on the free list, or its front.  `got` is the data
     size of the block given out.  Headers on the grid of 32 bytes stay on it unless a block is cut
     for a request of zero bytes.
     */
    method Alloc(request: nat) returns (p: Option<nat>, ghost got: nat)
      requires Valid() && request <= SIZE_MAX - ALIGN
      modifies this
      ensures Valid()
      ensures p.None? <==> Rounded(request) >= old(available) || old(NoneFits(Rounded(request)))
      ensures p.None? ==> Sh() == old(Sh()) && available == old(available) && maxUsed == old(maxUsed)
      ensures p.Some? ==> p.value >= HDR && got >= Rounded(request) && NotLive(old(Sh()), p.value - HDR)
      ensures p.Some? ==> FirstFree(old(Sh()), old(frees), Rounded(request)) == Some(p.value - HDR)
      ensures p.Some? ==> TakenFrom(old(Sh()), p.value - HDR, Rounded(request), got)
      ensures if p.None? then frees == old(frees) else RestListed(old(Sh()), old(frees), frees, p.value - HDR, got)
      ensures p.Some? && old(Gridded(lo, ring)) ==> (p.value - lo) % 32 == 0
      ensures p.Some? && old(Gridded(lo, ring)) ==>
                (Gridded(lo, ring) <==> request > 0 || old(BlockSize(Sh(), FirstFree(Sh(), frees, MINIALLOC).value)) < MINIALLOC + HDR + MINIALLOC)
      ensures p.Some? ==> forall b, n :: IsLive(Sh(), b, n) <==>
                if b == p.value - HDR then n == got else IsLive(old(Sh()), b, n)
      ensures maxUsed == Max(old(maxUsed), PoolSize() - available)
      ensures p.Some? ==> available == old(available) - got - if BlockSize(old(Sh()), p.value - HDR) > got then HDR else 0
    {
      got := 0;
      var size := Align(request);
      if size < MINIALLOC {
        size := MINIALLOC;
      }
      if size < available {
        var h;
        ghost var i;
        h, i := FindFree(size);
        if h != FREE_HEADER {
          got := TakeBlock(h, size, i, request);
          p := Some(h + HDR);
          return;
        }
      }
      p := None;
    }

    // ------------------------------------------------------------- release

    /** Merge block `j` with the block behind it if that one is free. */
    method MergeRight(header: nat, ghost j: nat)
      requires Linked() && Flagged(Sh())
      requires j + 1 < |ring| && ring[j] == header && (ring[j + 1] in frees <==> !used[ring[j + 1]])
      modifies this`next, this`prev, this`nextFree, this`prevFree, this`ring, this`frees, this`available
      ensures Linked() && Sh() == Coalesce(old(Sh()), j)
      ensures frees == if old(used[ring[j + 1]]) then old(frees) else Without(old(frees), old(ring[j + 1]))
      ensures available == old(available) + if old(used[ring[j + 1]]) then 0 else HDR as int
    {
      assert LinkedAt(next, prev, ring, j);
      var n := next[header];
      if !used[n] {
        available := available + HDR;
        UnlinkBlock(n, j + 1);
        RemoveFree(n);
      }
    }

    /** The address in front of `header` on the ring. */
    method Previous(header: nat, ghost i: nat) returns (p: nat)
      requires Linked() && i < |ring| && ring[i] == header
      ensures p == ring[if i == 0 then |ring| - 1 else i - 1]
    {
      PrevIs(next, prev, ring, i);
      p := prev[header];
    }

    /** Relink the block `header`, just marked free, with its free neighbours or into the free list. */
    method MergeIn(header: nat, ghost i: nat, ghost sh: Shape)
      requires Linked() && i + 1 < |sh.ring| && Flagged(sh) && Sh() == Vacate(sh, i) && ring[i] == header
      requires header !in frees && header != FREE_HEADER && NoDup(frees) && Neighbours(sh, frees, i)
      modifies this`next, this`prev, this`nextFree, this`prevFree, this`ring, this`frees, this`available
      ensures Linked() && Sh() == Merged(sh, i) && frees == MergedFrees(sh, old(frees), i)
      ensures available == old(available) + (if i > 0 && !sh.used[sh.ring[i - 1]] then HDR else 0)
                + (if sh.used[sh.ring[i + 1]] then 0 else HDR)
    {
      var before := Previous(header, i);
      if !used[before] {
        MergeFront(header, before, i, sh);
      } else {
        MergeAlone(header, i, sh);
      }
    }

    /** Join the block `header` to the free block `before` in front of it, and to a free block behind it. */
    method MergeFront(header: nat, before: nat, ghost i: nat, ghost sh: Shape)
      requires Linked() && i + 1 < |sh.ring| && Flagged(sh) && Sh() == Vacate(sh, i) && ring[i] == header
      requires Neighbours(sh, frees, i) && i > 0 && !sh.used[sh.ring[i - 1]] && ring[i - 1] == before
      modifies this`next, this`prev, this`nextFree, this`prevFree, this`ring, this`frees, this`available
      ensures Linked() && Sh() == Merged(sh, i) && frees == MergedFrees(sh, old(frees), i)
      ensures available == old(available) + HDR + (if sh.used[sh.ring[i + 1]] then 0 else HDR)
    {
      available := available + HDR;
      UnlinkBlock(header, i);
      MergeRight(before, i - 1);
    }

    /** Relink the block `header` behind a used block: with a free block behind it, and into the free list. */
    method MergeAlone(header: nat, ghost i: nat, ghost sh: Shape)
      requires Linked() && i + 1 < |sh.ring| && Flagged(sh) && Sh() == Vacate(sh, i) && ring[i] == header
      requires header !in frees && header != FREE_HEADER && NoDup(frees) && Neighbours(sh, frees, i)
      requires i > 0 ==> sh.used[sh.ring[i - 1]]
      modifies this`next, this`prev, this`nextFree, this`prevFree, this`ring, this`frees, this`available
      ensures Linked() && Sh() == Merged(sh, i) && frees == MergedFrees(sh, old(frees), i)
      ensures available == old(available) + (if sh.used[sh.ring[i + 1]] then 0 else HDR)
    {
      WithoutMembers(frees, ring[i + 1]);
      MergeRight(header, i);
      InsertFree(header);
    }

    /** `rt_memheap_free` of the live block whose data starts at `ptr`. */
    method Free(ptr: nat, ghost size: nat)
      requires Valid() && ptr >= HDR && IsLive(Sh(), ptr - HDR, size)
      modifies this
      ensures Valid() && maxUsed == old(maxUsed)
      ensures available >= old(available) + size && GivenBack(old(Sh()), old(frees), frees, ptr - HDR)
      ensures old(Gridded(lo, ring)) ==> Gridded(lo, ring)
      ensures forall b, n :: IsLive(Sh(), b, n) <==> b != ptr - HDR && IsLive(old(Sh()), b, n)
    {
      ghost var sh := Sh();
      var header := ptr - HDR;
      ghost var i := PlaceOf(sh, header);
      LivePlace(lo, hi, sh, header, size);
      MergedFacts(lo, hi, sh, frees, i);
      MergedFreesIs(lo, hi, sh, frees, i);
      assert LinkedAt(next, prev, ring, i);
      used := used[header := false];
      available := available + (next[header] - header - HDR);
      MergeIn(header, i, sh);
    }

    // -------------------------------------------------------- reallocation

    /** Grow block `i` in place up to `a`, into the free block behind it. */
    method GrowInPlace(header: nat, a: nat, ghost i: nat)
      requires Linked() && Flagged(Sh()) && i + 2 < |ring| && ring[i] == header
      requires ring[i + 1] in frees && a !in Absorb(Sh(), i).ring && a !in Without(frees, ring[i + 1]) && a != FREE_HEADER
      modifies this`next, this`prev, this`nextFree, this`prevFree, this`ring, this`frees, this`used
      ensures Linked() && Sh() == Grown(old(Sh()), i, a) && frees == [a] + Without(old(frees), old(ring[i + 1]))
    {
      assert LinkedAt(next, prev, ring, i);
      var n := next[header];
      RemoveFree(n);
      UnlinkBlock(n, i + 1);
      DeletedAt(old(ring), i + 1, i);
      used := used[a := false];
      LinkBlock(header, a, i);
      InsertFree(a);
    }

    /** Shrink block `i` in place to end at `a`; the tail becomes free. */
    method ShrinkInPlace(header: nat, a: nat, ghost i: nat)
      requires Linked() && Flagged(Sh()) && i + 1 < |ring| && ring[i] == header
      requires a !in ring && a !in frees && a != FREE_HEADER && NoDup(frees)
      requires ring[i + 1] in frees <==> !used[ring[i + 1]]
      modifies this`next, this`prev, this`nextFree, this`prevFree, this`ring, this`frees, this`used, this`available
      ensures Linked() && Sh() == Shrunk(old(Sh()), i, a)
      ensures frees == [a] + (if old(used[ring[i + 1]]) then old(frees) else Without(old(frees), old(ring[i + 1])))
      ensures available == old(available) + (old(ring[i + 1]) - a)
                - (if old(used[ring[i + 1]]) then HDR else 0)
    {
      WithoutMembers(frees, ring[i + 1]);
      used := used[a := false];
      LinkBlock(header, a, i);
      InsertedAt(old(ring), i, a, i + 1);
      assert LinkedAt(next, prev, ring, i + 1);
      var n := next[a];
      assert n == old(ring)[i + 1] && n != a;
      if !used[n] {
        assert i + 2 < |old(ring)|;
        InsertedAt(old(ring), i, a, i + 2);
        assert LinkedAt(next, prev, ring, i + 2);
        available := available - (next[n] - n - HDR);
        DeletedAt(ring, i + 2, i + 1);
        DeletedAt(ring, i + 2, i + 3);
        UnlinkBlock(n, i + 2);
        RemoveFree(n);
      }
      InsertFree(a);
      assert LinkedAt(next, prev, ring, i + 1);
      available := available + (next[a] - a - HDR);
    }

    /** Is the block behind `header` free and big enough to let it grow to `newSize`? */
    method RoomBehind(header: nat, newSize: nat, ghost i: nat) returns (room: bool, size: nat)
      requires Valid() && i + 1 < |ring| && ring[i] == header
      ensures size == Size(Sh(), i)
      ensures room <==> Room(Sh(), i, newSize)
    {
      assert LinkedAt(next, prev, ring, i) && Fits(ring, i);
      size := next[header] - header - HDR;
      var after := next[header];
      room := false;
      if !used[after] {
        assert LinkedAt(next, prev, ring, i + 1);
        var nextSize := next[after] - after - HDR;
        room := nextSize + size > newSize + MINIALLOC;
      }
    }

    /** Grow block `i` to `newSize` into the free block behind it. */
    method GrowTo(ptr: nat, newSize: nat, size: nat, ghost i: nat)
      requires Valid() && ptr >= HDR && i + 1 < |ring| && ring[i] == ptr - HDR && used[ptr - HDR] && Room(Sh(), i, newSize)
      requires newSize % 32 == 0 && size == Size(Sh(), i)
      modifies this
      ensures Valid() && (old(Gridded(lo, ring)) ==> Gridded(lo, ring))
      ensures maxUsed == Max(old(maxUsed), PoolSize() - available)
      ensures TailListed(old(Sh()), old(frees), frees, i, ptr + newSize)
      ensures forall b, n :: IsLive(Sh(), b, n) <==> if b == ptr - HDR then n == newSize else IsLive(old(Sh()), b, n)
    {
      ghost var sh, q := Sh(), frees;
      GrowsTo(lo, hi, sh, q, i, newSize, ptr + newSize);
      available := available - (newSize - size);
      NoteUse();
      GrowInPlace(ptr - HDR, ptr + newSize, i);
      Regrown(lo, hi, sh, q, i, newSize, ptr + newSize, Sh(), frees);
    }

    /** Copy the data of the block at `ptr` to the block at `to`, allocated after `was`. */
    method CopyData(ptr: nat, to: nat, size: nat, ghost was: Shape, ghost got: nat)
      requires Valid() && ptr >= HDR && to >= HDR && size <= got && Good(lo, hi, was) && IsLive(was, ptr - HDR, size)
      requires NotLive(was, to - HDR)
      requires forall b, n :: IsLive(Sh(), b, n) <==> if b == to - HDR then n == got else IsLive(was, b, n)
      modifies memory
      ensures CopiedTo(old(memory.cells), memory.cells, ptr, to, size)
      ensures OthersKept(was, ptr - HDR, old(memory.cells), memory.cells)
    {
      assert IsLive(Sh(), to - HDR, got) && IsLive(Sh(), ptr - HDR, size);
      LiveBlocksDisjoint(lo, hi, Sh(), to - HDR, got, ptr - HDR, size);
      memory.Copy(to, ptr, size);
      CopyKeepsOthers(lo, hi, was, Sh(), ptr - HDR, to - HDR, size, got, old(memory.cells), memory.cells);
    }

    /** The bytes in use while the old block is still there: those before, and those of the new block with a header it may need. */
    function PeakOfMove(sh: Shape, available: int, p: nat, got: nat): int {
      PoolSize() - available + got + if p >= HDR && BlockSize(sh, p - HDR) > got then HDR else 0
    }

    /** Allocate a new block, copy the data of the old one, and release it. */
    method Move(ptr: nat, newSize: nat, size: nat) returns (p: Option<nat>, ghost got: nat)
      requires Valid() && ptr >= HDR && IsLive(Sh(), ptr - HDR, size) && size < newSize <= SIZE_MAX - ALIGN && newSize % 32 == 0
      modifies this, memory
      ensures Valid() && (old(Gridded(lo, ring)) ==> Gridded(lo, ring))
      ensures maxUsed == if p.None? then old(maxUsed) else Max(old(maxUsed), PeakOfMove(old(Sh()), old(available), p.value, got))
      ensures p.None? <==> newSize >= old(available) || old(NoneFits(newSize))
      ensures p.None? ==> Sh() == old(Sh()) && available == old(available) && memory.cells == old(memory.cells)
      ensures p.Some? ==> p.value >= HDR && got >= newSize && p != Some(ptr)
      ensures p.Some? ==> forall b, n :: IsLive(Sh(), b, n) <==>
                if b == p.value - HDR then n == got else b != ptr - HDR && IsLive(old(Sh()), b, n)
      ensures p.Some? ==> CopiedTo(old(memory.cells), memory.cells, ptr, p.value, size)
      ensures p.Some? ==> OthersKept(old(Sh()), ptr - HDR, old(memory.cells), memory.cells)
    {
      ghost var was := Sh();
      assert Rounded(newSize) == newSize;
      p, got := Alloc(newSize);
      if p.Some? {
        Relocate(ptr, p.value, size, was, got);
      }
    }

    /** Copy the data of the block at `ptr` to the new block at `to`, and release the old one. */
    method Relocate(ptr: nat, to: nat, size: nat, ghost was: Shape, ghost got: nat)
      requires Valid() && ptr >= HDR && to >= HDR && size <= got && Good(lo, hi, was) && IsLive(was, ptr - HDR, size)
      requires NotLive(was, to - HDR)
      requires forall b, n :: IsLive(Sh(), b, n) <==> if b == to - HDR then n == got else IsLive(was, b, n)
      modifies this, memory
      ensures Valid() && (old(Gridded(lo, ring)) ==> Gridded(lo, ring)) && maxUsed == old(maxUsed) && to != ptr
      ensures forall b, n :: IsLive(Sh(), b, n) <==>
                if b == to - HDR then n == got else b != ptr - HDR && IsLive(was, b, n)
      ensures CopiedTo(old(memory.cells), memory.cells, ptr, to, size)
      ensures OthersKept(was, ptr - HDR, old(memory.cells), memory.cells)
    {
      CopyData(ptr, to, size, was, got);
      assert IsLive(Sh(), ptr - HDR, size);
      Free(ptr, size);
    }

    /** Make a live block bigger: in place if the free block behind it has room, else by moving it. */
    method Expand(ptr: nat, newSize: nat, ghost oldSize: nat) returns (p: Option<nat>, ghost got: nat)
      requires Valid() && ptr >= HDR && IsLive(Sh(), ptr - HDR, oldSize)
      requires oldSize < newSize <= SIZE_MAX - ALIGN && newSize % 32 == 0
      modifies this, memory
      ensures Valid() && (old(Gridded(lo, ring)) ==> Gridded(lo, ring))
      ensures maxUsed == if p.None? || p == Some(ptr) then Max(old(maxUsed), PoolSize() - available)
                         else Max(old(maxUsed), PeakOfMove(old(Sh()), old(available), p.value, got))
      ensures p.None? ==> Sh() == old(Sh()) && available == old(available) && memory.cells == old(memory.cells)
      ensures p == Some(ptr) ==> ListAfter(old(Sh()), old(frees), frees, ptr, oldSize, got)
      ensures if old(GrowsInPlace(Sh(), ptr - HDR, newSize)) then p == Some(ptr) && got == newSize && memory.cells == old(memory.cells)
              else p != Some(ptr) && (p.None? <==> newSize >= old(available) || old(NoneFits(newSize)))
      ensures p.Some? ==> p.value >= HDR && got >= newSize
      ensures p.Some? ==> forall b, n :: IsLive(Sh(), b, n) <==>
                if b == p.value - HDR then n == got else b != ptr - HDR && IsLive(old(Sh()), b, n)
      ensures p.Some? ==> CopiedTo(old(memory.cells), memory.cells, ptr, p.value, oldSize)
      ensures OthersKept(old(Sh()), ptr - HDR, old(memory.cells), memory.cells)
    {
      ghost var i := PlaceOf(Sh(), ptr - HDR);
      LivePlace(lo, hi, Sh(), ptr - HDR, oldSize);
      var room, size := RoomBehind(ptr - HDR, newSize, i);
      if room {
        GrowTo(ptr, newSize, size, i);
        return Some(ptr), newSize;
      }
      p, got := Move(ptr, newSize, size);
    }

    /** Make a live block smaller, splitting off its tail if it is worth a block. */
    method Shrink(ptr: nat, newSize: nat, ghost oldSize: nat) returns (ghost got: nat)
      requires Valid() && ptr >= HDR && IsLive(Sh(), ptr - HDR, oldSize)
      requires newSize <= oldSize && newSize % 32 == 0
      modifies this
      ensures Valid() && maxUsed == old(maxUsed) && (old(Gridded(lo, ring)) ==> Gridded(lo, ring))
      ensures got == if newSize + HDR + MINIALLOC >= oldSize then oldSize else newSize
      ensures ListAfter(old(Sh()), old(frees), frees, ptr, oldSize, got)
      ensures forall b, n :: IsLive(Sh(), b, n) <==> if b == ptr - HDR then n == got else IsLive(old(Sh()), b, n)
    {
      ghost var sh := Sh();
      var header := ptr - HDR;
      ghost var i := PlaceOf(sh, header);
      LivePlace(lo, hi, sh, header, oldSize);
      assert LinkedAt(next, prev, ring, i);
      var size := next[header] - header - HDR;
      if newSize + HDR + MINIALLOC >= size {
        LiveSizeUnique(lo, hi, sh, i, oldSize);
        return size;
      }
      ShrunkFacts(lo, hi, sh, frees, i, newSize, ptr + newSize);
      ShrinkInPlace(header, ptr + newSize, i);
      got := newSize;
    }

    /** Reallocation of a live block to a non-zero, rounded size. */
    method Resize(ptr: nat, newSize: nat, ghost oldSize: nat) returns (p: Option<nat>, ghost got: nat)
      requires Valid() && ptr >= HDR && IsLive(Sh(), ptr - HDR, oldSize) && newSize <= SIZE_MAX - ALIGN && newSize % 32 == 0
      modifies this, memory
      ensures Valid() && (old(Gridded(lo, ring)) ==> Gridded(lo, ring))
      ensures maxUsed == if p.None? || p == Some(ptr) then Max(old(maxUsed), PoolSize() - available)
                         else Max(old(maxUsed), PeakOfMove(old(Sh()), old(available), p.value, got))
      ensures p.None? ==> Sh() == old(Sh()) && available == old(available) && memory.cells == old(memory.cells)
      ensures p == Some(ptr) ==> ListAfter(old(Sh()), old(frees), frees, ptr, oldSize, got)
      ensures newSize <= oldSize ==> p == Some(ptr) && got == if newSize + HDR + MINIALLOC >= oldSize then oldSize else newSize
      ensures newSize > oldSize ==>
                if old(GrowsInPlace(Sh(), ptr - HDR, newSize)) then p == Some(ptr) && got == newSize
                else p != Some(ptr) && (p.None? <==> newSize >= old(available) || old(NoneFits(newSize)))
      ensures p.Some? ==> p.value >= HDR && got >= newSize
      ensures p.Some? ==> forall b, n :: IsLive(Sh(), b, n) <==>
                if b == p.value - HDR then n == got else b != ptr - HDR && IsLive(old(Sh()), b, n)
      ensures p.Some? ==> CopiedTo(old(memory.cells), memory.cells, ptr, p.value, if oldSize < newSize then oldSize else newSize)
      ensures OthersKept(old(Sh()), ptr - HDR, old(memory.cells), memory.cells)
    {
      var header := ptr - HDR;
      ghost var i := PlaceOf(Sh(), header);
      LivePlace(lo, hi, Sh(), header, oldSize);
      assert LinkedAt(next, prev, ring, i);
      var size := next[header] - header - HDR;
      if newSize > size {
        p, got := Expand(ptr, newSize, oldSize);
      } else {
        got := Shrink(ptr, newSize, oldSize);
        p := Some(ptr);
      }
    }

    /** `rt_memheap_realloc`. */
    method Realloc(ptr: Option<nat>, request: nat, ghost oldSize: nat) returns (p: Option<nat>, ghost got: nat)
      requires Valid() && request <= SIZE_MAX - 2 * ALIGN
      requires ptr.Some? ==> ptr.value >= HDR && IsLive(Sh(), ptr.value - HDR, oldSize)
      modifies this, memory
      ensures Valid() && (old(Gridded(lo, ring)) ==> Gridded(lo, ring))
      ensures maxUsed == if p.None? || p == ptr then Max(old(maxUsed), PoolSize() - available)
                         else Max(old(maxUsed), PeakOfMove(old(Sh()), old(available), p.value, got))
      ensures request == 0 ==> p.None? && (forall b, n :: IsLive(Sh(), b, n) <==>
                (ptr.Some? ==> b != ptr.value - HDR) && IsLive(old(Sh()), b, n))
      ensures request > 0 && p.None? ==> Sh() == old(Sh()) && available == old(available)
      ensures request > 0 && p.Some? ==> p.value >= HDR && got >= Align(request)
      ensures p.Some? && p == ptr ==> ListAfter(old(Sh()), old(frees), frees, ptr.value, oldSize, got)
      ensures request > 0 && ptr.None? ==> (p.None? <==> Align(request) >= old(available) || old(NoneFits(Align(request))))
      ensures request > 0 && ptr.Some? && Align(request) <= oldSize ==>
                p == ptr && got == if Align(request) + HDR + MINIALLOC >= oldSize then oldSize else Align(request)
      ensures request > 0 && ptr.Some? && Align(request) > oldSize ==>
                if old(GrowsInPlace(Sh(), ptr.value - HDR, Align(request))) then p == ptr && got == Align(request)
                else p != ptr && (p.None? <==> Align(request) >= old(available) || old(NoneFits(Align(request))))
      ensures request > 0 && p.Some? ==> forall b, n :: IsLive(Sh(), b, n) <==>
                if b == p.value - HDR then n == got
                else (ptr.Some? ==> b != ptr.value - HDR) && IsLive(old(Sh()), b, n)
      ensures p.Some? && ptr.Some? ==>
                CopiedTo(old(memory.cells), memory.cells, ptr.value, p.value, if oldSize < Align(request) then oldSize else Align(request))
      ensures if request == 0 || ptr.None? then memory.cells == old(memory.cells)
              else OthersKept(old(Sh()), ptr.value - HDR, old(memory.cells), memory.cells)
    {
      got := 0;
      if request == 0 {
        if ptr.Some? {
          Free(ptr.value, oldSize);
        }
        return None, 0;
      }
      var newSize := Align(request);
      if newSize < MINIALLOC {
        newSize := MINIALLOC;
      }
      assert newSize == Align(request) && Rounded(newSize) == newSize;
      if ptr.None? {
        p, got := Alloc(newSize);
      } else {
        p, got := Resize(ptr.value, newSize, oldSize);
      }
    }
  }

  /** The block behind block `i` is free and lets it grow to `newSize` with a block to spare. */
  ghost predicate Room(sh: Shape, i: nat, newSize: nat)
    requires Flagged(sh) && i + 1 < |sh.ring|
  {
    i + 2 < |sh.ring| && !sh.used[sh.ring[i + 1]] && newSize + MINIALLOC < Size(sh, i) + Size(sh, i + 1)
  }

  /** The block at `b` can grow to `newSize` where it is. */
  ghost predicate GrowsInPlace(sh: Shape, b: nat, newSize: nat)
    requires Flagged(sh)
  {
    var i := PlaceOf(sh, b);
    i + 1 < |sh.ring| && Room(sh, i, newSize)
  }

  /** The free list once `got` bytes of the block `b` on it are given out: a rest cut off is in front. */
  ghost predicate RestListed(sh: Shape, frees: seq<nat>, frees': seq<nat>, b: nat, got: nat) {
    if BlockSize(sh, b) > got then frees' == [b + HDR + got] + Without(frees, b)
    else frees' == Without(frees, b)
  }

  /** The free list once block `i` ends at `a`, and what is behind it is free up to the next used block. */
  ghost predicate TailListed(sh: Shape, frees: seq<nat>, frees': seq<nat>, i: nat, a: nat)
    requires Flagged(sh)
  {
    i + 1 < |sh.ring| && frees' == [a] + FreeWithout(sh, frees, sh.ring[i + 1])
  }

  ghost function FreeWithout(sh: Shape, frees: seq<nat>, b: nat): seq<nat>
    requires Flagged(sh) && b in sh.ring
  {
    if sh.used[b] then frees else Without(frees, b)
  }

  /** The free list after the block at `ptr` was resized where it is. */
  ghost predicate ListAfter(sh: Shape, frees: seq<nat>, frees': seq<nat>, ptr: nat, size: nat, got: nat)
    requires Flagged(sh)
  {
    if got == size then frees' == frees
    else ptr >= HDR && TailListed(sh, frees, frees', PlaceOf(sh, ptr - HDR), ptr + got)
  }

  /** The free list once block `b` is given back: it is in front unless it joined a free block in front of it. */
  ghost predicate GivenBack(sh: Shape, frees: seq<nat>, frees': seq<nat>, b: nat)
    requires Flagged(sh)
  {
    var i := PlaceOf(sh, b);
    && i + 1 < |sh.ring|
    && var rest := FreeWithout(sh, frees, sh.ring[i + 1]);
       frees' == if i > 0 && !sh.used[sh.ring[i - 1]] then rest else [b] + rest
  }

  /** In addresses: the block behind is free and not the last one, and together they hold more than the request and a smallest block. */
  lemma GrowsExactly(lo: nat, hi: nat, sh: Shape, i: nat, newSize: nat)
    requires Good(lo, hi, sh) && i + 1 < |sh.ring|
    ensures GrowsInPlace(sh, sh.ring[i], newSize) <==>
            i + 2 < |sh.ring| && !sh.used[sh.ring[i + 1]] && sh.ring[i] + newSize + 2 * HDR + 12 < sh.ring[i + 2]
  {
    TilingNoDup(lo, hi, sh.ring);
    IndexOfIs(sh.ring, i);
  }

  function PlaceOf(sh: Shape, b: nat): nat {
    IndexOf(sh.ring, b)
  }

  /** The data bytes of the block at `b`. */
  function BlockSize(sh: Shape, b: nat): int {
    if PlaceOf(sh, b) + 1 < |sh.ring| then Size(sh, PlaceOf(sh, b)) else 0
  }

  /** The first block on the free list with `size` data bytes. */
  function FirstFree(sh: Shape, frees: seq<nat>, size: nat): Option<nat> {
    if frees == [] then None
    else if BlockSize(sh, frees[0]) >= size then Some(frees[0])
    else FirstFree(sh, frees[1..], size)
  }

  /** It stands behind smaller blocks only. */
  lemma {:induction false} FirstFreeIs(sh: Shape, frees: seq<nat>, size: nat, q: nat)
    requires q <= |frees| && forall j :: 0 <= j < q ==> BlockSize(sh, frees[j]) < size
    requires q < |frees| ==> BlockSize(sh, frees[q]) >= size
    ensures FirstFree(sh, frees, size) == if q < |frees| then Some(frees[q]) else None
  {
    if q > 0 {
      forall j | 0 <= j < q - 1 ensures BlockSize(sh, frees[1..][j]) < size {
        assert frees[1..][j] == frees[j + 1];
      }
      FirstFreeIs(sh, frees[1..], size, q - 1);
    }
  }

  /** Entry `q` of the free list is an unused block, and its link tells its size. */
  lemma FreeBlockSize(lo: nat, hi: nat, next: Links, prev: Links, sh: Shape, frees: seq<nat>, q: nat)
    requires lo > 0 && Good(lo, hi, sh) && FreeListAgrees(sh, frees) && Circular(next, prev, sh.ring) && q < |frees|
    ensures frees[q] in frees && frees[q] != FREE_HEADER
    ensures var h := frees[q]; var i := PlaceOf(sh, h);
            && i + 1 < |sh.ring| && sh.ring[i] == h && !sh.used[h] && h in next && next[h] == sh.ring[i + 1]
            && next[h] - h - HDR == Size(sh, i) == BlockSize(sh, h) && Size(sh, i) >= 0
  {
    var h := frees[q];
    FreeListIs(sh, frees);
    assert h in frees;
    var i := PlaceOf(sh, h);
    Found(sh.ring, h);
    assert LinkedAt(next, prev, sh.ring, i) && Fits(sh.ring, i);
    if i > 0 {
      Ascending(lo, hi, sh.ring, 0, i);
    }
  }

  /** If no block on the free list is big enough, no free block is. */
  lemma NothingFree(lo: nat, hi: nat, sh: Shape, frees: seq<nat>, size: nat)
    requires Good(lo, hi, sh) && FreeListAgrees(sh, frees) && FirstFree(sh, frees, size).None?
    ensures forall i :: 0 <= i < |sh.ring| - 1 && !sh.used[sh.ring[i]] ==> Size(sh, i) < size
  {
    TilingNoDup(lo, hi, sh.ring);
    forall i | 0 <= i < |sh.ring| - 1 && !sh.used[sh.ring[i]] ensures Size(sh, i) < size {
      assert BlockListed(sh, frees, i);
      IndexOfIs(sh.ring, i);
      NotFirst(sh, frees, size, sh.ring[i]);
    }
  }

  lemma {:induction false} NotFirst(sh: Shape, frees: seq<nat>, size: nat, b: nat)
    requires FirstFree(sh, frees, size).None? && b in frees
    ensures BlockSize(sh, b) < size
  {
    if b != frees[0] {
      NotFirst(sh, frees[1..], size, b);
    }
  }

  /** Where on the ring a live block is. */
  lemma LivePlace(lo: nat, hi: nat, sh: Shape, b: nat, n: nat)
    requires Good(lo, hi, sh) && IsLive(sh, b, n)
    ensures var i := PlaceOf(sh, b); i + 1 < |sh.ring| && LiveAt(sh, i, b, n) && n == Size(sh, i)
  {
    var i :| 0 <= i < |sh.ring| - 1 && LiveAt(sh, i, b, n);
    TilingNoDup(lo, hi, sh.ring);
    IndexOfIs(sh.ring, i);
  }

  /** The bytes `rt_memheap_alloc` looks for. */
  function Rounded(request: nat): (size: nat)
    ensures if request == 0 then size == MINIALLOC else request <= size < request + 32 && size % 32 == 0
  {
    if Align(request) < MINIALLOC then MINIALLOC else Align(request)
  }

  /** A request for `size` bytes gets `got` bytes of the free block at `b`: all of it unless the rest is worth a block. */
  ghost predicate TakenFrom(sh: Shape, b: nat, size: nat, got: nat)
    requires Flagged(sh)
  {
    var i := PlaceOf(sh, b);
    && i + 1 < |sh.ring| && !sh.used[sh.ring[i]] && size <= Size(sh, i)
    && got == if Size(sh, i) >= size + HDR + MINIALLOC then size else Size(sh, i)
  }

  lemma TakenAt(lo: nat, hi: nat, sh: Shape, i: nat, size: nat)
    requires Good(lo, hi, sh) && i + 1 < |sh.ring| && !sh.used[sh.ring[i]] && size <= Size(sh, i)
    ensures Granted(sh, i, size, MINIALLOC) >= 0 && TakenFrom(sh, sh.ring[i], size, Granted(sh, i, size, MINIALLOC))
    ensures BlockSize(sh, sh.ring[i]) == Size(sh, i)
  {
    TilingNoDup(lo, hi, sh.ring);
    IndexOfIs(sh.ring, i);
  }

  /** What is given out of a heap on the grid is a multiple of 32 unless it is cut off for zero bytes. */
  lemma GrantedOnGrid(lo: nat, hi: nat, sh: Shape, i: nat, request: nat)
    requires Good(lo, hi, sh) && Gridded(lo, sh.ring) && i + 1 < |sh.ring|
    ensures OnGrid(lo, sh.ring[i])
    ensures Granted(sh, i, Rounded(request), MINIALLOC) % 32 == 0 <==>
            request > 0 || Size(sh, i) < MINIALLOC + HDR + MINIALLOC
  {
    assert Fits(sh.ring, i) && GridAt(lo, sh.ring, i);
    SizeOnGrid(lo, sh, i);
  }

  /** `x` is a data byte of the live block at `b`. */
  ghost predicate LiveByte(sh: Shape, b: nat, x: nat)
    requires Flagged(sh)
  {
    exists n: nat :: IsLive(sh, b, n) && b + HDR <= x < b + HDR + n
  }

  /** No byte of a live block but the one at `b` changed. */
  ghost predicate OthersKept(sh: Shape, b: int, cells: map<nat, int>, cells': map<nat, int>)
    requires Flagged(sh)
  {
    forall a: nat, x: nat :: LiveByte(sh, a, x) && a != b ==> ByteAt(cells', x) == ByteAt(cells, x)
  }

  /** Copying into a new block changes no byte of the other live blocks. */
  lemma CopyKeepsOthers(lo: nat, hi: nat, sh: Shape, sh': Shape, b: nat, d: nat, n: nat, got: nat, cells: map<nat, int>, cells': map<nat, int>)
    requires Good(lo, hi, sh) && Good(lo, hi, sh') && IsLive(sh', d, got) && n <= got
    requires forall a: nat, m: nat :: IsLive(sh, a, m) ==> a != d && IsLive(sh', a, m)
    requires SameOutside(cells, cells', d + HDR, n)
    ensures OthersKept(sh, b, cells, cells')
  {
    forall a: nat, x: nat | LiveByte(sh, a, x) && a != b ensures ByteAt(cells', x) == ByteAt(cells, x) {
      var m: nat :| IsLive(sh, a, m) && a + HDR <= x < a + HDR + m;
      LiveBlocksDisjoint(lo, hi, sh', a, m, d, got);
    }
  }

  /** The headers, which the heap writes, share no address with the data of live blocks, which `rt_memcpy` writes. */
  lemma HeadersOffData(lo: nat, hi: nat, sh: Shape, j: nat, b: nat, x: nat)
    requires Good(lo, hi, sh) && j < |sh.ring| && LiveByte(sh, b, x)
    ensures !(sh.ring[j] <= x < sh.ring[j] + HDR)
  {
    var n: nat :| IsLive(sh, b, n) && b + HDR <= x < b + HDR + n;
    var i :| 0 <= i < |sh.ring| - 1 && LiveAt(sh, i, b, n);
    if j < i {
      Ascending(lo, hi, sh.ring, j, i);
    } else if i + 1 < j {
      Ascending(lo, hi, sh.ring, i + 1, j);
    }
  }

  /** No block at `a` is in use. */
  ghost predicate NotLive(sh: Shape, a: nat)
    requires Flagged(sh)
  {
    forall n :: !IsLive(sh, a, n)
  }

  // ----------------------------------- what each operation does to the shape

  lemma CarveListed(lo: nat, hi: nat, sh: Shape, frees: seq<nat>, i: nat, size: nat, a: nat)
    requires Good(lo, hi, sh) && FreeListAgrees(sh, frees) && i + 1 < |sh.ring| && !sh.used[sh.ring[i]]
    requires size <= Size(sh, i) && a == sh.ring[i] + HDR + size
    requires Good(lo, hi, Carve(sh, i, size, MINIALLOC))
    ensures if Size(sh, i) >= size + HDR + MINIALLOC
            then a !in sh.ring && a !in frees &&
                 FreeListAgrees(Carve(sh, i, size, MINIALLOC), [a] + Without(frees, sh.ring[i]))
            else FreeListAgrees(Carve(sh, i, size, MINIALLOC), Without(frees, sh.ring[i]))
  {
    if Size(sh, i) >= size + HDR + MINIALLOC {
      CarveSplitLoose(lo, hi, sh, i, size);
      SplitListed(sh, frees, i, a);
      InsertedAt(sh.ring, i, a, i);
      OccupyListed(Split(sh, i, a), [a] + frees, i);
      WithoutCons(a, frees, sh.ring[i]);
    } else {
      OccupyListed(sh, frees, i);
    }
  }

  lemma CarveFacts(lo: nat, hi: nat, sh: Shape, frees: seq<nat>, i: nat, size: nat, a: nat)
    requires Good(lo, hi, sh) && FreeListAgrees(sh, frees) && i + 1 < |sh.ring| && !sh.used[sh.ring[i]]
    requires size <= Size(sh, i) && a == sh.ring[i] + HDR + size
    ensures var sh' := Carve(sh, i, size, MINIALLOC);
            var cut := Size(sh, i) >= size + HDR + MINIALLOC;
            && Good(lo, hi, sh')
            && Sum(sh', FREE_DATA) == Sum(sh, FREE_DATA) - (if cut then size + HDR else Size(sh, i))
            && (cut ==> a !in sh.ring && a !in frees && sh' == Occupy(Split(sh, i, a), i))
            && (if cut then FreeListAgrees(sh', [a] + Without(frees, sh.ring[i]))
                else FreeListAgrees(sh', Without(frees, sh.ring[i])))
            && (forall b, n :: IsLive(sh', b, n) <==>
                  if b == sh.ring[i] then n == Granted(sh, i, size, MINIALLOC) else IsLive(sh, b, n))
  {
    CarveGood(lo, hi, sh, i, size, MINIALLOC);
    CarveListed(lo, hi, sh, frees, i, size, a);
    TilingNoDup(lo, hi, sh.ring);
    if Size(sh, i) >= size + HDR + MINIALLOC {
      CarveSplitLoose(lo, hi, sh, i, size);
      CarveSplitSum(sh, FREE_DATA, i, a);
    } else {
      FlagSum(sh, FREE_DATA, i, true);
    }
    forall b, n ensures IsLive(Carve(sh, i, size, MINIALLOC), b, n) <==>
      if b == sh.ring[i] then n == Granted(sh, i, size, MINIALLOC) else IsLive(sh, b, n)
    {
      CarveLive(lo, hi, sh, i, size, MINIALLOC, b, n);
    }
  }

  /** The free list after block `i` was given back. */
  ghost function MergedFrees(sh: Shape, frees: seq<nat>, i: nat): seq<nat>
    requires Flagged(sh) && i + 1 < |sh.ring|
  {
    var frees1 := if sh.used[sh.ring[i + 1]] then frees else Without(frees, sh.ring[i + 1]);
    if i > 0 && !sh.used[sh.ring[i - 1]] then frees1 else [sh.ring[i]] + frees1
  }

  lemma MergedFreesIs(lo: nat, hi: nat, sh: Shape, frees: seq<nat>, i: nat)
    requires Good(lo, hi, sh) && i + 1 < |sh.ring|
    ensures GivenBack(sh, frees, MergedFrees(sh, frees, i), sh.ring[i])
  {
    TilingNoDup(lo, hi, sh.ring);
    IndexOfIs(sh.ring, i);
  }

  /** What the links show around block `i` while it is being given back. */
  ghost predicate Neighbours(sh: Shape, frees: seq<nat>, i: nat)
    requires Flagged(sh) && i + 1 < |sh.ring|
  {
    var r := MergedLeft(sh, i);
    && Flagged(Vacate(sh, i)) && sh.ring[i] != sh.ring[i + 1] && (i > 0 ==> sh.ring[i] != sh.ring[i - 1])
    && (sh.ring[i + 1] in frees <==> !sh.used[sh.ring[i + 1]])
    && Flagged(r.0) && r.1 + 1 < |r.0.ring| && r.0.ring[r.1 + 1] == sh.ring[i + 1]
    && r.0.ring[r.1] == if r.1 == i then sh.ring[i] else sh.ring[i - 1]
  }

  lemma NeighboursHold(lo: nat, hi: nat, sh: Shape, frees: seq<nat>, i: nat)
    requires Good(lo, hi, sh) && FreeListAgrees(sh, frees) && i + 1 < |sh.ring| && sh.used[sh.ring[i]]
    ensures Neighbours(sh, frees, i)
  {
    TilingNoDup(lo, hi, sh.ring);
    Apart(sh.ring, i, i + 1);
    if i > 0 {
      Apart(sh.ring, i, i - 1);
      DeletedAt(sh.ring, i, i - 1);
      DeletedAt(sh.ring, i, i + 1);
    }
    assert BlockListed(sh, frees, i + 1);
    MergedLeftGoodBut(lo, hi, sh, i);
    VacateLoose(lo, hi, sh, i);
  }

  /** The free list after block `i` was merged to the left only. */
  ghost function LeftFrees(sh: Shape, frees: seq<nat>, i: nat): seq<nat>
    requires Flagged(sh) && i < |sh.ring|
  {
    if i > 0 && !sh.used[sh.ring[i - 1]] then frees else [sh.ring[i]] + frees
  }

  lemma LeftListed(sh: Shape, frees: seq<nat>, i: nat)
    requires Flagged(sh) && NoDup(sh.ring) && FreeListAgrees(sh, frees) && i + 1 < |sh.ring| && sh.used[sh.ring[i]]
    requires Flagged(Vacate(sh, i)) && Flagged(MergedLeft(sh, i).0)
    ensures sh.ring[i] !in frees && FreeListAgrees(MergedLeft(sh, i).0, LeftFrees(sh, frees, i))
  {
    VacateListed(sh, frees, i);
    if i > 0 && !sh.used[sh.ring[i - 1]] {
      WithoutHead(sh.ring[i], frees);
      AbsorbListed(Vacate(sh, i), [sh.ring[i]] + frees, i - 1);
    }
  }

  lemma MergedListed(lo: nat, hi: nat, sh: Shape, frees: seq<nat>, i: nat)
    requires Good(lo, hi, sh) && FreeListAgrees(sh, frees) && i + 1 < |sh.ring| && sh.used[sh.ring[i]]
    requires Neighbours(sh, frees, i) && Loose(lo, hi, MergedLeft(sh, i).0) && Good(lo, hi, Merged(sh, i))
    ensures sh.ring[i] !in frees && FreeListAgrees(Merged(sh, i), MergedFrees(sh, frees, i))
  {
    var r := MergedLeft(sh, i);
    TilingNoDup(lo, hi, sh.ring);
    LeftListed(sh, frees, i);
    if !sh.used[sh.ring[i + 1]] {
      TilingNoDup(lo, hi, r.0.ring);
      AbsorbListed(r.0, LeftFrees(sh, frees, i), r.1);
      WithoutCons(sh.ring[i], frees, sh.ring[i + 1]);
    }
  }

  lemma MergedFacts(lo: nat, hi: nat, sh: Shape, frees: seq<nat>, i: nat)
    requires lo > 0 && Good(lo, hi, sh) && FreeListAgrees(sh, frees) && i + 1 < |sh.ring| && sh.used[sh.ring[i]]
    ensures Neighbours(sh, frees, i) && sh.ring[i] != FREE_HEADER && sh.ring[i] !in frees
    ensures Good(lo, hi, Merged(sh, i)) && FreeListAgrees(Merged(sh, i), MergedFrees(sh, frees, i))
    ensures forall b, n :: IsLive(Merged(sh, i), b, n) <==> b != sh.ring[i] && IsLive(sh, b, n)
    ensures Sum(Merged(sh, i), FREE_DATA) == Sum(sh, FREE_DATA) + Size(sh, i)
              + (if i > 0 && !sh.used[sh.ring[i - 1]] then HDR else 0)
              + (if sh.used[sh.ring[i + 1]] then 0 else HDR)
    ensures Gridded(lo, sh.ring) ==> Gridded(lo, Merged(sh, i).ring)
  {
    NeighboursHold(lo, hi, sh, frees, i);
    MergedGood(lo, hi, sh, i);
    MergedListed(lo, hi, sh, frees, i);
    TilingNoDup(lo, hi, sh.ring);
    MergedLeftSum(lo, hi, sh, FREE_DATA, i);
    CoalesceSum(MergedLeft(sh, i).0, FREE_DATA, MergedLeft(sh, i).1);
    if Gridded(lo, sh.ring) {
      MergedGridded(lo, hi, sh, i);
    }
    forall b, n ensures IsLive(Merged(sh, i), b, n) <==> b != sh.ring[i] && IsLive(sh, b, n) {
      MergedLive(lo, hi, sh, i, b, n);
    }
  }

  /** What growing block `i` in place does, with its new end named. */
  lemma GrownFacts(lo: nat, hi: nat, sh: Shape, frees: seq<nat>, i: nat, size: nat, a: nat)
    requires Good(lo, hi, sh) && FreeListAgrees(sh, frees)
    requires i + 2 < |sh.ring| && sh.used[sh.ring[i]] && !sh.used[sh.ring[i + 1]]
    requires a == sh.ring[i] + HDR + size && size + MINIALLOC < Size(sh, i) + Size(sh, i + 1)
    ensures sh.ring[i + 1] in frees && a !in Absorb(sh, i).ring && a !in Without(frees, sh.ring[i + 1])
    ensures Good(lo, hi, Grown(sh, i, a)) && FreeListAgrees(Grown(sh, i, a), [a] + Without(frees, sh.ring[i + 1]))
    ensures Sum(Grown(sh, i, a), FREE_DATA) == Sum(sh, FREE_DATA) + Size(sh, i) - size
    ensures Gridded(lo, sh.ring) && size % 32 == 0 ==> Gridded(lo, Grown(sh, i, a).ring)
    ensures forall b, n :: IsLive(Grown(sh, i, a), b, n) <==> if b == sh.ring[i] then n == size else IsLive(sh, b, n)
  {
    AbsorbUsedGood(lo, hi, sh, i);
    GrownGood(lo, hi, sh, i, a);
    TilingNoDup(lo, hi, sh.ring);
    TilingNoDup(lo, hi, Absorb(sh, i).ring);
    AbsorbListed(sh, frees, i);
    SplitListed(Absorb(sh, i), Without(frees, sh.ring[i + 1]), i, a);
    AbsorbSum(sh, FREE_DATA, i);
    SplitSum(Absorb(sh, i), FREE_DATA, i, a);
    if Gridded(lo, sh.ring) && size % 32 == 0 {
      GrownGridded(lo, sh, i, size, a);
    }
    forall b, n ensures IsLive(Grown(sh, i, a), b, n) <==> if b == sh.ring[i] then n == size else IsLive(sh, b, n) {
      GrownLive(sh, i, a, size, b, n);
    }
  }

  /** The same, with the new shape and free list named. */
  lemma GrowsTo(lo: nat, hi: nat, sh: Shape, frees: seq<nat>, i: nat, size: nat, a: nat)
    requires Good(lo, hi, sh) && FreeListAgrees(sh, frees)
    requires i + 2 < |sh.ring| && sh.used[sh.ring[i]] && !sh.used[sh.ring[i + 1]]
    requires a == sh.ring[i] + HDR + size && size + MINIALLOC < Size(sh, i) + Size(sh, i + 1)
    ensures sh.ring[i + 1] in frees && a !in Absorb(sh, i).ring && a !in Without(frees, sh.ring[i + 1])
  {
    GrownFacts(lo, hi, sh, frees, i, size, a);
  }

  lemma Regrown(lo: nat, hi: nat, sh: Shape, frees: seq<nat>, i: nat, size: nat, a: nat, sh': Shape, frees': seq<nat>)
    requires Good(lo, hi, sh) && FreeListAgrees(sh, frees)
    requires i + 2 < |sh.ring| && sh.used[sh.ring[i]] && !sh.used[sh.ring[i + 1]]
    requires a == sh.ring[i] + HDR + size && size + MINIALLOC < Size(sh, i) + Size(sh, i + 1)
    requires sh' == Grown(sh, i, a) && frees' == [a] + Without(frees, sh.ring[i + 1])
    ensures Good(lo, hi, sh') && FreeListAgrees(sh', frees') && TailListed(sh, frees, frees', i, a)
    ensures Sum(sh', FREE_DATA) == Sum(sh, FREE_DATA) + Size(sh, i) - size
    ensures Gridded(lo, sh.ring) && size % 32 == 0 ==> Gridded(lo, sh'.ring)
    ensures forall b, n :: IsLive(sh', b, n) <==> if b == sh.ring[i] then n == size else IsLive(sh, b, n)
  {
    GrownFacts(lo, hi, sh, frees, i, size, a);
  }

  lemma GrownLive(sh: Shape, i: nat, a: nat, size: nat, b: nat, n: nat)
    requires Flagged(sh) && NoDup(sh.ring) && i + 2 < |sh.ring| && sh.used[sh.ring[i]] && !sh.used[sh.ring[i + 1]]
    requires Flagged(Absorb(sh, i)) && NoDup(Absorb(sh, i).ring) && Flagged(Grown(sh, i, a))
    requires a !in Absorb(sh, i).ring && a == sh.ring[i] + HDR + size
    ensures IsLive(Grown(sh, i, a), b, n) <==> if b == sh.ring[i] then n == size else IsLive(sh, b, n)
  {
    DeletedAt(sh.ring, i + 1, i);
    SplitUsedLive(Absorb(sh, i), i, a, b, n);
    if b != sh.ring[i] {
      AbsorbUsedLive(sh, i, b, n);
    }
  }

  lemma ShrunkListed(lo: nat, hi: nat, sh: Shape, frees: seq<nat>, i: nat, a: nat)
    requires Good(lo, hi, sh) && FreeListAgrees(sh, frees) && i + 1 < |sh.ring| && a !in sh.ring
    requires Loose(lo, hi, Split(sh, i, a)) && Flagged(Shrunk(sh, i, a))
    ensures a !in frees
    ensures FreeListAgrees(Shrunk(sh, i, a), [a] + if sh.used[sh.ring[i + 1]] then frees else Without(frees, sh.ring[i + 1]))
  {
    SplitListed(sh, frees, i, a);
    InsertedAt(sh.ring, i, a, i + 1);
    if !sh.used[sh.ring[i + 1]] {
      TilingNoDup(lo, hi, Split(sh, i, a).ring);
      AbsorbListed(Split(sh, i, a), [a] + frees, i + 1);
      WithoutCons(a, frees, sh.ring[i + 1]);
    }
  }

  /** The bytes that become free when block `i` shrinks. */
  lemma ShrunkFree(sh: Shape, i: nat, a: nat)
    requires Flagged(sh) && i + 1 < |sh.ring| && sh.used[sh.ring[i]] && a !in sh.ring
    requires Flagged(Split(sh, i, a)) && Flagged(Shrunk(sh, i, a))
    ensures Sum(Shrunk(sh, i, a), FREE_DATA) == Sum(sh, FREE_DATA) + (sh.ring[i + 1] - a)
              - (if sh.used[sh.ring[i + 1]] then HDR else 0)
  {
    InsertedAt(sh.ring, i, a, i + 1);
    SplitSum(sh, FREE_DATA, i, a);
    CoalesceSum(Split(sh, i, a), FREE_DATA, i + 1);
  }

  /** What shrinking block `i` in place does, with its new end named. */
  lemma ShrunkFacts(lo: nat, hi: nat, sh: Shape, frees: seq<nat>, i: nat, size: nat, a: nat)
    requires Good(lo, hi, sh) && FreeListAgrees(sh, frees) && i + 1 < |sh.ring| && sh.used[sh.ring[i]]
    requires a == sh.ring[i] + HDR + size && size + HDR + MINIALLOC < Size(sh, i)
    ensures a !in sh.ring && a !in frees
    ensures sh.ring[i + 1] in frees <==> !sh.used[sh.ring[i + 1]]
    ensures Good(lo, hi, Shrunk(sh, i, a))
    ensures FreeListAgrees(Shrunk(sh, i, a), [a] + if sh.used[sh.ring[i + 1]] then frees else Without(frees, sh.ring[i + 1]))
    ensures Sum(Shrunk(sh, i, a), FREE_DATA) == Sum(sh, FREE_DATA) + (sh.ring[i + 1] - a)
              - (if sh.used[sh.ring[i + 1]] then HDR else 0)
    ensures Gridded(lo, sh.ring) && size % 32 == 0 ==> Gridded(lo, Shrunk(sh, i, a).ring)
    ensures forall b, n :: IsLive(Shrunk(sh, i, a), b, n) <==> if b == sh.ring[i] then n == size else IsLive(sh, b, n)
  {
    assert BlockListed(sh, frees, i + 1);
    ShrunkGood(lo, hi, sh, i, a);
    TilingNoDup(lo, hi, sh.ring);
    ShrunkListed(lo, hi, sh, frees, i, a);
    ShrunkFree(sh, i, a);
    if Gridded(lo, sh.ring) && size % 32 == 0 {
      ShrunkGridded(lo, sh, i, size, a);
    }
    forall b, n ensures IsLive(Shrunk(sh, i, a), b, n) <==> if b == sh.ring[i] then n == size else IsLive(sh, b, n) {
      ShrunkLive(lo, hi, sh, i, a, size, b, n);
    }
  }

  /** A request that some free block could hold is refused exactly when it asks for every free byte there is. */
  lemma ExactFitRefused(lo: nat, hi: nat, sh: Shape, i: nat, size: nat)
    requires Good(lo, hi, sh) && i + 1 < |sh.ring| && !sh.used[sh.ring[i]] && size <= Size(sh, i)
    ensures size >= Sum(sh, FREE_DATA) <==> size == Sum(sh, FREE_DATA)
    ensures size >= Sum(sh, FREE_DATA) ==> size == Size(sh, i)
  {
    SumCovers(sh.ring, sh.used, FREE_DATA, 0, i);
  }

  /** A fresh heap with one free block of 32 bytes refuses a request for 32 bytes. */
  method RefusesLastBlock() returns (h: Heap, p: Option<nat>)
    ensures fresh(h) && h.Valid() && h.available == 32 && !h.NoneFits(32) && p.None?
  {
    var memory := new Memory();
    h := new Heap(64, 96, memory);
    assert h.ring[0] == 64 && h.ring[1] == 128 && Size(h.Sh(), 0) == 32;
    ghost var got;
    p, got := h.Alloc(32);
  }

  /** A fresh heap cuts 12 bytes off for a request of zero bytes, and a header is off the grid of 32 bytes. */
  method ZeroBytesLeaveGrid() returns (h: Heap, p: Option<nat>, ghost got: nat)
    ensures fresh(h) && h.Valid() && p.Some? && p.value >= HDR && IsLive(h.Sh(), p.value - HDR, got) && got == 12
    ensures !Gridded(h.lo, h.ring)
  {
    var memory := new Memory();
    h := new Heap(64, 224, memory);
    assert h.ring[0] == 64 && h.ring[1] == 256 && Size(h.Sh(), 0) == 160;
    p, got := h.Alloc(0);
  }
}
