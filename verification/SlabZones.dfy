/**
 Chunks and zones of the slab allocator (rt-thread/src/slab.c): the size classes,
 and one zone cut into equal chunks.
 */
module SlabZones {
  import opened Base

  const PAGE: nat := 4096              // RT_MM_PAGE_SIZE
  const CLASSES: nat := 72             // RT_SLAB_NZONES
  const ZONE_HEADER: nat := 36         // sizeof(struct rt_slab_zone)

  // ------------------------------------------------------------ size classes

  /** `zoneindex`: the rounded size and the class of a request below 16 KiB; masking is division here. */
  function ZoneIndex(n: nat): (nat, int) {
    if n < 128 then var s := (n + 7) / 8 * 8; (s, s / 8 - 1)
    else if n < 256 then var s := (n + 15) / 16 * 16; (s, s / 16 + 7)
    else if n < 512 then var s := (n + 31) / 32 * 32; (s, s / 32 + 15)
    else if n < 1024 then var s := (n + 63) / 64 * 64; (s, s / 64 + 23)
    else if n < 2048 then var s := (n + 127) / 128 * 128; (s, s / 128 + 31)
    else if n < 4096 then var s := (n + 255) / 256 * 256; (s, s / 256 + 39)
    else if n < 8192 then var s := (n + 511) / 512 * 512; (s, s / 512 + 47)
    else if n < 16384 then var s := (n + 1023) / 1024 * 1024; (s, s / 1024 + 55)
    else (n, 0)
  }

  /** The chunk size of a class. */
  function ClassSize(i: nat): (s: nat) {
    if i < 16 then (i + 1) * 8
    else if i < 24 then (i - 7) * 16
    else if i < 32 then (i - 15) * 32
    else if i < 40 then (i - 23) * 64
    else if i < 48 then (i - 31) * 128
    else if i < 56 then (i - 39) * 256
    else if i < 64 then (i - 47) * 512
    else (i - 55) * 1024
  }

  lemma ZoneIndexLow(n: nat)
    requires 0 < n < 128
    ensures 0 <= ZoneIndex(n).1 < CLASSES
    ensures ZoneIndex(n).0 == ClassSize(ZoneIndex(n).1)
    ensures n <= ZoneIndex(n).0
    ensures ZoneIndex(n).1 > 0 ==> ClassSize(ZoneIndex(n).1 - 1) < n
  {
  }

  lemma ZoneIndexSmall(n: nat)
    requires 128 <= n < 512
    ensures 0 <= ZoneIndex(n).1 < CLASSES
    ensures ZoneIndex(n).0 == ClassSize(ZoneIndex(n).1)
    ensures n <= ZoneIndex(n).0
    ensures ZoneIndex(n).1 > 0 ==> ClassSize(ZoneIndex(n).1 - 1) < n
  {
  }

  lemma ZoneIndexMiddle(n: nat)
    requires 512 <= n < 2048
    ensures 0 <= ZoneIndex(n).1 < CLASSES
    ensures ZoneIndex(n).0 == ClassSize(ZoneIndex(n).1)
    ensures n <= ZoneIndex(n).0
    ensures ZoneIndex(n).1 > 0 ==> ClassSize(ZoneIndex(n).1 - 1) < n
  {
  }

  lemma ZoneIndexHigh(n: nat)
    requires 2048 <= n < 8192
    ensures 0 <= ZoneIndex(n).1 < CLASSES
    ensures ZoneIndex(n).0 == ClassSize(ZoneIndex(n).1)
    ensures n <= ZoneIndex(n).0
    ensures ZoneIndex(n).1 > 0 ==> ClassSize(ZoneIndex(n).1 - 1) < n
  {
  }

  lemma ZoneIndexTop(n: nat)
    requires 8192 <= n < 16384
    ensures 0 <= ZoneIndex(n).1 < CLASSES
    ensures ZoneIndex(n).0 == ClassSize(ZoneIndex(n).1)
    ensures n <= ZoneIndex(n).0
    ensures ZoneIndex(n).1 > 0 ==> ClassSize(ZoneIndex(n).1 - 1) < n
  {
  }

  /** A request gets the size of its class, which is the smallest class that holds it. */
  lemma ZoneIndexIs(n: nat)
    requires 0 < n < 16384
    ensures 0 <= ZoneIndex(n).1 < CLASSES
    ensures ZoneIndex(n).0 == ClassSize(ZoneIndex(n).1)
    ensures n <= ZoneIndex(n).0
    ensures ZoneIndex(n).1 > 0 ==> ClassSize(ZoneIndex(n).1 - 1) < n
  {
    if n < 128 {
      ZoneIndexLow(n);
    } else if n < 512 {
      ZoneIndexSmall(n);
    } else if n < 2048 {
      ZoneIndexMiddle(n);
    } else if n < 8192 {
      ZoneIndexHigh(n);
    } else {
      ZoneIndexTop(n);
    }
  }

  /** The grain of a size: requests are rounded up to a multiple of it. */
  function Grain(n: nat): nat {
    if n < 128 then 8 else if n < 256 then 16 else if n < 512 then 32 else if n < 1024 then 64
    else if n < 2048 then 128 else if n < 4096 then 256 else if n < 8192 then 512 else 1024
  }

  /** The size handed out is the request rounded up to the grain, which is at most an eighth of it from 128 bytes on. */
  lemma ZoneIndexRounds(n: nat)
    requires 0 < n < 16384
    ensures RoundedUp(n, ZoneIndex(n).0, Grain(n))
    ensures n >= 128 ==> Grain(n) * 8 <= n < Grain(n) * 16
  {
    if n >= 128 {
      GrainIs(n);
    }
    RoundUp(n, Grain(n));
  }

  /** `s` is the least multiple of `grain` that is at least `n`. */
  predicate RoundedUp(n: nat, s: nat, grain: nat) {
    grain > 0 && s / grain * grain == s && n <= s < n + grain
  }

  lemma RoundUp(n: nat, grain: nat)
    requires grain > 0
    ensures RoundedUp(n, (n + grain - 1) / grain * grain, grain)
  {
    var q := (n + grain - 1) / grain;
    DivIs(q * grain, grain, q);
  }

  lemma GrainIs(n: nat)
    requires 128 <= n < 16384
    ensures Grain(n) * 8 <= n < Grain(n) * 16
  {
  }

  lemma {:induction false} ClassesAscend(i: nat, j: nat)
    requires i < j < CLASSES
    ensures ClassSize(i) < ClassSize(j)
    decreases j
  {
    if i + 1 < j {
      ClassesAscend(i, j - 1);
    }
  }

  /** Two requests share a class exactly if they get chunks of the same size. */
  lemma OneSizePerClass(n: nat, m: nat)
    requires 0 < n < 16384 && 0 < m < 16384
    ensures ZoneIndex(n).1 == ZoneIndex(m).1 <==> ZoneIndex(n).0 == ZoneIndex(m).0
  {
    ZoneIndexIs(n);
    ZoneIndexIs(m);
    if ZoneIndex(n).1 < ZoneIndex(m).1 {
      ClassesAscend(ZoneIndex(n).1, ZoneIndex(m).1);
    } else if ZoneIndex(m).1 < ZoneIndex(n).1 {
      ClassesAscend(ZoneIndex(m).1, ZoneIndex(n).1);
    }
  }

  // -------------------------------------------------------------------- zones

  /**
   A zone in service: `z_zoneindex`, `z_chunksize`, `z_nmax`, `z_nfree`, `z_uindex`, `z_baseptr`
   and the chunks on `z_freechunk`.
   */
  datatype Zone = Zone(kind: nat, size: nat, nmax: nat, nfree: int, uindex: nat, base: nat, free: seq<nat>)

  function ChunkAt(z: Zone, k: nat): nat {
    z.base + k * z.size
  }

  /** `p` is the address of chunk `k`, which has been handed out at least once. */
  ghost predicate UsedBefore(z: Zone, p: nat, k: nat) {
    k <= z.uindex && p == ChunkAt(z, k)
  }

  ghost predicate OnceUsed(z: Zone, p: nat) {
    exists k: nat :: UsedBefore(z, p, k)
  }

  ghost predicate FreeChunkOk(z: Zone, i: nat)
    requires i < |z.free|
  {
    OnceUsed(z, z.free[i])
  }

  /** `(size | (size - 1)) + 1 == size << 1` for the sizes there are: a power of two. */
  predicate PowerOfTwo(size: nat) {
    size in {8, 16, 32, 64, 128, 256, 512, 1024, 2048, 4096, 8192, 16384}
  }

  /** Where the chunks begin in a zone: aligned to their size if that is a power of two, else to 8 bytes. */
  function Offset(size: nat): nat
    requires size > 0
  {
    if PowerOfTwo(size) then (ZONE_HEADER + size - 1) / size * size else (ZONE_HEADER + 7) / 8 * 8
  }

  /** A zone of `len` bytes at address `at`, its chunks where `rt_slab_alloc` put them. */
  ghost predicate ZoneOk(z: Zone, at: nat, len: nat) {
    ChunksOk(z, at, len) && z.base == at + Offset(z.size)
  }

  /** Counters and free list agree, and the chunks lie in the zone behind its header. */
  ghost predicate ChunksOk(z: Zone, at: nat, len: nat) {
    && z.kind < CLASSES && z.size == ClassSize(z.kind) && z.size > 0
    && 2 <= z.nmax && z.uindex < z.nmax
    && z.nfree == (z.nmax - 1 - z.uindex) + |z.free|
    && NoDup(z.free) && (forall i :: 0 <= i < |z.free| ==> FreeChunkOk(z, i))
    && at + ZONE_HEADER <= z.base && z.base + z.nmax * z.size <= at + len
  }

  /** The chunk at `p` is handed out. */
  ghost predicate Live(z: Zone, p: nat) {
    OnceUsed(z, p) && p !in z.free
  }

  lemma ChunksApart(z: Zone, i: nat, j: nat)
    requires i < j
    ensures ChunkAt(z, i) + z.size <= ChunkAt(z, j)
  {
    MulMono(i + 1, j, z.size);
    assert (i + 1) * z.size == i * z.size + z.size;
  }

  /** Handed-out chunks lie in their zone and do not overlap. */
  lemma LiveInZone(z: Zone, at: nat, len: nat, p: nat)
    requires ChunksOk(z, at, len) && OnceUsed(z, p)
    ensures at + ZONE_HEADER <= p && p + z.size <= at + len
  {
    var k: nat :| UsedBefore(z, p, k);
    ChunkInside(z, k);
  }

  lemma ChunkInside(z: Zone, k: nat)
    requires k < z.nmax
    ensures z.base <= ChunkAt(z, k) && ChunkAt(z, k) + z.size <= z.base + z.nmax * z.size
  {
    ChunksApart(z, k, z.nmax);
  }

  lemma LiveApart(z: Zone, p: nat, q: nat)
    requires z.size > 0 && OnceUsed(z, p) && OnceUsed(z, q) && p != q
    ensures p + z.size <= q || q + z.size <= p
  {
    var k: nat :| UsedBefore(z, p, k);
    var l: nat :| UsedBefore(z, q, l);
    if k < l {
      ChunksApart(z, k, l);
    } else {
      ChunksApart(z, l, k);
    }
  }

  /** The chunk `rt_slab_alloc` takes from a zone: a new one as long as there is one, else the first freed. */
  function ChunkTaken(z: Zone): (Zone, nat)
    requires z.free != [] || z.uindex + 1 != z.nmax
  {
    if z.uindex + 1 != z.nmax
    then (z.(nfree := z.nfree - 1, uindex := z.uindex + 1), z.base + (z.uindex + 1) * z.size)
    else (z.(nfree := z.nfree - 1, free := z.free[1..]), z.free[0])
  }

  /** The next chunk is the lowest one never handed out, or if there is none the one freed last. */
  ghost predicate ComesNext(z: Zone, p: nat) {
    || (z.uindex + 1 < z.nmax && p == z.base + (z.uindex + 1) * z.size)
    || (z.uindex + 1 == z.nmax && z.free != [] && p == z.free[0])
  }

  /** A chunk taken was not handed out, and nothing else changes hands. */
  lemma ChunkTakenFacts(z: Zone, at: nat, len: nat)
    requires ZoneOk(z, at, len) && z.nfree > 0
    ensures z.free != [] || z.uindex + 1 != z.nmax
    ensures ZoneOk(ChunkTaken(z).0, at, len) && !Live(z, ChunkTaken(z).1)
    ensures forall p: nat :: Live(ChunkTaken(z).0, p) <==> Live(z, p) || p == ChunkTaken(z).1
    ensures ComesNext(z, ChunkTaken(z).1)
  {
    if z.uindex + 1 != z.nmax {
      TakeNew(z, at, len);
    } else {
      TakeFreed(z, at, len);
    }
  }

  lemma TakeNew(z: Zone, at: nat, len: nat)
    requires ChunksOk(z, at, len) && z.uindex + 1 < z.nmax
    ensures var (z', c) := (z.(nfree := z.nfree - 1, uindex := z.uindex + 1), ChunkAt(z, z.uindex + 1));
            ChunksOk(z', at, len) && !Live(z, c) && forall p: nat :: Live(z', p) <==> Live(z, p) || p == c
  {
    var n := z.uindex + 1;
    var z', c := z.(nfree := z.nfree - 1, uindex := n), ChunkAt(z, n);
    assert UsedBefore(z', c, n);
    forall k: nat | UsedBefore(z, c, k) ensures false {
      ChunksApart(z, k, n);
    }
    forall p: nat ensures OnceUsed(z', p) <==> OnceUsed(z, p) || p == c {
      if OnceUsed(z, p) {
        var k: nat :| UsedBefore(z, p, k);
        assert UsedBefore(z', p, k);
      }
      if OnceUsed(z', p) {
        var k: nat :| UsedBefore(z', p, k);
        assert k < n ==> UsedBefore(z, p, k);
      }
    }
    forall i | 0 <= i < |z.free| ensures FreeChunkOk(z', i) && z.free[i] != c {
      assert FreeChunkOk(z, i);
    }
  }

  lemma TakeFreed(z: Zone, at: nat, len: nat)
    requires ChunksOk(z, at, len) && z.free != []
    ensures var (z', c) := (z.(nfree := z.nfree - 1, free := z.free[1..]), z.free[0]);
            ChunksOk(z', at, len) && !Live(z, c) && forall p: nat :: Live(z', p) <==> Live(z, p) || p == c
  {
    var z', c := z.(nfree := z.nfree - 1, free := z.free[1..]), z.free[0];
    TailNoDup(z.free);
    assert FreeChunkOk(z, 0);
    forall i | 0 <= i < |z'.free| ensures FreeChunkOk(z', i) {
      assert FreeChunkOk(z, i + 1);
      SameOnce(z, z', z.free[i + 1]);
    }
    forall p: nat ensures OnceUsed(z', p) <==> OnceUsed(z, p) {
      SameOnce(z, z', p);
    }
  }

  /** What was handed out once does not depend on the free list. */
  lemma SameOnce(z: Zone, z': Zone, p: nat)
    requires z'.base == z.base && z'.size == z.size && z'.uindex == z.uindex
    ensures OnceUsed(z', p) <==> OnceUsed(z, p)
  {
    if OnceUsed(z, p) {
      var k: nat :| UsedBefore(z, p, k);
      assert UsedBefore(z', p, k);
    }
    if OnceUsed(z', p) {
      var k: nat :| UsedBefore(z', p, k);
      assert UsedBefore(z, p, k);
    }
  }

  /** The zone after the chunk `p` was given back. */
  function ChunkGiven(z: Zone, p: nat): Zone {
    z.(nfree := z.nfree + 1, free := [p] + z.free)
  }

  /** Giving back a chunk ends its life only. */
  lemma ChunkGivenFacts(z: Zone, at: nat, len: nat, p: nat)
    requires ZoneOk(z, at, len) && Live(z, p)
    ensures ZoneOk(ChunkGiven(z, p), at, len)
    ensures forall q: nat :: Live(ChunkGiven(z, p), q) <==> Live(z, q) && q != p
  {
    GiveBack(z, at, len, p);
  }

  lemma GiveBack(z: Zone, at: nat, len: nat, p: nat)
    requires ChunksOk(z, at, len) && Live(z, p)
    ensures ChunksOk(ChunkGiven(z, p), at, len)
    ensures forall q: nat :: Live(ChunkGiven(z, p), q) <==> Live(z, q) && q != p
  {
    var z' := ChunkGiven(z, p);
    ConsNoDup(p, z.free);
    forall i | 0 <= i < |z'.free| ensures FreeChunkOk(z', i) {
      SameOnce(z, z', z'.free[i]);
      assert i > 0 ==> FreeChunkOk(z, i - 1);
    }
    forall q: nat ensures OnceUsed(z', q) <==> OnceUsed(z, q) {
      SameOnce(z, z', q);
    }
  }

  /** In a zone whose chunks are all counted free, none is handed out. */
  lemma NoneLive(z: Zone, at: nat, len: nat, p: nat)
    requires ChunksOk(z, at, len) && z.nfree == z.nmax
    ensures !Live(z, p)
  {
    if OnceUsed(z, p) {
      var k: nat :| UsedBefore(z, p, k);
      var numbers: seq<nat> := seq(|z.free|, i requires 0 <= i < |z.free| => NumberOf(z, z.free[i]));
      forall i | 0 <= i < |z.free| ensures UsedBefore(z, z.free[i], numbers[i]) {
        assert FreeChunkOk(z, i);
      }
      forall i, j | 0 <= i < j < |numbers| ensures Differ(numbers, i, j) {
        assert Differ(z.free, i, j);
        assert UsedBefore(z, z.free[i], numbers[i]) && UsedBefore(z, z.free[j], numbers[j]);
      }
      forall y: nat | y in numbers ensures y < z.uindex + 1 {
        var i :| 0 <= i < |numbers| && numbers[i] == y;
        assert UsedBefore(z, z.free[i], numbers[i]);
      }
      Covering(numbers, z.uindex + 1, k);
      var i :| 0 <= i < |numbers| && numbers[i] == k;
      assert UsedBefore(z, z.free[i], numbers[i]);
    }
  }

  /** The number of the chunk at `p`. */
  ghost function NumberOf(z: Zone, p: nat): (k: nat)
    ensures OnceUsed(z, p) ==> UsedBefore(z, p, k)
  {
    if OnceUsed(z, p) then var k: nat :| UsedBefore(z, p, k); k else 0
  }

  // ------------------------------------------------------------------ new zones

  /** A new zone of `len` bytes at `at`, its first chunk handed out. */
  function NewZone(kind: nat, size: nat, at: nat, len: nat): Zone
    requires size > 0
  {
    var nmax := (len - Offset(size)) / size;
    Zone(kind, size, if nmax > 0 then nmax else 0, nmax - 1, 0, at + Offset(size), [])
  }

  lemma OffsetIs(size: nat)
    requires size > 0
    ensures ZONE_HEADER <= Offset(size) <= size + 63
    ensures size >= 64 && PowerOfTwo(size) ==> Offset(size) == size
    ensures !PowerOfTwo(size) ==> Offset(size) == 40
    ensures (size == 8 ==> Offset(size) == 40) && (size == 16 ==> Offset(size) == 48) && (size == 32 ==> Offset(size) == 64)
  {
    if PowerOfTwo(size) {
      if size == 8 {
      } else if size == 16 {
      } else if size == 32 {
      } else {
        DivIs(ZONE_HEADER + size - 1, size, 1);
      }
    }
  }

  /** The number of chunks of a new zone is at least three. */
  lemma ThreeChunks(size: nat, len: nat)
    requires size > 0 && len >= 0x8000 && size <= len / 4
    ensures 3 <= (len - Offset(size)) / size
    ensures (len - Offset(size)) / size * size <= len - Offset(size)
  {
    OffsetIs(size);
    var room := len - Offset(size);
    var n := room / size;
    QuotientFits(room, size);
    if n < 3 {
      MulMono(n + 1, 3, size);
    }
  }

  lemma QuotientFits(a: nat, g: nat)
    requires g > 0
    ensures a / g * g <= a < (a / g + 1) * g
  {
  }

  /** A new zone has as many chunks as fit behind its header. */
  lemma NewZoneFills(kind: nat, size: nat, at: nat, len: nat)
    requires size > 0 && len >= 0x8000 && size <= len / 4
    ensures var o := NewZone(kind, size, at, len);
            o.nfree == o.nmax - 1 && o.free == [] && o.base + o.nmax * size <= at + len < o.base + o.nmax * size + size
  {
    OffsetIs(size);
    ThreeChunks(size, len);
    QuotientFits(len - Offset(size), size);
    var n := (len - Offset(size)) / size;
    assert (n + 1) * size == n * size + size;
  }

  /** A new zone has one chunk handed out and at least one to spare. */
  lemma NewZoneFacts(kind: nat, size: nat, at: nat, len: nat)
    requires kind < CLASSES && size == ClassSize(kind) && size > 0 && len >= 0x8000 && size <= len / 4
    ensures ZoneOk(NewZone(kind, size, at, len), at, len) && NewZone(kind, size, at, len).nfree > 0
    ensures forall p: nat :: Live(NewZone(kind, size, at, len), p) <==> p == NewZone(kind, size, at, len).base
  {
    OffsetIs(size);
    ThreeChunks(size, len);
    FirstChunk(NewZone(kind, size, at, len));
  }

  lemma FirstChunk(z: Zone)
    requires z.uindex == 0 && z.free == []
    ensures forall p: nat :: Live(z, p) <==> p == z.base
  {
    forall p: nat ensures Live(z, p) <==> p == z.base {
      assert UsedBefore(z, z.base, 0);
      if OnceUsed(z, p) {
        var k: nat :| UsedBefore(z, p, k);
      }
    }
  }

  // ------------------------------------------------------------------ alignment

  predicate IsPowerOfTwo(n: nat) {
    n == 1 || (n > 0 && n % 2 == 0 && IsPowerOfTwo(n / 2))
  }

  /** The powers of two up to the largest chunk are the sizes listed, and three smaller ones. */
  lemma {:induction false} SmallPowers(n: nat)
    requires n <= 16384
    ensures IsPowerOfTwo(n) <==> n in {1, 2, 4} || PowerOfTwo(n)
  {
    if n > 1 && n % 2 == 0 {
      SmallPowers(n / 2);
    }
  }

  /** The chunks of a zone of power-of-two chunks are aligned to their size exactly if the zone itself is. */
  lemma ChunkAligned(z: Zone, at: nat, len: nat, p: nat)
    requires ZoneOk(z, at, len) && OnceUsed(z, p) && PowerOfTwo(z.size)
    ensures p % z.size == 0 <==> at % z.size == 0
  {
    var k: nat :| UsedBefore(z, p, k);
    var m := OffsetSteps(z.size);
    StepsAligned(at, m, k, z.size);
  }

  lemma OffsetSteps(g: nat) returns (m: nat)
    requires PowerOfTwo(g)
    ensures Offset(g) == m * g
  {
    m := (ZONE_HEADER + g - 1) / g;
  }

  lemma StepsAligned(at: nat, m: nat, k: nat, g: nat)
    requires g > 0
    ensures (at + m * g + k * g) % g == at % g
  {
    assert (m + k) * g == m * g + k * g;
    ModShift(at, m + k, g);
  }

  /** A power of two is its own chunk size, from 8 bytes on. */
  lemma PowerClass(size: nat, g: nat)
    requires 0 < size < 16384 && g == ZoneIndex(size).0
    ensures IsPowerOfTwo(size) ==> PowerChunk(size, g)
  {
    SmallPowers(size);
  }

  /** A request for `size` bytes, a power of two, is served by chunks of `g` bytes. */
  predicate PowerChunk(size: nat, g: nat) {
    PowerOfTwo(g) && (size == g || (g == 8 && size in {1, 2, 4}))
  }

  /** Zones begin at page boundaries, which aligns chunks of up to a page. */
  lemma UpToAPage(p: nat, at: nat, g: nat, size: nat)
    requires PowerChunk(size, g) && at % PAGE == 0 && (p % g == 0 <==> at % g == 0)
    ensures p % size == 0 <==> at % size == 0
    ensures size <= PAGE ==> p % size == 0
  {
    if size != g {
      PageMultiple(at, 8);
      OfEight(p, size);
      OfEight(at, size);
    } else if g <= PAGE {
      PageMultiple(at, g);
    }
  }

  /** A request for a power of two is aligned to it exactly if the zone is, and always up to a page. */
  lemma RequestAligned(z: Zone, page: nat, len: nat, p: nat, size: nat)
    requires size > 0 && ZoneOk(z, page * PAGE, len) && OnceUsed(z, p) && PowerChunk(size, z.size)
    ensures p % size == 0 <==> page * PAGE % size == 0
    ensures size <= PAGE ==> p % size == 0
  {
    ChunkAligned(z, page * PAGE, len, p);
    UpToAPage(p, page * PAGE, z.size, size);
  }

  lemma OfEight(p: nat, size: nat)
    requires p % 8 == 0 && size in {1, 2, 4}
    ensures p % size == 0
  {
    if size == 1 {
    } else if size == 2 {
      assert p % 2 == 0;
    } else {
      assert p % 4 == 0;
    }
  }

  lemma ModShift(a: nat, k: nat, g: nat)
    requires g > 0
    ensures (a + k * g) % g == a % g
  {
    var q := a / g;
    QuotientFits(a, g);
    assert (q + k) * g == q * g + k * g;
    DivIs(a + k * g, g, q + k);
    RestIs(a + k * g, g);
    RestIs(a, g);
  }

  lemma RestIs(a: nat, g: nat)
    requires g > 0
    ensures a % g == a - a / g * g
  {
  }

  lemma PageMultiple(at: nat, size: nat)
    requires PowerOfTwo(size) && size <= PAGE && at % PAGE == 0
    ensures at % size == 0
  {
    var j := at / 4096;
    var r := 4096 / size;
    assert r * size == 4096;
    assert at == j * r * size;
    ModShift(0, j * r, size);
  }
}
