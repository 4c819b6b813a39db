/** The operations of the slab allocator (rt-thread/src/slab.c). */
module Slab {
  import opened Base
  import opened SlabPages
  import opened SlabZones
  import opened SlabStore
  import opened RawMemory

  const MIN_ZONE: nat := 0x8000
  const MAX_ZONE: nat := 0x2_0000
  const ZONE_LIMIT: nat := 0x4000
  const RELEASE_THRESHOLD: nat := 2    // ZONE_RELEASE_THRESH
  const SIZE_MAX: nat := 0xffff_ffff

  /** Pages for `size` bytes. */
  function PagesFor(size: nat): (n: nat)
    ensures size <= n * PAGE < size + PAGE
  {
    (size + 4095) / 4096
  }

  function Limit(zoneSize: nat): nat {
    if zoneSize / 4 > ZONE_LIMIT then ZONE_LIMIT else zoneSize / 4
  }

  lemma PageOf(p: nat, a: nat, k: nat, n: nat)
    requires a * PAGE <= p && p + n <= (a + k) * PAGE && n > 0
    ensures a <= p / PAGE < a + k
  {
  }

  lemma ZoneUsageStep(usage: map<nat, Usage>, z: nat, n: nat)
    ensures ZoneUsage(usage, z, n + 1) == ZoneUsage(usage, z, n)[z + n := Small(n)]
  {
  }

  lemma NoUsageStep(usage: map<nat, Usage>, z: nat, n: nat)
    ensures NoUsage(usage, z, n + 1) == NoUsage(usage, z, n)[z + n := Unused]
  {
  }

  lemma FreeHasNoOwner(s: Store, runs: seq<Run>, a: nat, n: nat)
    requires Separate(s, runs) && AllFree(runs, a, n)
    ensures NoOwner(s, a, n)
  {
    forall x | a <= x < a + n ensures x !in s.owner {
      assert FreePage(runs, x);
    }
  }

  /** Pages taken from the page allocator and given an owner. */
  lemma TakenSeparate(s: Store, s': Store, runs: seq<Run>, runs': seq<Run>, a: nat, n: nat)
    requires Separate(s, runs) && s'.owner == Owned(s.owner, a, n)
    requires forall x :: FreePage(runs', x) <==> FreePage(runs, x) && !In(Run(a, n), x)
    ensures Separate(s', runs')
  {
  }

  /** Pages that lost their owner and went back to the page allocator. */
  lemma GivenSeparate(s: Store, s': Store, runs: seq<Run>, runs': seq<Run>, a: nat, n: nat)
    requires Separate(s, runs) && s'.owner == Disowned(s.owner, a, n)
    requires forall x :: FreePage(runs', x) <==> FreePage(runs, x) || In(Run(a, n), x)
    ensures Separate(s', runs')
  {
  }

  lemma OwnedIsUsed(s: Store, runs: seq<Run>, a: nat, n: nat)
    requires Separate(s, runs) && forall x :: a <= x < a + n ==> OwnedBy(s, a, x)
    ensures Used(runs, Run(a, n))
  {
    forall x | In(Run(a, n), x) ensures !FreePage(runs, x) {
      assert OwnedBy(s, a, x);
    }
  }

  /** The zone size for a pool of `limsize` bytes. */
  method ZoneSizeFor(limsize: nat) returns (size: nat)
    ensures size in {0x8000, 0x1_0000, 0x2_0000}
    ensures size > MIN_ZONE ==> size < limsize / 1024
    ensures size < MAX_ZONE ==> 2 * size >= limsize / 1024
  {
    size := MIN_ZONE;
    while size < MAX_ZONE && size * 2 < limsize / 1024
      invariant size in {0x8000, 0x1_0000, 0x2_0000} && (size > MIN_ZONE ==> size < limsize / 1024)
      decreases MAX_ZONE - size
    {
      size := size * 2;
    }
  }

  class SlabHeap {
    const zoneSize: nat
    const zonePages: nat
    const zoneLimit: nat
    const pages: PageList
    const memory: Memory
    var zones: map<nat, Zone>
    var lists: seq<seq<nat>>          // zone_array
    var idle: seq<nat>                // zone_free
    var idleCount: nat                // zone_free_cnt
    var usage: map<nat, Usage>        // memusage
    var used: int
    var maxUsed: int
    ghost var large: map<nat, nat>
    ghost var owner: map<nat, nat>

    ghost function View(): Store
      reads this
    {
      Store(zones, lists, idle, large, usage, owner)
    }

    ghost predicate Sizes()
      reads this
    {
      && zoneSize == zonePages * PAGE && MIN_ZONE <= zoneSize <= MAX_ZONE && zoneLimit == Limit(zoneSize)
      && idleCount == |idle|
    }

    ghost predicate Valid()
      reads this, pages
    {
      Sizes() && pages.Valid() && Inv(View(), zonePages, pages.runs)
    }

    /** `rt_slab_init` on `npages` pages from page `begin`: nothing is handed out; the usage table takes the first pages. */
    constructor (begin: nat, npages: nat, memory: Memory)
      requires npages > 0
      ensures this.memory == memory
      ensures Valid() && fresh(pages) && used == 0 && maxUsed == 0 && idle == []
      ensures forall k :: 0 <= k < |lists| ==> lists[k] == []
      ensures pages.runs == FirstRuns(begin, npages, PagesFor(npages * 4))
      ensures zoneSize in {0x8000, 0x1_0000, 0x2_0000}
      ensures zoneLimit <= 0x4000 && zoneLimit <= zoneSize / 4 && (zoneLimit == 0x4000 || zoneLimit == zoneSize / 4)
      ensures zoneSize > MIN_ZONE ==> zoneSize < npages * PAGE / 1024
      ensures zoneSize < MAX_ZONE ==> 2 * zoneSize >= npages * PAGE / 1024
      ensures forall p: nat, n: nat :: !LiveBlock(View(), p, n)
    {
      var size := ZoneSizeFor(npages * PAGE);
      zoneSize := size;
      zonePages := size / PAGE;
      zoneLimit := Limit(size);
      pages := new PageList(begin, npages);
      this.memory := memory;
      zones, lists, idle, idleCount := map[], seq(CLASSES, _ => []), [], 0;
      usage, used, maxUsed, large, owner := map[], 0, 0, map[], map[];
      new;
      var table;
      ghost var i;
      TableFits(begin, npages, PagesFor(npages * 4));
      table, i := pages.Alloc(PagesFor(npages * 4));
      forall k | 0 <= k < |lists| ensures ListOk(View(), k) {
      }
    }

    // ------------------------------------------------------------ bookkeeping

    /** Count bytes handed out. */
    method NoteUse(bytes: nat)
      modifies this`used, this`maxUsed
      ensures used == old(used) + bytes && maxUsed == Max(old(maxUsed), used)
    {
      used := used + bytes;
      if used > maxUsed {
        maxUsed := used;
      }
    }

    /** Enter the pages of a zone in the usage table. */
    method EnterZone(z: nat)
      modifies this`usage
      ensures usage == ZoneUsage(old(usage), z, zonePages)
    {
      var off: nat := 0;
      assert usage == ZoneUsage(usage, z, 0);
      while off < zonePages
        invariant off <= zonePages && usage == ZoneUsage(old(usage), z, off)
      {
        ZoneUsageStep(old(usage), z, off);
        usage := usage[z + off := Small(off)];
        off := off + 1;
      }
    }

    /** Clear the pages of a zone in the usage table. */
    method LeaveZone(z: nat)
      modifies this`usage
      ensures usage == NoUsage(old(usage), z, zonePages)
    {
      var i: nat := 0;
      assert usage == NoUsage(usage, z, 0);
      while i < zonePages
        invariant i <= zonePages && usage == NoUsage(old(usage), z, i)
      {
        NoUsageStep(old(usage), z, i);
        usage := usage[z + i := Unused];
        i := i + 1;
      }
    }

    // -------------------------------------------------------------- allocation

    /** A request of at least `zone_limit` bytes gets whole pages. */
    method AllocLarge(size: nat) returns (p: Option<nat>)
      requires Valid() && size > 0
      modifies this, pages
      ensures Valid()
      ensures p == AddressOf(LowestFit(old(pages.runs), PagesFor(size)))
      ensures maxUsed == if p.None? then old(maxUsed) else Max(old(maxUsed), used)
      ensures zones == old(zones) && lists == old(lists) && idle == old(idle)
      ensures p.Some? ==> TakenAway(old(pages.runs), pages.runs, p.value / PAGE, PagesFor(size))
      ensures p.None? <==> NoStretch(old(pages.runs), PagesFor(size))
      ensures p.None? ==> View() == old(View()) && used == old(used) && pages.runs == old(pages.runs)
      ensures p.Some? ==> NotLive(old(View()), p.value) && used == old(used) + PagesFor(size) * PAGE
      ensures p.Some? ==> forall q: nat, m: nat :: LiveBlock(View(), q, m) <==>
                LiveBlock(old(View()), q, m) || (q == p.value && m == PagesFor(size) * PAGE)
    {
      var n := PagesFor(size);
      ghost var was, runs := View(), pages.runs;
      var b;
      ghost var i;
      b, i := pages.Alloc(n);
      if b.None? {
        return None;
      }
      var a := b.value;
      FreeHasNoOwner(was, runs, a, n);
      EnlargedParts(was, zonePages, a, n);
      usage := usage[a := Large(n)];
      large := large[a := n];
      owner := Owned(owner, a, n);
      TakenSeparate(was, View(), runs, pages.runs, a, n);
      NoteUse(n * PAGE);
      p := Some(a * PAGE);
    }

    /** Take a chunk from the first zone of class `zi`. */
    method TakeChunk(zi: nat) returns (c: nat)
      requires Valid() && zi < |lists| && lists[zi] != []
      modifies this
      ensures Valid() && NotLive(old(View()), c) && used == old(used) + ClassSize(zi)
      ensures ZoneBlock(View(), old(lists)[zi][0], c, ClassSize(zi)) && maxUsed == Max(old(maxUsed), used)
      ensures FromService(old(View()), View(), zi)
      ensures old(lists)[zi][0] in old(zones) && ComesNext(old(zones)[old(lists)[zi][0]], c)
      ensures forall q: nat, m: nat :: LiveBlock(View(), q, m) <==>
                LiveBlock(old(View()), q, m) || (q == c && m == ClassSize(zi))
    {
      var z := lists[zi][0];
      TakeFromParts(View(), zonePages, z, zi);
      TakeFromLive(View(), zonePages, z, zi);
      assert ZoneAt(View(), zonePages, z);
      var o := zones[z];
      ghost var o0 := o;
      o := o.(nfree := o.nfree - 1);
      if o.nfree == 0 {
        lists := lists[zi := lists[zi][1..]];
      }
      if o.uindex + 1 != o.nmax {
        o := o.(uindex := o.uindex + 1);
        c := o.base + o.uindex * o.size;
      } else {
        c := o.free[0];
        o := o.(free := o.free[1..]);
      }
      assert (o, c) == ChunkTaken(o0);
      ChunkTakenFacts(o0, z * PAGE, zonePages * PAGE);
      zones := zones[z := o];
      NoteUse(o.size);
    }

    /** Get an idle zone in front of the list of idle zones, from the page allocator if there is none. */
    method FindZone() returns (ok: bool)
      requires Valid()
      modifies this, pages
      ensures Valid() && used == old(used) && maxUsed == old(maxUsed) && lists == old(lists) && zones == old(zones)
      ensures ok <==> old(idle) != [] || !NoStretch(old(pages.runs), zonePages)
      ensures ok ==> idle != [] && Some(idle[0]) == NewHome(old(View()), old(pages.runs))
      ensures ok ==> ZoneFound(old(View()), old(pages.runs), idle, pages.runs)
      ensures !ok ==> LowestFit(old(pages.runs), zonePages).None? && View() == old(View()) && pages.runs == old(pages.runs)
      ensures forall q: nat, m: nat :: LiveBlock(View(), q, m) <==> LiveBlock(old(View()), q, m)
    {
      if idle != [] {
        return true;
      }
      ghost var was, runs := View(), pages.runs;
      var b;
      ghost var i;
      b, i := pages.Alloc(zonePages);
      if b.None? {
        return false;
      }
      var z := b.value;
      FreeHasNoOwner(was, runs, z, zonePages);
      AdoptedParts(was, zonePages, z);
      EnterZone(z);
      idle := [z] + idle;
      idleCount := idleCount + 1;
      owner := Owned(owner, z, zonePages);
      TakenSeparate(was, View(), runs, pages.runs, z, zonePages);
      ok := true;
    }

    /** Put the first idle zone into service for class `zi` and hand out its first chunk. */
    method OpenZone(zi: nat) returns (c: nat)
      requires Valid() && idle != [] && zi < CLASSES && 0 < ClassSize(zi) <= zoneSize / 4
      modifies this
      ensures Valid() && NotLive(old(View()), c) && used == old(used) + ClassSize(zi)
      ensures ZoneBlock(View(), old(idle)[0], c, ClassSize(zi)) && maxUsed == Max(old(maxUsed), used)
      ensures c == old(idle)[0] * PAGE + Offset(ClassSize(zi)) && Opens(old(View()), View(), zi)
      ensures forall q: nat, m: nat :: LiveBlock(View(), q, m) <==>
                LiveBlock(old(View()), q, m) || (q == c && m == ClassSize(zi))
    {
      OpenedParts(View(), zonePages, zi);
      OpenedLive(View(), zonePages, zi);
      var z := idle[0];
      NewZoneFacts(zi, ClassSize(zi), z * PAGE, zonePages * PAGE);
      var o := NewZone(zi, ClassSize(zi), z * PAGE, zonePages * PAGE);
      idle := idle[1..];
      idleCount := idleCount - 1;
      c := o.base;
      lists := lists[zi := [z] + lists[zi]];
      zones := zones[z := o];
      NoteUse(o.size);
    }

    /** `rt_slab_alloc`; `n` is the size of the block handed out. */
    method Alloc(size: nat) returns (p: Option<nat>, ghost n: nat)
      requires Valid() && size <= SIZE_MAX - PAGE
      modifies this, pages
      ensures Valid() && (p.None? <==> Refuses(old(View()), old(pages.runs), size))
      ensures p.None? ==> View() == old(View()) && used == old(used) && pages.runs == old(pages.runs) && maxUsed == old(maxUsed)
      ensures p.Some? ==> maxUsed == Max(old(maxUsed), used)
      ensures p.Some? ==> n >= size && NotLive(old(View()), p.value) && used == old(used) + n
      ensures p.Some? ==> n == if size < zoneLimit then ZoneIndex(size).0 else PagesFor(size) * PAGE
      ensures p.Some? ==> forall q: nat, m: nat :: LiveBlock(View(), q, m) <==>
                LiveBlock(old(View()), q, m) || (q == p.value && m == n)
      ensures p.Some? && size < zoneLimit ==> Served(old(View()), old(pages.runs), View(), pages.runs, ZoneIndex(size).1)
      ensures p.Some? && size >= zoneLimit ==> TakenAway(old(pages.runs), pages.runs, p.value / PAGE, PagesFor(size))
      ensures p.Some? && size >= zoneLimit ==> zones == old(zones) && lists == old(lists) && idle == old(idle)
      ensures p.Some? && IsPowerOfTwo(size) && size <= PAGE ==> p.value % size == 0
      ensures p.Some? <==> size > 0 && HomePage(old(View()), old(pages.runs), size).Some?
      ensures p.Some? && size >= zoneLimit ==> p == AddressOf(HomePage(old(View()), old(pages.runs), size))
      ensures p.Some? && size < zoneLimit ==> ChunkAtHome(old(View()), HomePage(old(View()), old(pages.runs), size).value, n, p.value)
      ensures p.Some? && IsPowerOfTwo(size) ==>
                (p.value % size == 0 <==> HomePage(old(View()), old(pages.runs), size).value * PAGE % size == 0)
    {
      p, n := None, 0;
      if size == 0 {
        return;
      }
      if size >= zoneLimit {
        p := AllocLarge(size);
        n := PagesFor(size) * PAGE;
        return;
      }
      p, n := AllocSmall(size);
    }

    /** A smaller request gets a chunk: of a zone in service if one of its class has a free chunk, else of a new one. */
    method AllocSmall(size: nat) returns (p: Option<nat>, ghost n: nat)
      requires Valid() && 0 < size < zoneLimit
      modifies this, pages
      ensures Valid() && n == ZoneIndex(size).0 >= size
      ensures p.None? <==> NoRoom(old(View()), old(pages.runs), ZoneIndex(size).1)
      ensures p.Some? <==> HomePage(old(View()), old(pages.runs), size).Some?
      ensures p.None? ==> View() == old(View()) && used == old(used) && pages.runs == old(pages.runs) && maxUsed == old(maxUsed)
      ensures p.Some? ==> NotLive(old(View()), p.value) && used == old(used) + n && maxUsed == Max(old(maxUsed), used)
      ensures p.Some? ==> forall q: nat, m: nat :: LiveBlock(View(), q, m) <==>
                LiveBlock(old(View()), q, m) || (q == p.value && m == n)
      ensures p.Some? ==> ChunkAtHome(old(View()), HomePage(old(View()), old(pages.runs), size).value, n, p.value)
      ensures p.Some? ==> PowerAligned(p.value, HomePage(old(View()), old(pages.runs), size).value, size)
      ensures p.Some? ==> Served(old(View()), old(pages.runs), View(), pages.runs, ZoneIndex(size).1)
    {
      ZoneIndexIs(size);
      ClassFits(size, zoneSize);
      var zi := ZoneIndex(size).1;
      n := ClassSize(zi);
      PowerClass(size, n);
      ghost var z := HomePage(View(), pages.runs, size);
      if lists[zi] != [] {
        var c := TakeChunk(zi);
        p := Some(c);
      } else {
        p := NewChunk(zi);
      }
      if p.Some? {
        BlockAligned(View(), zonePages, z.value, p.value, n, size);
      }
    }

    /** Hand out the first chunk of a new zone for class `zi`. */
    method NewChunk(zi: nat) returns (p: Option<nat>)
      requires Valid() && zi < CLASSES && lists[zi] == [] && 0 < ClassSize(zi) <= zoneSize / 4
      modifies this, pages
      ensures Valid() && (p.None? <==> NoRoom(old(View()), old(pages.runs), zi))
      ensures p.Some? <==> NewHome(old(View()), old(pages.runs)).Some?
      ensures p.None? ==> View() == old(View()) && used == old(used) && pages.runs == old(pages.runs) && maxUsed == old(maxUsed)
      ensures p.Some? ==> NotLive(old(View()), p.value) && used == old(used) + ClassSize(zi) && maxUsed == Max(old(maxUsed), used)
      ensures p.Some? ==> forall q: nat, m: nat :: LiveBlock(View(), q, m) <==>
                LiveBlock(old(View()), q, m) || (q == p.value && m == ClassSize(zi))
      ensures p.Some? ==> FirstOf(old(zones), NewHome(old(View()), old(pages.runs)).value, p.value, ClassSize(zi))
      ensures p.Some? ==> FromNew(old(View()), old(pages.runs), View(), pages.runs, zi)
      ensures p.Some? ==> ZoneBlock(View(), NewHome(old(View()), old(pages.runs)).value, p.value, ClassSize(zi))
    {
      p := None;
      var ok := FindZone();
      if ok {
        ghost var found := View();
        assert IdleAt(found, zonePages, idle[0]);
        var c := OpenZone(zi);
        OpensSame(old(View()), found, View(), zi);
        p := Some(c);
      }
    }

    /** No zone of the request's class has a free chunk and no new zone can be had, or no stretch of pages is long enough. */
    ghost predicate Refuses(s: Store, runs: seq<Run>, size: nat) {
      if size == 0 then true
      else if size >= zoneLimit then NoStretch(runs, PagesFor(size))
      else NoRoom(s, runs, ZoneIndex(size).1)
    }

    ghost predicate NoRoom(s: Store, runs: seq<Run>, zi: int) {
      0 <= zi < |s.lists| && s.lists[zi] == [] && s.idle == [] && NoStretch(runs, zonePages)
    }

    /** A chunk of `n` bytes comes from zone `z`: the next one of a zone in service, or the first one of a new zone. */
    ghost predicate ChunkAtHome(s: Store, z: nat, n: nat, p: nat) {
      if z in s.zones then ComesNext(s.zones[z], p) else FirstOf(s.zones, z, p, n)
    }

    /** The first chunk, of `n` bytes, of a new zone `z`. */
    ghost predicate FirstOf(zones: map<nat, Zone>, z: nat, p: nat, n: nat) {
      z !in zones && n > 0 && p == z * PAGE + Offset(n)
    }

    /** A block at `p` in the zone from page `z` on, for a power of two: aligned if the zone is, and always up to a page. */
    ghost predicate PowerAligned(p: nat, z: nat, size: nat) {
      IsPowerOfTwo(size) ==> (size <= PAGE ==> p % size == 0) && (p % size == 0 <==> z * PAGE % size == 0)
    }

    /** A chunk less in the first zone of class `zi`, which leaves the list with its last free one; nothing else changes. */
    ghost predicate FromService(s: Store, s': Store, zi: nat) {
      && zi < |s.lists| && s.lists[zi] != []
      && var z := s.lists[zi][0];
         && z in s.zones && z in s'.zones && s'.zones == s.zones[z := s'.zones[z]] && ChunkLess(s.zones[z], s'.zones[z])
         && s'.lists == (if s.zones[z].nfree == 1 then s.lists[zi := s.lists[zi][1..]] else s.lists) && s'.idle == s.idle
    }

    /** An idle zone comes first; without one a zone is made of the pages of the lowest fitting run. */
    ghost predicate ZoneFound(s: Store, runs: seq<Run>, idle': seq<nat>, runs': seq<Run>) {
      if s.idle != [] then idle' == s.idle && runs' == runs
      else |idle'| == 1 && TakenAway(runs, runs', idle'[0], zonePages)
    }

    /** The first idle zone enters service as the first one of class `zi`. */
    ghost predicate Opens(s: Store, s': Store, zi: nat) {
      && s.idle != [] && zi < |s.lists|
      && var z := s.idle[0];
         && s'.idle == s.idle[1..] && s'.lists == s.lists[zi := [z] + s.lists[zi]]
         && z in s'.zones && s'.zones == s.zones[z := s'.zones[z]]
    }

    lemma OpensSame(s: Store, found: Store, s': Store, zi: nat)
      requires Opens(found, s', zi) && found.zones == s.zones && found.lists == s.lists
      ensures Opens(s.(idle := found.idle), s', zi)
    {
    }

    /** What hands out the first chunk of a new zone of class `zi`. */
    ghost predicate FromNew(s: Store, runs: seq<Run>, s': Store, runs': seq<Run>, zi: nat) {
      exists idle' :: ZoneFound(s, runs, idle', runs') && Opens(s.(idle := idle'), s', zi)
    }

    /** What a request of class `zi` does to the zones, their lists and the free pages. */
    ghost predicate Served(s: Store, runs: seq<Run>, s': Store, runs': seq<Run>, zi: int) {
      && 0 <= zi < |s.lists|
      && if s.lists[zi] != [] then FromService(s, s', zi) && runs' == runs else FromNew(s, runs, s', runs', zi)
    }

    /** The first page of the next new zone. */
    ghost function NewHome(s: Store, runs: seq<Run>): Option<nat> {
      if s.idle != [] then Some(s.idle[0]) else LowestFit(runs, zonePages)
    }

    /** The first page of the zone or run of pages a request is served from. */
    ghost function HomePage(s: Store, runs: seq<Run>, size: nat): Option<nat> {
      if size >= zoneLimit then LowestFit(runs, PagesFor(size))
      else
        var zi := ZoneIndex(size).1;
        if 0 <= zi < |s.lists| && s.lists[zi] != [] then Some(s.lists[zi][0])
        else NewHome(s, runs)
    }

    // ----------------------------------------------------------------- release

    /** Give a large block back. */
    method FreeLarge(a: nat)
      requires Valid() && a in large && a in usage && usage[a].Large?
      modifies this, pages
      ensures Valid() && used == old(used) - old(large)[a] * PAGE && maxUsed == old(maxUsed)
      ensures zones == old(zones) && lists == old(lists) && idle == old(idle)
      ensures Freed(old(pages.runs), pages.runs, a, old(large)[a])
      ensures forall q: nat, m: nat :: LiveBlock(View(), q, m) <==> LiveBlock(old(View()), q, m) && q != a * PAGE
    {
      ghost var was, runs := View(), pages.runs;
      assert LargeAt(was, a);
      DroppedParts(was, zonePages, a);
      OwnedIsUsed(was, runs, a, large[a]);
      var n := usage[a].pages;
      usage := usage[a := Large(0)];
      used := used - n * PAGE;
      pages.Free(a, n);
      owner := Disowned(owner, a, n);
      large := large - {a};
      GivenSeparate(was, View(), runs, pages.runs, a, n);
    }

    /** Put the chunk `p` on the free list of its zone `z`, and the zone on the list of its class. */
    method GiveChunk(z: nat, p: nat)
      requires Valid() && LiveIn(View(), z, p)
      modifies this`zones, this`lists, this`used
      ensures Valid() && used == old(used) - old(zones)[z].size && idle == old(idle)
      ensures zones == old(zones)[z := ChunkGiven(old(zones)[z], p)]
      ensures old(zones)[z].kind < |lists| && lists == if old(zones)[z].nfree == 0 then Joined(old(lists), old(zones)[z].kind, z) else old(lists)
      ensures forall q: nat, m: nat :: LiveBlock(View(), q, m) <==> LiveBlock(old(View()), q, m) && q != p
    {
      GiveToParts(View(), zonePages, z, p);
      GiveToLive(View(), zonePages, z, p);
      var o := zones[z];
      o := o.(free := [p] + o.free);
      used := used - o.size;
      if o.nfree == 0 {
        lists := lists[o.kind := [z] + lists[o.kind]];
      }
      o := o.(nfree := o.nfree + 1);
      zones := zones[z := o];
    }

    /** Take a zone without chunks handed out from its list to the idle zones. */
    method Retire(z: nat)
      requires Valid() && z in zones && zones[z].nfree == zones[z].nmax
      modifies this`zones, this`lists, this`idle, this`idleCount
      ensures Valid() && idle == [z] + old(idle) && zones == old(zones) - {z} && old(zones)[z].kind < |lists|
      ensures lists == old(lists)[old(zones)[z].kind := Without(old(lists)[old(zones)[z].kind], z)]
      ensures forall q: nat, m: nat :: LiveBlock(View(), q, m) <==> LiveBlock(old(View()), q, m)
    {
      RetiredParts(View(), zonePages, z);
      RetiredLive(View(), zonePages, z);
      var kind := zones[z].kind;
      lists := lists[kind := Without(lists[kind], z)];
      zones := zones - {z};
      idle := [z] + idle;
      idleCount := idleCount + 1;
    }

    /** Give the pages of the first idle zone back to the page allocator. */
    method Release()
      requires Valid() && idle != []
      modifies this`idle, this`idleCount, this`usage, this`owner, pages
      ensures Valid() && idle == old(idle)[1..] && Freed(old(pages.runs), pages.runs, old(idle)[0], zonePages)
      ensures forall q: nat, m: nat :: LiveBlock(View(), q, m) <==> LiveBlock(old(View()), q, m)
    {
      ghost var was, runs := View(), pages.runs;
      var z := idle[0];
      AbandonedParts(was, zonePages);
      assert IdleAt(was, zonePages, z);
      forall x | z <= x < z + zonePages ensures OwnedBy(was, z, x) {
        assert ZonePage(was, z, x);
      }
      OwnedIsUsed(was, runs, z, zonePages);
      idle := idle[1..];
      idleCount := idleCount - 1;
      LeaveZone(z);
      pages.Free(z, zonePages);
      owner := Disowned(owner, z, zonePages);
      GivenSeparate(was, View(), runs, pages.runs, z, zonePages);
    }

    /** Give a chunk back; a zone that has become empty is idled unless it is the only one of its class. */
    method FreeChunk(z: nat, p: nat)
      requires Valid() && LiveIn(View(), z, p)
      modifies this, pages
      ensures Valid() && used == old(used) - old(zones)[z].size && maxUsed == old(maxUsed)
      ensures forall q: nat, m: nat :: LiveBlock(View(), q, m) <==> LiveBlock(old(View()), q, m) && q != p
      ensures ChunkFreed(old(View()), old(pages.runs), View(), pages.runs, z, p)
    {
      assert ZoneAt(View(), zonePages, z);
      GiveChunk(z, p);
      ghost var given, runs := View(), pages.runs;
      if zones[z].nfree == zones[z].nmax && lists[zones[z].kind] != [z] {
        PutAside(z);
        IdledIs(old(View()), given, View(), runs, pages.runs, z, p);
      }
    }

    /** Idle a zone without chunks handed out, or give its pages back if enough zones are idle. */
    method PutAside(z: nat)
      requires Valid() && z in zones && zones[z].nfree == zones[z].nmax
      modifies this`zones, this`lists, this`idle, this`idleCount, this`usage, this`owner, pages
      ensures Valid() && zones == old(zones) - {z} && old(zones)[z].kind < |old(lists)|
      ensures lists == old(lists)[old(zones)[z].kind := Without(old(lists)[old(zones)[z].kind], z)]
      ensures Idled(old(View()), old(pages.runs), View(), pages.runs, z)
      ensures forall q: nat, m: nat :: LiveBlock(View(), q, m) <==> LiveBlock(old(View()), q, m)
    {
      Retire(z);
      if idleCount > RELEASE_THRESHOLD {
        Release();
      }
    }

    /** The chunk given back is the last one handed out of a zone that is not the only listed one of its class. */
    ghost predicate GoesIdle(s: Store, z: nat)
      requires z in s.zones && s.zones[z].kind < |s.lists|
    {
      s.zones[z].nfree + 1 == s.zones[z].nmax && s.lists[s.zones[z].kind] != [z]
    }

    /**
     What giving back chunk `p` of zone `z` does: the zone stays in service with the chunk on its free
     list, or it becomes the first idle zone, or with enough idle zones its pages are free again.
     */
    ghost predicate ChunkFreed(s: Store, runs: seq<Run>, s': Store, runs': seq<Run>, z: nat, p: nat) {
      && z in s.zones && s.zones[z].kind < |s.lists|
      && var kind, o := s.zones[z].kind, s.zones[z];
         if !GoesIdle(s, z) then
           && s'.zones == s.zones[z := o.(nfree := o.nfree + 1, free := [p] + o.free)] && s'.idle == s.idle && runs' == runs
           && s'.lists == if o.nfree == 0 then Joined(s.lists, kind, z) else s.lists
         else
           s'.zones == s.zones - {z} && s'.lists == s.lists[kind := Without(s.lists[kind], z)] && Idled(s, runs, s', runs', z)
    }

    ghost predicate Idled(s: Store, runs: seq<Run>, s': Store, runs': seq<Run>, z: nat) {
      if |s.idle| < RELEASE_THRESHOLD then s'.idle == [z] + s.idle && runs' == runs
      else s'.idle == s.idle && Freed(runs, runs', z, zonePages)
    }

    /** The zone was on its list before, so that giving the chunk back left the lists alone. */
    lemma IdledIs(s: Store, given: Store, s': Store, runs: seq<Run>, runs': seq<Run>, z: nat, p: nat)
      requires z in s.zones && s.zones[z].kind < |s.lists| && 2 <= s.zones[z].nmax && s.zones[z].nfree + 1 == s.zones[z].nmax
      requires given.zones == s.zones[z := ChunkGiven(s.zones[z], p)] && given.lists == s.lists && given.idle == s.idle
      requires given.lists[s.zones[z].kind] != [z] && Idled(given, runs, s', runs', z)
      requires s'.zones == given.zones - {z} && s'.lists == given.lists[s.zones[z].kind := Without(given.lists[s.zones[z].kind], z)]
      ensures ChunkFreed(s, runs, s', runs', z, p)
    {
    }

    /** `rt_slab_free` of a block handed out; the usage table tells what it is. */
    method Free(ptr: nat, ghost n: nat)
      requires Valid() && LiveBlock(View(), ptr, n)
      modifies this, pages
      ensures Valid() && used == old(used) - n && maxUsed == old(maxUsed)
      ensures forall q: nat, m: nat :: LiveBlock(View(), q, m) <==> LiveBlock(old(View()), q, m) && q != ptr
      ensures forall z: nat :: ZoneBlock(old(View()), z, ptr, n) ==> ChunkFreed(old(View()), old(pages.runs), View(), pages.runs, z, ptr)
      ensures forall a: nat :: LargeBlock(old(View()), a, ptr, n) ==>
                zones == old(zones) && lists == old(lists) && idle == old(idle) && Freed(old(pages.runs), pages.runs, a, n / PAGE)
    {
      ghost var a := UsageTells(View(), zonePages, ptr, n);
      OneHome(View(), zonePages, ptr, n);
      var page := ptr / PAGE;
      if usage[page].Large? {
        FreeLarge(page);
      } else {
        var z := page - usage[page].off;
        ghost var was, runs := View(), pages.runs;
        FreeChunk(z, ptr);
        forall y: nat | ZoneBlock(was, y, ptr, n) ensures ChunkFreed(was, runs, View(), pages.runs, y, ptr) {
          assert y == z;
        }
      }
    }

    // ------------------------------------------------------------ reallocation

    /** A block in a zone keeps its place if a block of `size` bytes would be in its class. */
    ghost predicate KeepsPlace(s: Store, ptr: nat, oldSize: nat, size: nat) {
      SmallBlock(s, ptr, oldSize) && oldSize == ZoneIndex(size).0
    }

    /** What `rt_slab_realloc` asks `rt_slab_alloc` for. */
    ghost function NewSize(s: Store, ptr: nat, oldSize: nat, size: nat): nat {
      if SmallBlock(s, ptr, oldSize) then ZoneIndex(size).0 else size
    }

    /** `rt_slab_realloc`. */
    method Realloc(ptr: Option<nat>, size: nat, ghost oldSize: nat) returns (p: Option<nat>, ghost n: nat)
      requires Valid() && size <= SIZE_MAX - 2 * PAGE && (ptr.Some? ==> LiveBlock(View(), ptr.value, oldSize))
      modifies this, pages, memory
      ensures Valid()
      ensures ptr.None? ==> (p.None? <==> Refuses(old(View()), old(pages.runs), size))
      ensures ptr.Some? && size == 0 ==> p.None? && forall q: nat, m: nat :: LiveBlock(View(), q, m) <==>
                LiveBlock(old(View()), q, m) && ptr != Some(q)
      ensures ptr.Some? && size > 0 ==>
                if KeepsPlace(old(View()), ptr.value, oldSize, size)
                then p == ptr && n == oldSize && View() == old(View()) && pages.runs == old(pages.runs) && used == old(used)
                else (p.Some? ==> NotLive(old(View()), p.value)) &&
                     (p.None? <==> Refuses(old(View()), old(pages.runs), NewSize(old(View()), ptr.value, oldSize, size)))
      ensures p.Some? ==> used == old(used) + n - if ptr.Some? then oldSize else 0
      ensures maxUsed == if p.None? || p == ptr then old(maxUsed) else Max(old(maxUsed), old(used) + n)
      ensures (ptr.None? || size > 0) && p.None? ==> View() == old(View()) && used == old(used) && pages.runs == old(pages.runs)
      ensures p.Some? ==> n >= size
      ensures p.Some? ==> forall q: nat, m: nat :: LiveBlock(View(), q, m) <==>
                if p == Some(q) then m == n else LiveBlock(old(View()), q, m) && ptr != Some(q)
      ensures p.Some? && ptr.Some? ==>
                CopiedTo(old(memory.cells), memory.cells, ptr.value, p.value, if oldSize < size then oldSize else size)
      ensures if size == 0 || ptr.None? then memory.cells == old(memory.cells)
              else OthersKept(old(View()), ptr.value, old(memory.cells), memory.cells)
    {
      p, n := None, 0;
      if ptr.None? {
        p, n := Alloc(size);
        return;
      }
      if size == 0 {
        Free(ptr.value, oldSize);
        return;
      }
      p, n := Resize(ptr.value, size, oldSize);
    }

    /** Reallocation of a block to a non-zero size. */
    method Resize(ptr: nat, size: nat, ghost oldSize: nat) returns (p: Option<nat>, ghost n: nat)
      requires Valid() && 0 < size <= SIZE_MAX - 2 * PAGE && LiveBlock(View(), ptr, oldSize)
      modifies this, pages, memory
      ensures Valid()
      ensures if KeepsPlace(old(View()), ptr, oldSize, size)
              then p == Some(ptr) && n == oldSize && View() == old(View()) && pages.runs == old(pages.runs) && used == old(used)
              else (p.Some? ==> NotLive(old(View()), p.value)) &&
                   (p.None? <==> Refuses(old(View()), old(pages.runs), NewSize(old(View()), ptr, oldSize, size)))
      ensures p.Some? ==> used == old(used) + n - oldSize
      ensures maxUsed == if p.None? || p == Some(ptr) then old(maxUsed) else Max(old(maxUsed), old(used) + n)
      ensures p.None? ==> View() == old(View()) && used == old(used) && pages.runs == old(pages.runs)
      ensures p.Some? ==> n >= size
      ensures p.Some? ==> forall q: nat, m: nat :: LiveBlock(View(), q, m) <==>
                if p == Some(q) then m == n else LiveBlock(old(View()), q, m) && q != ptr
      ensures p.Some? ==> CopiedTo(old(memory.cells), memory.cells, ptr, p.value, if oldSize < size then oldSize else size)
      ensures OthersKept(old(View()), ptr, old(memory.cells), memory.cells)
    {
      var keeps, request, copied := NewRequest(ptr, size, oldSize);
      if keeps {
        OneSize(View(), zonePages, ptr, oldSize);
        return Some(ptr), oldSize;
      }
      p, n := Move(ptr, request, copied, oldSize);
    }

    /** Whether the block can stay, and else the size to ask for and the bytes to copy. */
    method NewRequest(ptr: nat, size: nat, ghost oldSize: nat) returns (keeps: bool, request: nat, copied: nat)
      requires Valid() && 0 < size <= SIZE_MAX - 2 * PAGE && LiveBlock(View(), ptr, oldSize)
      ensures size <= request <= SIZE_MAX - PAGE && request == NewSize(View(), ptr, oldSize, size)
      ensures keeps <==> KeepsPlace(View(), ptr, oldSize, size)
      ensures copied == if oldSize < request then oldSize else request
    {
      KindOf(View(), zonePages, ptr, oldSize);
      var page := ptr / PAGE;
      keeps, request, copied := false, size, size;
      if usage[page].Large? {
        copied := if size > usage[page].pages * PAGE then usage[page].pages * PAGE else size;
      } else {
        var z := page - usage[page].off;
        request := ZoneIndex(size).0;
        RequestHolds(size);
        keeps := zones[z].size == request;
        copied := if request > zones[z].size then zones[z].size else request;
      }
    }

    /** Allocate a new block, copy `copied` bytes and give the old one back. */
    method Move(ptr: nat, request: nat, copied: nat, ghost oldSize: nat) returns (p: Option<nat>, ghost n: nat)
      requires Valid() && 0 < request <= SIZE_MAX - PAGE && LiveBlock(View(), ptr, oldSize)
      requires copied == if oldSize < request then oldSize else request
      modifies this, pages, memory
      ensures Valid() && (p.None? <==> Refuses(old(View()), old(pages.runs), request))
      ensures p.None? ==> View() == old(View()) && used == old(used) && pages.runs == old(pages.runs) && memory.cells == old(memory.cells)
      ensures p.Some? ==> n >= request && NotLive(old(View()), p.value)
      ensures p.Some? ==> used == old(used) + n - oldSize
      ensures maxUsed == if p.Some? then Max(old(maxUsed), old(used) + n) else old(maxUsed)
      ensures p.Some? ==> forall q: nat, m: nat :: LiveBlock(View(), q, m) <==>
                if p == Some(q) then m == n else LiveBlock(old(View()), q, m) && q != ptr
      ensures p.Some? ==> CopiedTo(old(memory.cells), memory.cells, ptr, p.value, copied)
      ensures p.Some? ==> OthersKept(old(View()), ptr, old(memory.cells), memory.cells)
    {
      ghost var was := View();
      p, n := Alloc(request);
      if p.Some? {
        Relocate(ptr, p.value, copied, was, n, oldSize);
      }
    }

    /** Copy bytes from the block at `ptr` to the block at `to`, which was not handed out in `was`, and give the old block back. */
    method Relocate(ptr: nat, to: nat, copied: nat, ghost was: Store, ghost n: nat, ghost oldSize: nat)
      requires Valid() && copied <= n && copied <= oldSize && LiveBlock(was, ptr, oldSize) && NotLive(was, to)
      requires forall q: nat, m: nat :: LiveBlock(View(), q, m) <==> LiveBlock(was, q, m) || (q == to && m == n)
      modifies this, pages, memory
      ensures Valid() && used == old(used) - oldSize && maxUsed == old(maxUsed)
      ensures forall q: nat, m: nat :: LiveBlock(View(), q, m) <==>
                if q == to then m == n else LiveBlock(was, q, m) && q != ptr
      ensures CopiedTo(old(memory.cells), memory.cells, ptr, to, copied)
      ensures OthersKept(was, ptr, old(memory.cells), memory.cells)
    {
      CopyData(ptr, to, copied, was, n, oldSize);
      Free(ptr, oldSize);
    }

    /** Copy bytes from the block at `ptr` to the block at `to`, which was not handed out in `was`. */
    method CopyData(ptr: nat, to: nat, copied: nat, ghost was: Store, ghost n: nat, ghost oldSize: nat)
      requires Valid() && copied <= n && copied <= oldSize && LiveBlock(was, ptr, oldSize) && NotLive(was, to)
      requires forall q: nat, m: nat :: LiveBlock(View(), q, m) <==> LiveBlock(was, q, m) || (q == to && m == n)
      modifies memory
      ensures CopiedTo(old(memory.cells), memory.cells, ptr, to, copied)
      ensures OthersKept(was, ptr, old(memory.cells), memory.cells)
    {
      LiveBlocksDisjoint(View(), zonePages, to, n, ptr, oldSize);
      memory.Copy(to, ptr, copied);
      CopyKeepsOthers(was, View(), zonePages, ptr, to, copied, n, old(memory.cells), memory.cells);
    }
  }

  /** `x` is a byte of the block at `b`. */
  ghost predicate LiveByte(s: Store, b: nat, x: nat) {
    exists n: nat :: LiveBlock(s, b, n) && b <= x < b + n
  }

  /** No byte of a block but the one at `b` changed. */
  ghost predicate OthersKept(s: Store, b: nat, cells: map<nat, int>, cells': map<nat, int>) {
    forall a: nat, x: nat :: LiveByte(s, a, x) && a != b ==> ByteAt(cells', x) == ByteAt(cells, x)
  }

  /** Copying into a new block changes no byte of the others. */
  lemma CopyKeepsOthers(s: Store, s': Store, zp: nat, b: nat, d: nat, copied: nat, n: nat, cells: map<nat, int>, cells': map<nat, int>)
    requires Parts(s', zp) && LiveBlock(s', d, n) && copied <= n && NotLive(s, d)
    requires forall q: nat, m: nat :: LiveBlock(s, q, m) ==> LiveBlock(s', q, m)
    requires SameOutside(cells, cells', d, copied)
    ensures OthersKept(s, b, cells, cells')
  {
    forall a: nat, x: nat | LiveByte(s, a, x) && a != b ensures ByteAt(cells', x) == ByteAt(cells, x) {
      var m: nat :| LiveBlock(s, a, m) && a <= x < a + m;
      LiveBlocksDisjoint(s', zp, a, m, d, n);
    }
  }

  /**
   The header of a zone and its free chunks, where the allocator keeps its own records, share no
   address with a block handed out.
   */
  lemma RecordsOffData(s: Store, zp: nat, z: nat, b: nat, x: nat)
    requires Parts(s, zp) && z in s.zones && LiveByte(s, b, x)
    ensures !(z * PAGE <= x < z * PAGE + ZONE_HEADER)
    ensures forall c :: c in s.zones[z].free ==> !(c <= x < c + s.zones[z].size)
  {
    var n: nat :| LiveBlock(s, b, n) && b <= x < b + n;
    var a, k := HomeOf(s, zp, b, n);
    assert ZoneAt(s, zp, z);
    ZoneIsNotLarge(s, zp, z);
    var o := s.zones[z];
    if a == z {
      LiveInZone(o, z * PAGE, zp * PAGE, b);
      forall c | c in o.free ensures !(c <= x < c + o.size) {
        var i :| 0 <= i < |o.free| && o.free[i] == c;
        assert FreeChunkOk(o, i);
        LiveApart(o, b, c);
      }
    } else {
      OtherHome(s, zp, z, a, k, b, n);
      forall c | c in o.free ensures !(c <= x < c + o.size) {
        var i :| 0 <= i < |o.free| && o.free[i] == c;
        assert FreeChunkOk(o, i);
        LiveInZone(o, z * PAGE, zp * PAGE, c);
      }
    }
  }

  /** A block of another zone, or a large one, lies outside zone `z`. */
  lemma OtherHome(s: Store, zp: nat, z: nat, a: nat, k: nat, b: nat, n: nat)
    requires Parts(s, zp) && z in s.zones && Within(s, a, k, b, n) && a != z && k > 0
    ensures b + n <= z * PAGE || (z + zp) * PAGE <= b
    ensures z * PAGE + ZONE_HEADER <= (z + zp) * PAGE
  {
    assert ZoneAt(s, zp, z);
    forall x | z <= x < z + zp ensures OwnedBy(s, z, x) {
      assert ZonePage(s, z, x);
    }
    OwnersApart(s, a, k, z, zp);
  }

  function Joined(lists: seq<seq<nat>>, kind: nat, z: nat): seq<seq<nat>>
    requires kind < |lists|
  {
    lists[kind := [z] + lists[kind]]
  }

  function AddressOf(page: Option<nat>): Option<nat> {
    if page.Some? then Some(page.value * PAGE) else None
  }

  /** The pages free after the usage table of `table` pages was taken from the pool. */
  function FirstRuns(begin: nat, npages: nat, table: nat): seq<Run> {
    if npages > table then [Run(begin + table, npages - table)] else []
  }

  lemma TableFits(begin: nat, npages: nat, table: nat)
    requires 0 < table <= npages
    ensures LowestFit([Run(begin, npages)], table) == Some(begin)
    ensures FirstFit([Run(begin, npages)], 0, table) && Taken([Run(begin, npages)], 0, table) == FirstRuns(begin, npages, table)
    ensures forall i: nat :: FirstFit([Run(begin, npages)], i, table) ==> i == 0
  {
    var runs := [Run(begin, npages)];
    assert |runs| == 1;
    assert npages == table ==> Taken(runs, 0, table) == [];
  }

  /** A zone after its next chunk was taken. */
  ghost predicate ChunkLess(z: Zone, z': Zone) {
    if z.uindex + 1 != z.nmax then z' == z.(nfree := z.nfree - 1, uindex := z.uindex + 1)
    else z.free != [] && z' == z.(nfree := z.nfree - 1, free := z.free[1..])
  }

  /** The pages `[a, a + n)` were free and no longer are; the others stay. */
  ghost predicate TakenAway(runs: seq<Run>, runs': seq<Run>, a: nat, n: nat) {
    AllFree(runs, a, n) && forall x :: FreePage(runs', x) <==> FreePage(runs, x) && !In(Run(a, n), x)
  }

  /** The pages `[a, a + n)` became free, and no others. */
  ghost predicate Freed(runs: seq<Run>, runs': seq<Run>, a: nat, n: nat) {
    forall x :: FreePage(runs', x) <==> FreePage(runs, x) || In(Run(a, n), x)
  }

  ghost predicate SmallBlock(s: Store, p: nat, n: nat) {
    exists z: nat :: ZoneBlock(s, z, p, n)
  }

  /** A block of a zone is aligned to the power of two asked for exactly if the zone is. */
  lemma BlockAligned(s: Store, zp: nat, z: nat, c: nat, g: nat, size: nat)
    requires Parts(s, zp) && size > 0 && ZoneBlock(s, z, c, g) && (IsPowerOfTwo(size) ==> PowerChunk(size, g))
    ensures IsPowerOfTwo(size) ==> (c % size == 0 <==> z * PAGE % size == 0)
    ensures IsPowerOfTwo(size) && size <= PAGE ==> c % size == 0
  {
    assert ZoneAt(s, zp, z);
    if IsPowerOfTwo(size) {
      RequestAligned(s.zones[z], z, zp * PAGE, c, size);
    }
  }

  /** The class of a request below the limit has chunks of at most a quarter of a zone. */
  lemma ClassFits(size: nat, zoneSize: nat)
    requires zoneSize % PAGE == 0 && MIN_ZONE <= zoneSize <= MAX_ZONE && 0 < size < Limit(zoneSize)
    ensures size < 16384 && 0 < ZoneIndex(size).0 <= zoneSize / 4
  {
    if size < 8192 {
      SmallClass(size);
    } else {
      assert ZoneIndex(size).0 == (size + 1023) / 1024 * 1024;
    }
  }

  lemma SmallClass(size: nat)
    requires 0 < size < 8192
    ensures 0 < ZoneIndex(size).0 <= 8192
  {
  }

  /** The usage entry of the page of a block leads to its zone or large block. */
  lemma UsageTells(s: Store, zp: nat, ptr: nat, n: nat) returns (a: nat)
    requires Parts(s, zp) && LiveBlock(s, ptr, n)
    ensures var page := ptr / PAGE;
            && page in s.usage
            && (s.usage[page].Large? ==> page in s.large && ptr == page * PAGE && n == s.large[page] * PAGE)
            && (s.usage[page].Large? || (s.usage[page].Small? && s.usage[page].off <= page &&
                                         ZoneBlock(s, page - s.usage[page].off, ptr, n)))
  {
    var k;
    a, k := HomeOf(s, zp, ptr, n);
    PositiveSize(s, zp, a, ptr, n);
    PageOf(ptr, a, k, n);
    if ZoneBlock(s, a, ptr, n) {
      ZonePageOf(s, zp, a, ptr, n);
    } else {
      assert LargeAt(s, a);
      assert ptr / PAGE == a;
    }
  }

  lemma ZonePageOf(s: Store, zp: nat, z: nat, ptr: nat, n: nat)
    requires Parts(s, zp) && ZoneBlock(s, z, ptr, n)
    ensures z <= ptr / PAGE < z + zp && ZonePage(s, z, ptr / PAGE)
  {
    assert ZoneAt(s, zp, z);
    LiveInZone(s.zones[z], z * PAGE, zp * PAGE, ptr);
    PageOf(ptr, z, zp, n);
  }

  /** A block lies in one zone, or is large. */
  lemma OneHome(s: Store, zp: nat, ptr: nat, n: nat)
    requires Parts(s, zp) && LiveBlock(s, ptr, n)
    ensures ptr / PAGE in s.usage
    ensures forall z: nat :: ZoneBlock(s, z, ptr, n) ==>
              var u := s.usage[ptr / PAGE]; u.Small? && u.off <= ptr / PAGE && z == ptr / PAGE - u.off
    ensures forall a: nat :: LargeBlock(s, a, ptr, n) ==> s.usage[ptr / PAGE].Large? && a == ptr / PAGE && n == s.large[a] * PAGE
  {
    var home := UsageTells(s, zp, ptr, n);
    forall z: nat | ZoneBlock(s, z, ptr, n)
      ensures var u := s.usage[ptr / PAGE]; u.Small? && u.off <= ptr / PAGE && z == ptr / PAGE - u.off
    {
      ZonePageOf(s, zp, z, ptr, n);
    }
    forall a: nat | LargeBlock(s, a, ptr, n) ensures s.usage[ptr / PAGE].Large? && a == ptr / PAGE {
      assert LargeAt(s, a);
      assert ptr / PAGE == a;
    }
  }

  /** The usage table tells small blocks from large ones. */
  lemma KindOf(s: Store, zp: nat, ptr: nat, n: nat)
    requires Parts(s, zp) && LiveBlock(s, ptr, n)
    ensures ptr / PAGE in s.usage
    ensures var u := s.usage[ptr / PAGE];
            && (SmallBlock(s, ptr, n) <==> !u.Large?)
            && (!u.Large? ==> u.Small? && u.off <= ptr / PAGE && ptr / PAGE - u.off in s.zones
                              && s.zones[ptr / PAGE - u.off].size == n)
  {
    var home := UsageTells(s, zp, ptr, n);
    OneHome(s, zp, ptr, n);
    if z: nat :| ZoneBlock(s, z, ptr, n) {
    }
  }

  /** A block has one size. */
  lemma OneSize(s: Store, zp: nat, p: nat, n: nat)
    requires Parts(s, zp) && LiveBlock(s, p, n)
    ensures forall m: nat :: LiveBlock(s, p, m) <==> m == n
  {
    var a := UsageTells(s, zp, p, n);
    forall m: nat | LiveBlock(s, p, m) ensures m == n {
      var b := UsageTells(s, zp, p, m);
    }
  }

  /** Rounding a request never makes it smaller, and little bigger. */
  lemma RequestHolds(size: nat)
    requires size > 0
    ensures size <= ZoneIndex(size).0 < size + PAGE
  {
  }

  // ---------------------------------------------------- blocks out of alignment

  /** With the usage table in an even page, the first large block of 8 KiB is not aligned to 8 KiB. */
  method LargeOutOfAlignment() returns (h: SlabHeap, p: Option<nat>, ghost n: nat)
    ensures fresh(h) && h.Valid() && h.zoneLimit <= 8192
    ensures p.Some? && LiveBlock(h.View(), p.value, n) && n == 8192 && p.value % 8192 != 0
  {
    var memory := new Memory();
    h := new SlabHeap(2, 20, memory);
    var size: nat := 8192;
    SmallPowers(size);
    assert h.pages.runs == [Run(3, 19)];
    assert h.HomePage(h.View(), h.pages.runs, size) == Some(3);
    p, n := h.Alloc(size);
  }

  /** In a pool of 20000 pages zones are 64 KiB, and the first chunk of 8 KiB is not aligned to 8 KiB. */
  method ChunkOutOfAlignment() returns (h: SlabHeap, p: Option<nat>, ghost n: nat)
    ensures fresh(h) && h.Valid() && h.zoneLimit > 8192
    ensures p.Some? && LiveBlock(h.View(), p.value, n) && n == 8192 && p.value % 8192 != 0
  {
    var memory := new Memory();
    h := new SlabHeap(1, 20000, memory);
    var size: nat := 8192;
    SmallPowers(size);
    assert h.zoneSize == 0x1_0000;
    assert h.pages.runs == [Run(21, 19980)];
    assert h.HomePage(h.View(), h.pages.runs, size) == Some(21);
    p, n := h.Alloc(size);
  }
}
