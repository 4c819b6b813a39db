/**
 The whole slab allocator (rt-thread/src/slab.c): zones of chunks and large
 blocks on top of the page allocator, found again through the page usage table.
 Zones and large blocks are named by the number of their first page.
 */
module SlabStore {
  import opened Base
  import opened SlabPages
  import opened SlabZones

  /** An entry of `memusage`. */
  datatype Usage = Unused | Small(off: nat) | Large(pages: nat)

  /** `lists` is `zone_array`, `idle` is `zone_free`; `owner` tells which zone or large block has a page. */
  datatype Store = Store(
    zones: map<nat, Zone>,
    lists: seq<seq<nat>>,
    idle: seq<nat>,
    large: map<nat, nat>,
    usage: map<nat, Usage>,
    owner: map<nat, nat>)

  // ---------------------------------------------------------------- invariant

  ghost predicate OwnedBy(s: Store, a: nat, x: nat) {
    x in s.owner && s.owner[x] == a
  }

  /** Page `x` belongs to the zone that begins `x - z` pages before it. */
  ghost predicate ZonePage(s: Store, z: nat, x: nat)
    requires z <= x
  {
    OwnedBy(s, z, x) && x in s.usage && s.usage[x] == Small(x - z)
  }

  ghost predicate ZonePages(s: Store, zp: nat, z: nat) {
    forall x :: z <= x < z + zp ==> ZonePage(s, z, x)
  }

  ghost predicate ZoneAt(s: Store, zp: nat, z: nat)
    requires z in s.zones
  {
    ZoneOk(s.zones[z], z * PAGE, zp * PAGE) && ZonePages(s, zp, z)
  }

  /** The list of class `i` holds exactly the zones of the class that have a free chunk. */
  ghost predicate ListOk(s: Store, i: nat)
    requires i < |s.lists|
  {
    NoDup(s.lists[i]) && forall z :: z in s.lists[i] <==> Listed(s, i, z)
  }

  ghost predicate Listed(s: Store, i: nat, z: nat) {
    z in s.zones && s.zones[z].kind == i && s.zones[z].nfree > 0
  }

  ghost predicate IdleAt(s: Store, zp: nat, z: nat) {
    z !in s.zones && ZonePages(s, zp, z)
  }

  ghost predicate LargeAt(s: Store, a: nat)
    requires a in s.large
  {
    && s.large[a] > 0 && a in s.usage && s.usage[a] == Large(s.large[a])
    && forall x :: a <= x < a + s.large[a] ==> OwnedBy(s, a, x)
  }

  ghost predicate Parts(s: Store, zp: nat) {
    && |s.lists| == CLASSES && zp > 0
    && (forall z :: z in s.zones ==> ZoneAt(s, zp, z))
    && (forall i :: 0 <= i < |s.lists| ==> ListOk(s, i))
    && NoDup(s.idle) && (forall z :: z in s.idle ==> IdleAt(s, zp, z))
    && (forall a :: a in s.large ==> LargeAt(s, a))
  }

  /** Pages that belong to someone are not free. */
  ghost predicate Separate(s: Store, runs: seq<Run>) {
    forall x :: x in s.owner ==> !FreePage(runs, x)
  }

  ghost predicate Inv(s: Store, zp: nat, runs: seq<Run>) {
    Parts(s, zp) && Separate(s, runs)
  }

  // -------------------------------------------------------------- live blocks

  ghost predicate LiveIn(s: Store, z: nat, p: nat) {
    z in s.zones && Live(s.zones[z], p)
  }

  ghost predicate LargeIs(s: Store, a: nat, p: nat) {
    a in s.large && p == a * PAGE
  }

  ghost predicate ZoneBlock(s: Store, z: nat, p: nat, n: nat) {
    LiveIn(s, z, p) && n == s.zones[z].size
  }

  ghost predicate LargeBlock(s: Store, a: nat, p: nat, n: nat) {
    LargeIs(s, a, p) && n == s.large[a] * PAGE
  }

  /** A block of `n` bytes at address `p` is handed out. */
  ghost predicate LiveBlock(s: Store, p: nat, n: nat) {
    (exists z :: ZoneBlock(s, z, p, n)) || (exists a :: LargeBlock(s, a, p, n))
  }

  /** The block at `p` lies in the pages `[a, a + k)`, all owned by `a`. */
  ghost predicate Within(s: Store, a: nat, k: nat, p: nat, n: nat) {
    && a * PAGE <= p && p + n <= (a + k) * PAGE
    && forall x :: a <= x < a + k ==> OwnedBy(s, a, x)
  }

  lemma ZoneWithin(s: Store, zp: nat, z: nat, p: nat)
    requires Parts(s, zp) && LiveIn(s, z, p)
    ensures Within(s, z, zp, p, s.zones[z].size)
  {
    assert ZoneAt(s, zp, z);
    LiveInZone(s.zones[z], z * PAGE, zp * PAGE, p);
    forall x | z <= x < z + zp ensures OwnedBy(s, z, x) {
      assert ZonePage(s, z, x);
    }
  }

  lemma OwnersApart(s: Store, a: nat, k: nat, b: nat, l: nat)
    requires (forall x :: a <= x < a + k ==> OwnedBy(s, a, x)) && (forall x :: b <= x < b + l ==> OwnedBy(s, b, x))
    requires a != b && k > 0 && l > 0
    ensures a + k <= b || b + l <= a
  {
    var x := if a < b then b else a;
    assert a <= x < a + k ==> OwnedBy(s, a, x);
    assert b <= x < b + l ==> OwnedBy(s, b, x);
  }

  lemma WithinApart(s: Store, a: nat, k: nat, p: nat, n: nat, b: nat, l: nat, q: nat, m: nat)
    requires Within(s, a, k, p, n) && Within(s, b, l, q, m) && a != b && k > 0 && l > 0
    ensures p + n <= q || q + m <= p
  {
    OwnersApart(s, a, k, b, l);
  }

  /** The zone or large block a live block belongs to. */
  lemma HomeOf(s: Store, zp: nat, p: nat, n: nat) returns (a: nat, k: nat)
    requires Parts(s, zp) && LiveBlock(s, p, n)
    ensures k > 0 && Within(s, a, k, p, n)
    ensures ZoneBlock(s, a, p, n) || LargeBlock(s, a, p, n)
  {
    if z :| ZoneBlock(s, z, p, n) {
      ZoneWithin(s, zp, z, p);
      a, k := z, zp;
    } else {
      a :| LargeBlock(s, a, p, n);
      k := s.large[a];
      assert LargeAt(s, a);
    }
  }

  lemma ZoneIsNotLarge(s: Store, zp: nat, a: nat)
    requires Parts(s, zp) && (a in s.zones || a in s.idle)
    ensures a !in s.large
  {
    assert a in s.zones ==> ZoneAt(s, zp, a);
    assert a in s.idle ==> IdleAt(s, zp, a);
    assert ZonePage(s, a, a);
    assert a in s.large ==> LargeAt(s, a);
  }

  /** Blocks handed out never overlap. */
  lemma LiveBlocksDisjoint(s: Store, zp: nat, p: nat, n: nat, q: nat, m: nat)
    requires Parts(s, zp) && LiveBlock(s, p, n) && LiveBlock(s, q, m) && p != q
    ensures p + n <= q || q + m <= p
  {
    var a, k := HomeOf(s, zp, p, n);
    var b, l := HomeOf(s, zp, q, m);
    if a != b {
      WithinApart(s, a, k, p, n, b, l, q, m);
    } else if a in s.zones {
      ZoneIsNotLarge(s, zp, a);
      assert ZoneAt(s, zp, a);
      LiveApart(s.zones[a], p, q);
    }
  }

  /** The addresses of zone `z` hold no block but the zone's own. */
  lemma NotElsewhere(s: Store, zp: nat, z: nat, c: nat)
    requires Parts(s, zp) && ZonePages(s, zp, z) && z * PAGE <= c < (z + zp) * PAGE
    requires z in s.zones || z in s.idle
    ensures forall n: nat :: LiveBlock(s, c, n) ==> ZoneBlock(s, z, c, n)
  {
    forall n: nat | LiveBlock(s, c, n) ensures ZoneBlock(s, z, c, n) {
      var a, k := HomeOf(s, zp, c, n);
      forall x | z <= x < z + zp ensures OwnedBy(s, z, x) {
        assert ZonePage(s, z, x);
      }
      PositiveSize(s, zp, a, c, n);
      if a != z {
        OwnersApart(s, a, k, z, zp);
      }
      ZoneIsNotLarge(s, zp, z);
    }
  }

  lemma PositiveSize(s: Store, zp: nat, a: nat, p: nat, n: nat)
    requires Parts(s, zp) && (ZoneBlock(s, a, p, n) || LargeBlock(s, a, p, n))
    ensures n > 0
  {
    assert a in s.zones ==> ZoneAt(s, zp, a);
    assert a in s.large ==> LargeAt(s, a);
  }

  ghost predicate NotLive(s: Store, c: nat) {
    forall n: nat :: !LiveBlock(s, c, n)
  }

  // ------------------------------------------------------ chunks of a zone

  /** A block handed out that is not in zone `z`. */
  ghost predicate ElsewhereBlock(s: Store, z: nat, p: nat, n: nat) {
    (exists y :: y != z && ZoneBlock(s, y, p, n)) || (exists a :: LargeBlock(s, a, p, n))
  }

  /** Only the contents of zone `z`, of unchanged size, differ. */
  lemma ZoneChanged(s: Store, s': Store, z: nat, p: nat, n: nat)
    requires z in s.zones && z in s'.zones && s'.zones == s.zones[z := s'.zones[z]] && s'.large == s.large
    requires s'.zones[z].size == s.zones[z].size
    ensures LiveBlock(s', p, n) <==> ZoneBlock(s', z, p, n) || ElsewhereBlock(s, z, p, n)
    ensures LiveBlock(s, p, n) <==> ZoneBlock(s, z, p, n) || ElsewhereBlock(s, z, p, n)
  {
    if y :| ZoneBlock(s', y, p, n) {
      assert y != z ==> ZoneBlock(s, y, p, n);
    }
    if y :| y != z && ZoneBlock(s, y, p, n) {
      assert ZoneBlock(s', y, p, n);
    }
    if a :| LargeBlock(s, a, p, n) {
      assert LargeBlock(s', a, p, n);
    }
    if a :| LargeBlock(s', a, p, n) {
      assert LargeBlock(s, a, p, n);
    }
  }

  /** Take a chunk from `z`, the first zone of its list; a zone without free chunks leaves the list. */
  ghost function TakeFrom(s: Store, z: nat): Store
    requires z in s.zones && (s.zones[z].free != [] || s.zones[z].uindex + 1 != s.zones[z].nmax)
    requires s.zones[z].kind < |s.lists| && s.lists[s.zones[z].kind] != []
  {
    var o := s.zones[z];
    s.(zones := s.zones[z := ChunkTaken(o).0],
       lists := if o.nfree == 1 then s.lists[o.kind := s.lists[o.kind][1..]] else s.lists)
  }

  lemma TakeFromParts(s: Store, zp: nat, z: nat, i: nat)
    requires Parts(s, zp) && i < |s.lists| && s.lists[i] != [] && s.lists[i][0] == z
    ensures Listed(s, i, z) && (s.zones[z].free != [] || s.zones[z].uindex + 1 != s.zones[z].nmax)
    ensures Parts(TakeFrom(s, z), zp)
  {
    assert ListOk(s, i) && z in s.lists[i];
    assert ZoneAt(s, zp, z);
    ChunkTakenFacts(s.zones[z], z * PAGE, zp * PAGE);
    var s', o := TakeFrom(s, z), ChunkTaken(s.zones[z]).0;
    forall y | y in s'.zones ensures ZoneAt(s', zp, y) {
      assert ZoneAt(s, zp, y);
      SamePages(s, s', zp, y);
    }
    TakeFromLists(s, s', z, i, o);
    OthersSame(s, s', zp);
  }

  /** The first zone of a list, `o` from now on, leaves the list with its last free chunk. */
  lemma TakeFromLists(s: Store, s': Store, z: nat, i: nat, o: Zone)
    requires i < |s.lists| && s.lists[i] != [] && s.lists[i][0] == z && forall k :: 0 <= k < |s.lists| ==> ListOk(s, k)
    requires Listed(s, i, z) && o.kind == i && o.nfree == s.zones[z].nfree - 1 && s'.zones == s.zones[z := o]
    requires s'.lists == if o.nfree == 0 then s.lists[i := s.lists[i][1..]] else s.lists
    ensures forall k :: 0 <= k < |s'.lists| ==> ListOk(s', k)
  {
    assert ListOk(s, i);
    TailNoDup(s.lists[i]);
    forall k | 0 <= k < |s'.lists| ensures ListOk(s', k) {
      assert ListOk(s, k);
      forall y ensures y in s'.lists[k] <==> Listed(s', k, y) {
        assert y in s.lists[k] <==> Listed(s, k, y);
      }
    }
  }

  lemma SamePages(s: Store, s': Store, zp: nat, z: nat)
    requires s'.usage == s.usage && s'.owner == s.owner && ZonePages(s, zp, z)
    ensures ZonePages(s', zp, z)
  {
    forall x | z <= x < z + zp ensures ZonePage(s', z, x) {
      assert ZonePage(s, z, x);
    }
  }

  /** Large blocks and idle zones do not notice a change among the zones in service. */
  lemma OthersSame(s: Store, s': Store, zp: nat)
    requires Parts(s, zp) && s'.usage == s.usage && s'.owner == s.owner && s'.large == s.large && s'.idle == s.idle
    requires s'.zones.Keys == s.zones.Keys
    ensures forall y :: y in s'.idle ==> IdleAt(s', zp, y)
    ensures forall a :: a in s'.large ==> LargeAt(s', a)
  {
    forall y | y in s'.idle ensures IdleAt(s', zp, y) {
      assert IdleAt(s, zp, y);
      SamePages(s, s', zp, y);
    }
    forall a | a in s'.large ensures LargeAt(s', a) {
      assert LargeAt(s, a);
      forall x | a <= x < a + s'.large[a] ensures OwnedBy(s', a, x) {
        assert OwnedBy(s, a, x);
      }
    }
  }

  /** Taking a chunk hands out exactly one block that was not handed out. */
  lemma TakeFromLive(s: Store, zp: nat, z: nat, i: nat)
    requires Parts(s, zp) && i < |s.lists| && s.lists[i] != [] && s.lists[i][0] == z
    ensures Listed(s, i, z) && (s.zones[z].free != [] || s.zones[z].uindex + 1 != s.zones[z].nmax)
    ensures NotLive(s, ChunkTaken(s.zones[z]).1)
    ensures forall p: nat, n: nat :: LiveBlock(TakeFrom(s, z), p, n) <==>
              LiveBlock(s, p, n) || (p == ChunkTaken(s.zones[z]).1 && n == ClassSize(i))
  {
    TakeFromParts(s, zp, z, i);
    var o, s' := s.zones[z], TakeFrom(s, z);
    var c := ChunkTaken(o).1;
    assert ZoneAt(s, zp, z) && ZoneAt(s', zp, z);
    ChunkTakenFacts(o, z * PAGE, zp * PAGE);
    LiveInZone(s'.zones[z], z * PAGE, zp * PAGE, c);
    NotElsewhere(s, zp, z, c);
    forall p: nat, n: nat
      ensures LiveBlock(s', p, n) <==> LiveBlock(s, p, n) || (p == c && n == ClassSize(i))
    {
      ZoneChanged(s, s', z, p, n);
    }
  }

  /** Give the chunk `p` back to zone `z`; a zone that had no free chunk joins its list again. */
  ghost function GiveTo(s: Store, z: nat, p: nat): Store
    requires z in s.zones && s.zones[z].kind < |s.lists|
  {
    var o := s.zones[z];
    s.(zones := s.zones[z := ChunkGiven(o, p)],
       lists := if o.nfree == 0 then s.lists[o.kind := [z] + s.lists[o.kind]] else s.lists)
  }

  lemma GiveToParts(s: Store, zp: nat, z: nat, p: nat)
    requires Parts(s, zp) && LiveIn(s, z, p)
    ensures s.zones[z].kind < |s.lists| && Parts(GiveTo(s, z, p), zp)
  {
    assert ZoneAt(s, zp, z);
    var o := s.zones[z];
    ChunkGivenFacts(o, z * PAGE, zp * PAGE, p);
    assert ListOk(s, o.kind);
    var s' := GiveTo(s, z, p);
    if o.nfree == 0 {
      assert z in s.lists[o.kind] <==> Listed(s, o.kind, z);
      ConsNoDup(z, s.lists[o.kind]);
    }
    forall y | y in s'.zones ensures ZoneAt(s', zp, y) {
      assert ZoneAt(s, zp, y);
      SamePages(s, s', zp, y);
    }
    forall k | 0 <= k < |s'.lists| ensures ListOk(s', k) {
      assert ListOk(s, k);
      forall y ensures y in s'.lists[k] <==> Listed(s', k, y) {
        assert y in s.lists[k] <==> Listed(s, k, y);
      }
    }
    OthersSame(s, s', zp);
  }

  /** Giving back a chunk ends exactly its life. */
  lemma GiveToLive(s: Store, zp: nat, z: nat, p: nat)
    requires Parts(s, zp) && LiveIn(s, z, p)
    ensures s.zones[z].kind < |s.lists|
    ensures forall q: nat, n: nat :: LiveBlock(GiveTo(s, z, p), q, n) <==> LiveBlock(s, q, n) && q != p
  {
    GiveToParts(s, zp, z, p);
    var s' := GiveTo(s, z, p);
    assert ZoneAt(s, zp, z) && ZoneAt(s', zp, z);
    ChunkGivenFacts(s.zones[z], z * PAGE, zp * PAGE, p);
    LiveInZone(s.zones[z], z * PAGE, zp * PAGE, p);
    NotElsewhere(s, zp, z, p);
    NotElsewhere(s', zp, z, p);
    forall q: nat, n: nat ensures LiveBlock(s', q, n) <==> LiveBlock(s, q, n) && q != p {
      ZoneChanged(s, s', z, q, n);
    }
  }

  // ------------------------------------------------------- zones come and go

  /** The idle zone `z` goes into service for class `kind`, its first chunk handed out. */
  ghost function Opened(s: Store, zp: nat, kind: nat): Store
    requires s.idle != [] && kind < |s.lists| && ClassSize(kind) > 0
  {
    var z := s.idle[0];
    s.(zones := s.zones[z := NewZone(kind, ClassSize(kind), z * PAGE, zp * PAGE)],
       idle := s.idle[1..],
       lists := s.lists[kind := [z] + s.lists[kind]])
  }

  lemma OpenedParts(s: Store, zp: nat, kind: nat)
    requires Parts(s, zp) && s.idle != [] && kind < CLASSES && ClassSize(kind) > 0
    requires zp * PAGE >= 0x8000 && ClassSize(kind) <= zp * PAGE / 4
    ensures Parts(Opened(s, zp, kind), zp)
  {
    var z: nat := s.idle[0];
    var s' := Opened(s, zp, kind);
    assert z in s.idle && IdleAt(s, zp, z) && ListOk(s, kind);
    NewZoneFacts(kind, ClassSize(kind), z * PAGE, zp * PAGE);
    TailNoDup(s.idle);
    assert z in s.lists[kind] <==> Listed(s, kind, z);
    ConsNoDup(z, s.lists[kind]);
    forall y | y in s'.zones ensures ZoneAt(s', zp, y) {
      if y != z {
        assert ZoneAt(s, zp, y);
      }
      SamePages(s, s', zp, y);
    }
    forall k | 0 <= k < |s'.lists| ensures ListOk(s', k) {
      assert ListOk(s, k);
      forall y ensures y in s'.lists[k] <==> Listed(s', k, y) {
        assert y in s.lists[k] <==> Listed(s, k, y);
      }
    }
    forall y | y in s'.idle ensures IdleAt(s', zp, y) {
      assert y in s.idle && IdleAt(s, zp, y);
      SamePages(s, s', zp, y);
    }
    forall a | a in s'.large ensures LargeAt(s', a) {
      LargeSame(s, s', a);
    }
  }

  lemma LargeSame(s: Store, s': Store, a: nat)
    requires a in s.large && LargeAt(s, a) && s'.large == s.large && s'.usage == s.usage && s'.owner == s.owner
    ensures LargeAt(s', a)
  {
    forall x | a <= x < a + s'.large[a] ensures OwnedBy(s', a, x) {
      assert OwnedBy(s, a, x);
    }
  }

  lemma OpenedLive(s: Store, zp: nat, kind: nat)
    requires Parts(s, zp) && s.idle != [] && kind < CLASSES && ClassSize(kind) > 0
    requires zp * PAGE >= 0x8000 && ClassSize(kind) <= zp * PAGE / 4
    ensures var c := NewZone(kind, ClassSize(kind), s.idle[0] * PAGE, zp * PAGE).base;
            && NotLive(s, c)
            && forall p: nat, n: nat :: LiveBlock(Opened(s, zp, kind), p, n) <==>
                 LiveBlock(s, p, n) || (p == c && n == ClassSize(kind))
  {
    var z: nat := s.idle[0];
    var s' := Opened(s, zp, kind);
    var fresh0 := NewZone(kind, ClassSize(kind), z * PAGE, zp * PAGE);
    assert z in s.idle && IdleAt(s, zp, z);
    NewZoneFacts(kind, ClassSize(kind), z * PAGE, zp * PAGE);
    assert Live(fresh0, fresh0.base);
    LiveInZone(fresh0, z * PAGE, zp * PAGE, fresh0.base);
    NotElsewhere(s, zp, z, fresh0.base);
    forall p: nat, n: nat
      ensures LiveBlock(s', p, n) <==> LiveBlock(s, p, n) || (p == fresh0.base && n == ClassSize(kind))
    {
      ZoneAdded(s, s', z, p, n);
    }
  }

  /** A zone more in service. */
  lemma ZoneAdded(s: Store, s': Store, z: nat, p: nat, n: nat)
    requires z !in s.zones && z in s'.zones && s'.zones == s.zones[z := s'.zones[z]] && s'.large == s.large
    ensures LiveBlock(s', p, n) <==> LiveBlock(s, p, n) || ZoneBlock(s', z, p, n)
  {
    if y :| ZoneBlock(s', y, p, n) {
      assert y != z ==> ZoneBlock(s, y, p, n);
    }
    if y :| ZoneBlock(s, y, p, n) {
      assert ZoneBlock(s', y, p, n);
    }
    if a :| LargeBlock(s, a, p, n) {
      assert LargeBlock(s', a, p, n);
    }
    if a :| LargeBlock(s', a, p, n) {
      assert LargeBlock(s, a, p, n);
    }
  }

  /** A zone without chunks handed out leaves service. */
  ghost function Retired(s: Store, z: nat): Store
    requires z in s.zones && s.zones[z].kind < |s.lists|
  {
    var k := s.zones[z].kind;
    s.(zones := s.zones - {z}, lists := s.lists[k := Without(s.lists[k], z)], idle := [z] + s.idle)
  }

  lemma RetiredParts(s: Store, zp: nat, z: nat)
    requires Parts(s, zp) && z in s.zones && s.zones[z].nfree == s.zones[z].nmax
    ensures s.zones[z].kind < |s.lists| && Parts(Retired(s, z), zp)
  {
    assert ZoneAt(s, zp, z);
    var kind := s.zones[z].kind;
    var s' := Retired(s, z);
    assert ListOk(s, kind);
    WithoutMembers(s.lists[kind], z);
    assert z in s.idle ==> IdleAt(s, zp, z);
    ConsNoDup(z, s.idle);
    forall y | y in s'.zones ensures ZoneAt(s', zp, y) {
      assert ZoneAt(s, zp, y);
      SamePages(s, s', zp, y);
    }
    forall k | 0 <= k < |s'.lists| ensures ListOk(s', k) {
      assert ListOk(s, k);
      forall y ensures y in s'.lists[k] <==> Listed(s', k, y) {
        assert y in s.lists[k] <==> Listed(s, k, y);
      }
    }
    forall y | y in s'.idle ensures IdleAt(s', zp, y) {
      if y != z {
        assert y in s.idle && IdleAt(s, zp, y);
      }
      SamePages(s, s', zp, y);
    }
    forall a | a in s'.large ensures LargeAt(s', a) {
      LargeSame(s, s', a);
    }
  }

  lemma RetiredLive(s: Store, zp: nat, z: nat)
    requires Parts(s, zp) && z in s.zones && s.zones[z].nfree == s.zones[z].nmax
    ensures s.zones[z].kind < |s.lists|
    ensures forall p: nat, n: nat :: LiveBlock(Retired(s, z), p, n) <==> LiveBlock(s, p, n)
  {
    assert ZoneAt(s, zp, z);
    var s' := Retired(s, z);
    forall p: nat, n: nat ensures LiveBlock(s', p, n) <==> LiveBlock(s, p, n) {
      NoneLive(s.zones[z], z * PAGE, zp * PAGE, p);
      assert s.zones == s'.zones[z := s.zones[z]];
      ZoneAdded(s', s, z, p, n);
    }
  }

  // -------------------------------------------------------------------- pages

  /** The pages `[a, a + n)`. */
  function PageSet(a: nat, n: nat): (r: set<nat>)
    ensures forall x :: x in r <==> a <= x < a + n
  {
    if n == 0 then {} else PageSet(a, n - 1) + {a + n - 1}
  }

  /** The usage table after the pages of a zone at `z` were entered. */
  function ZoneUsage(usage: map<nat, Usage>, z: nat, n: nat): map<nat, Usage> {
    usage + map x | x in PageSet(z, n) :: Small(x - z)
  }

  /** The usage table after the pages of a zone at `z` were given up. */
  function NoUsage(usage: map<nat, Usage>, z: nat, n: nat): map<nat, Usage> {
    usage + map x | x in PageSet(z, n) :: Unused
  }

  ghost function Owned(owner: map<nat, nat>, a: nat, n: nat): map<nat, nat> {
    owner + map x | x in PageSet(a, n) :: a
  }

  ghost function Disowned(owner: map<nat, nat>, a: nat, n: nat): map<nat, nat> {
    owner - PageSet(a, n)
  }

  /** None of the pages `[a, a + n)` belongs to anyone. */
  ghost predicate NoOwner(s: Store, a: nat, n: nat) {
    forall x :: a <= x < a + n ==> x !in s.owner
  }

  /** New pages for a zone, not yet in service. */
  ghost function Adopted(s: Store, zp: nat, z: nat): Store {
    s.(idle := [z] + s.idle, usage := ZoneUsage(s.usage, z, zp), owner := Owned(s.owner, z, zp))
  }

  /** Changes outside the pages of a zone or large block leave it as it is. */
  lemma PagesKept(s: Store, s': Store, zp: nat, z: nat)
    requires ZonePages(s, zp, z) && forall x :: z <= x < z + zp ==> SamePage(s, s', x)
    ensures ZonePages(s', zp, z)
  {
    forall x | z <= x < z + zp ensures ZonePage(s', z, x) {
      assert ZonePage(s, z, x) && SamePage(s, s', x);
    }
  }

  ghost predicate SamePage(s: Store, s': Store, x: nat) {
    && (x in s.owner ==> x in s'.owner && s'.owner[x] == s.owner[x])
    && (x in s.usage ==> x in s'.usage && s'.usage[x] == s.usage[x])
  }

  lemma LargeKept(s: Store, s': Store, a: nat)
    requires a in s.large && LargeAt(s, a) && a in s'.large && s'.large[a] == s.large[a]
    requires forall x :: a <= x < a + s.large[a] ==> SamePage(s, s', x)
    ensures LargeAt(s', a)
  {
    assert SamePage(s, s', a);
    forall x | a <= x < a + s'.large[a] ensures OwnedBy(s', a, x) {
      assert OwnedBy(s, a, x) && SamePage(s, s', x);
    }
  }

  /** Pages that have an owner keep it and their usage. */
  ghost predicate KeepsOwned(s: Store, s': Store) {
    forall x :: x in s.owner ==> SamePage(s, s', x)
  }

  /** If owned pages keep owner and usage, zones and large blocks stay right. */
  lemma AllKept(s: Store, s': Store, zp: nat)
    requires Parts(s, zp) && KeepsOwned(s, s') && s'.zones == s.zones && s'.lists == s.lists
    ensures forall z :: z in s.zones ==> ZoneAt(s', zp, z)
    ensures forall i :: 0 <= i < |s.lists| ==> ListOk(s', i)
    ensures forall z :: z in s.idle ==> IdleAt(s', zp, z)
    ensures forall a :: a in s.large && a in s'.large && s'.large[a] == s.large[a] ==> LargeAt(s', a)
  {
    forall z | z in s.zones ensures ZoneAt(s', zp, z) {
      assert ZoneAt(s, zp, z);
      ZonePagesKept(s, s', zp, z);
    }
    forall i | 0 <= i < |s.lists| ensures ListOk(s', i) {
      assert ListOk(s, i);
      forall z ensures z in s'.lists[i] <==> Listed(s', i, z) {
        assert z in s.lists[i] <==> Listed(s, i, z);
      }
    }
    forall z | z in s.idle ensures IdleAt(s', zp, z) {
      assert IdleAt(s, zp, z);
      ZonePagesKept(s, s', zp, z);
    }
    forall a | a in s.large && a in s'.large && s'.large[a] == s.large[a] ensures LargeAt(s', a) {
      assert LargeAt(s, a);
      forall x | a <= x < a + s.large[a] ensures SamePage(s, s', x) {
        assert OwnedBy(s, a, x);
      }
      LargeKept(s, s', a);
    }
  }

  lemma ZonePagesKept(s: Store, s': Store, zp: nat, z: nat)
    requires ZonePages(s, zp, z) && KeepsOwned(s, s')
    ensures ZonePages(s', zp, z)
  {
    forall x | z <= x < z + zp ensures SamePage(s, s', x) {
      assert ZonePage(s, z, x);
    }
    PagesKept(s, s', zp, z);
  }

  lemma ZoneOwned(s: Store, zp: nat, z: nat)
    requires Parts(s, zp) && (z in s.zones || z in s.idle)
    ensures z in s.owner
  {
    assert z in s.zones ==> ZoneAt(s, zp, z);
    assert z in s.idle ==> IdleAt(s, zp, z);
    assert ZonePage(s, z, z);
  }

  lemma LargeOwned(s: Store, a: nat)
    requires a in s.large && LargeAt(s, a)
    ensures a in s.owner
  {
    assert OwnedBy(s, a, a);
  }

  /** A page where a block begins has an owner. */
  lemma LiveOwned(s: Store, zp: nat, a: nat, n: nat)
    requires Parts(s, zp) && LiveBlock(s, a * PAGE, n)
    ensures a in s.owner
  {
    var b, k := HomeOf(s, zp, a * PAGE, n);
    PositiveSize(s, zp, b, a * PAGE, n);
    assert OwnedBy(s, b, a);
  }

  lemma AdoptedParts(s: Store, zp: nat, z: nat)
    requires Parts(s, zp) && NoOwner(s, z, zp)
    ensures Parts(Adopted(s, zp, z), zp)
    ensures forall p: nat, n: nat :: LiveBlock(Adopted(s, zp, z), p, n) <==> LiveBlock(s, p, n)
  {
    var s' := Adopted(s, zp, z);
    forall x | x in s.owner ensures SamePage(s, s', x) {
    }
    AllKept(s, s', zp);
    assert z !in s.zones by {
      if z in s.zones {
        ZoneOwned(s, zp, z);
      }
    }
    assert z !in s.idle by {
      if z in s.idle {
        ZoneOwned(s, zp, z);
      }
    }
    ConsNoDup(z, s.idle);
    forall x | z <= x < z + zp ensures ZonePage(s', z, x) {
    }
    SameLive(s, s');
  }

  lemma SameLive(s: Store, s': Store)
    requires s'.zones == s.zones && s'.large == s.large
    ensures forall p: nat, n: nat :: LiveBlock(s', p, n) <==> LiveBlock(s, p, n)
  {
    forall p: nat, n: nat ensures LiveBlock(s', p, n) <==> LiveBlock(s, p, n) {
      forall y ensures ZoneBlock(s', y, p, n) <==> ZoneBlock(s, y, p, n) {
      }
      forall a ensures LargeBlock(s', a, p, n) <==> LargeBlock(s, a, p, n) {
      }
    }
  }

  /** The first idle zone gives up its pages. */
  ghost function Abandoned(s: Store, zp: nat): Store
    requires s.idle != []
  {
    var z := s.idle[0];
    s.(idle := s.idle[1..], usage := NoUsage(s.usage, z, zp), owner := Disowned(s.owner, z, zp))
  }

  lemma AbandonedParts(s: Store, zp: nat)
    requires Parts(s, zp) && s.idle != []
    ensures Parts(Abandoned(s, zp), zp)
    ensures forall p: nat, n: nat :: LiveBlock(Abandoned(s, zp), p, n) <==> LiveBlock(s, p, n)
  {
    var z: nat := s.idle[0];
    var s' := Abandoned(s, zp);
    TailNoDup(s.idle);
    assert z in s.idle && IdleAt(s, zp, z);
    forall x | z <= x < z + zp ensures OwnedBy(s, z, x) {
      assert ZonePage(s, z, x);
    }
    forall y | y in s.zones ensures ZoneAt(s', zp, y) {
      assert ZoneAt(s, zp, y);
      AwayKept(s, s', zp, z, zp, y);
    }
    forall i | 0 <= i < |s.lists| ensures ListOk(s', i) {
      assert ListOk(s, i);
      forall y ensures y in s'.lists[i] <==> Listed(s', i, y) {
        assert y in s.lists[i] <==> Listed(s, i, y);
      }
    }
    forall y | y in s'.idle ensures IdleAt(s', zp, y) {
      assert y in s.idle && IdleAt(s, zp, y);
      AwayKept(s, s', zp, z, zp, y);
    }
    forall a | a in s.large ensures LargeAt(s', a) {
      assert LargeAt(s, a);
      ZoneIsNotLarge(s, zp, z);
      forall x | a <= x < a + s.large[a] ensures SamePage(s, s', x) {
        assert OwnedBy(s, a, x);
        assert z <= x < z + zp ==> OwnedBy(s, z, x);
      }
      LargeKept(s, s', a);
    }
    SameLive(s, s');
  }

  /** Giving up the pages of `z` leaves another zone's pages alone. */
  lemma AwayKept(s: Store, s': Store, zp: nat, z: nat, n: nat, y: nat)
    requires ZonePages(s, zp, y) && y != z && forall x :: z <= x < z + n ==> OwnedBy(s, z, x)
    requires forall x: nat :: !(z <= x < z + n) ==> SamePage(s, s', x)
    ensures ZonePages(s', zp, y)
  {
    forall x | y <= x < y + zp ensures SamePage(s, s', x) {
      assert ZonePage(s, y, x);
      assert z <= x < z + n ==> OwnedBy(s, z, x);
    }
    PagesKept(s, s', zp, y);
  }

  // ------------------------------------------------------------- large blocks

  ghost function Enlarged(s: Store, a: nat, n: nat): Store {
    s.(large := s.large[a := n], usage := s.usage[a := Large(n)], owner := Owned(s.owner, a, n))
  }

  lemma EnlargedParts(s: Store, zp: nat, a: nat, n: nat)
    requires Parts(s, zp) && NoOwner(s, a, n) && n > 0
    ensures Parts(Enlarged(s, a, n), zp)
    ensures NotLive(s, a * PAGE)
    ensures forall p: nat, m: nat :: LiveBlock(Enlarged(s, a, n), p, m) <==>
              LiveBlock(s, p, m) || (p == a * PAGE && m == n * PAGE)
  {
    var s' := Enlarged(s, a, n);
    assert a !in s.owner;
    assert a !in s.large by {
      if a in s.large {
        LargeOwned(s, a);
      }
    }
    forall x | x in s.owner ensures SamePage(s, s', x) {
    }
    AllKept(s, s', zp);
    assert LargeAt(s', a) by {
      forall x | a <= x < a + n ensures OwnedBy(s', a, x) {
      }
    }
    forall m: nat ensures !LiveBlock(s, a * PAGE, m) {
      if LiveBlock(s, a * PAGE, m) {
        LiveOwned(s, zp, a, m);
      }
    }
    forall p: nat, m: nat
      ensures LiveBlock(s', p, m) <==> LiveBlock(s, p, m) || (p == a * PAGE && m == n * PAGE)
    {
      LargeAdded(s, s', a, p, m);
    }
  }

  /** A large block more. */
  lemma LargeAdded(s: Store, s': Store, a: nat, p: nat, n: nat)
    requires a !in s.large && a in s'.large && s'.large == s.large[a := s'.large[a]] && s'.zones == s.zones
    ensures LiveBlock(s', p, n) <==> LiveBlock(s, p, n) || LargeBlock(s', a, p, n)
  {
    if y :| ZoneBlock(s', y, p, n) {
      assert ZoneBlock(s, y, p, n);
    }
    if y :| ZoneBlock(s, y, p, n) {
      assert ZoneBlock(s', y, p, n);
    }
    if b :| LargeBlock(s, b, p, n) {
      assert LargeBlock(s', b, p, n);
    }
    if b :| LargeBlock(s', b, p, n) {
      assert b != a ==> LargeBlock(s, b, p, n);
    }
  }

  /** The large block at `a` is given up; its usage entry keeps its type. */
  ghost function Dropped(s: Store, a: nat): Store
    requires a in s.large
  {
    s.(large := s.large - {a}, usage := s.usage[a := Large(0)], owner := Disowned(s.owner, a, s.large[a]))
  }

  lemma DroppedParts(s: Store, zp: nat, a: nat)
    requires Parts(s, zp) && a in s.large
    ensures Parts(Dropped(s, a), zp)
    ensures forall p: nat, n: nat :: LiveBlock(Dropped(s, a), p, n) <==> LiveBlock(s, p, n) && p != a * PAGE
  {
    var s' := Dropped(s, a);
    assert LargeAt(s, a);
    forall y | y in s.zones ensures ZoneAt(s', zp, y) {
      assert ZoneAt(s, zp, y);
      ZoneIsNotLarge(s, zp, y);
      AwayKept(s, s', zp, a, s.large[a], y);
    }
    forall i | 0 <= i < |s.lists| ensures ListOk(s', i) {
      assert ListOk(s, i);
      forall y ensures y in s'.lists[i] <==> Listed(s', i, y) {
        assert y in s.lists[i] <==> Listed(s, i, y);
      }
    }
    forall y | y in s'.idle ensures IdleAt(s', zp, y) {
      assert IdleAt(s, zp, y);
      ZoneIsNotLarge(s, zp, y);
      AwayKept(s, s', zp, a, s.large[a], y);
    }
    forall b | b in s'.large ensures LargeAt(s', b) {
      assert LargeAt(s, b);
      forall x | b <= x < b + s.large[b] ensures SamePage(s, s', x) {
        assert OwnedBy(s, b, x);
        assert a <= x < a + s.large[a] ==> OwnedBy(s, a, x);
      }
      LargeKept(s, s', b);
    }
    forall p: nat, n: nat ensures LiveBlock(s', p, n) <==> LiveBlock(s, p, n) && p != a * PAGE {
      assert s.large == s'.large[a := s.large[a]];
      LargeAdded(s', s, a, p, n);
      if LiveBlock(s', a * PAGE, n) {
        LiveOwned(s', zp, a, n);
      }
    }
  }
}
