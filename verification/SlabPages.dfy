/**
 The page allocator below the slab allocator (rt-thread/src/slab.c): a list of
 runs of free pages whose headers lie in the first page of each run.  Addresses
 are page numbers.
 */
module SlabPages {
  import opened Base

  /** `pages` free pages from page `start` on. */
  datatype Run = Run(start: nat, pages: nat)

  // ------------------------------------------------------------ run lists

  ghost predicate Full(runs: seq<Run>, i: nat)
    requires i < |runs|
  {
    runs[i].pages > 0
  }

  /** Run `i` ends in front of run `i + 1`, with at least one used page between them. */
  ghost predicate Gap(runs: seq<Run>, i: nat)
    requires i + 1 < |runs|
  {
    runs[i].start + runs[i].pages < runs[i + 1].start
  }

  /** Non-empty runs in ascending order that do not even touch: each is maximal. */
  ghost predicate Canonical(runs: seq<Run>) {
    && (forall i :: 0 <= i < |runs| ==> Full(runs, i))
    && (forall i :: 0 <= i < |runs| - 1 ==> Gap(runs, i))
  }

  predicate In(r: Run, x: nat) {
    r.start <= x < r.start + r.pages
  }

  ghost predicate InAt(runs: seq<Run>, i: nat, x: nat)
    requires i < |runs|
  {
    In(runs[i], x)
  }

  /** Page `x` is free. */
  ghost predicate FreePage(runs: seq<Run>, x: nat) {
    exists i :: 0 <= i < |runs| && InAt(runs, i, x)
  }

  lemma {:induction false} Ascending(runs: seq<Run>, i: nat, j: nat)
    requires Canonical(runs) && i < j < |runs|
    ensures runs[i].start + runs[i].pages < runs[j].start
    decreases j
  {
    assert Gap(runs, j - 1) && Full(runs, j - 1);
    if i + 1 < j {
      Ascending(runs, i, j - 1);
    }
  }

  /** The page behind a run is not free. */
  lemma RunIsMaximal(runs: seq<Run>, i: nat)
    requires Canonical(runs) && i < |runs|
    ensures !FreePage(runs, runs[i].start + runs[i].pages)
    ensures runs[i].start > 0 ==> !FreePage(runs, runs[i].start - 1)
  {
    var behind: int, before: int := runs[i].start + runs[i].pages, runs[i].start - 1;
    forall j | 0 <= j < |runs| ensures !InAt(runs, j, behind) && (before >= 0 ==> !InAt(runs, j, before)) {
      if i < j {
        Ascending(runs, i, j);
      } else if j < i {
        Ascending(runs, j, i);
      }
    }
  }

  /** A stretch of free pages lies inside one run. */
  lemma {:induction false} StretchInRun(runs: seq<Run>, a: nat, n: nat) returns (i: nat)
    requires Canonical(runs) && n > 0 && forall x :: a <= x < a + n ==> FreePage(runs, x)
    ensures i < |runs| && runs[i].start <= a && a + n <= runs[i].start + runs[i].pages
    decreases n
  {
    assert FreePage(runs, a + n - 1);
    i :| 0 <= i < |runs| && InAt(runs, i, a + n - 1);
    if n > 1 {
      var j := StretchInRun(runs, a, n - 1);
      RunIsMaximal(runs, j);
      assert InAt(runs, j, a + n - 2);
      if i < j {
        Ascending(runs, i, j);
      } else if j < i {
        Ascending(runs, j, i);
      }
    }
  }

  /** The first runs agree if the free pages do. */
  lemma SameHead(a: seq<Run>, b: seq<Run>)
    requires Canonical(a) && Canonical(b) && forall x :: FreePage(a, x) <==> FreePage(b, x)
    ensures a == [] <==> b == []
    ensures a != [] ==> a[0] == b[0]
  {
    if a != [] {
      assert Full(a, 0) && InAt(a, 0, a[0].start) && FreePage(a, a[0].start);
    }
    if b != [] {
      assert Full(b, 0) && InAt(b, 0, b[0].start) && FreePage(b, b[0].start);
    }
    if a != [] && b != [] {
      HeadIsLeast(a, b[0].start);
      HeadIsLeast(b, a[0].start);
      SameEnd(a, b);
      SameEnd(b, a);
    }
  }

  lemma HeadIsLeast(runs: seq<Run>, x: nat)
    requires Canonical(runs) && runs != [] && FreePage(runs, x)
    ensures runs[0].start <= x
  {
    var i :| 0 <= i < |runs| && InAt(runs, i, x);
    if i > 0 {
      Ascending(runs, 0, i);
    }
  }

  lemma SameEnd(a: seq<Run>, b: seq<Run>)
    requires Canonical(a) && Canonical(b) && a != [] && b != [] && a[0].start == b[0].start
    requires forall x :: FreePage(a, x) <==> FreePage(b, x)
    ensures a[0].pages <= b[0].pages
  {
    RunIsMaximal(b, 0);
    var e := b[0].start + b[0].pages;
    assert b[0].pages < a[0].pages ==> InAt(a, 0, e) && FreePage(a, e);
  }

  lemma TailCanonical(runs: seq<Run>)
    requires Canonical(runs) && runs != []
    ensures Canonical(runs[1..])
    ensures forall x :: FreePage(runs[1..], x) <==> FreePage(runs, x) && !In(runs[0], x)
  {
    var t := runs[1..];
    forall i | 0 <= i < |t| ensures Full(t, i) {
      assert Full(runs, i + 1);
    }
    forall i | 0 <= i < |t| - 1 ensures Gap(t, i) {
      assert Gap(runs, i + 1);
    }
    forall x ensures FreePage(t, x) <==> FreePage(runs, x) && !In(runs[0], x) {
      if FreePage(t, x) {
        var i :| 0 <= i < |t| && InAt(t, i, x);
        assert InAt(runs, i + 1, x);
        Ascending(runs, 0, i + 1);
      }
      if FreePage(runs, x) && !In(runs[0], x) {
        var i :| 0 <= i < |runs| && InAt(runs, i, x);
        assert InAt(t, i - 1, x);
      }
    }
  }

  /** The list is determined by the set of free pages. */
  lemma {:induction false} CanonicalUnique(a: seq<Run>, b: seq<Run>)
    requires Canonical(a) && Canonical(b) && forall x :: FreePage(a, x) <==> FreePage(b, x)
    ensures a == b
    decreases |a|
  {
    SameHead(a, b);
    if a != [] {
      TailCanonical(a);
      TailCanonical(b);
      CanonicalUnique(a[1..], b[1..]);
      assert a == [a[0]] + a[1..] && b == [b[0]] + b[1..];
    }
  }

  // ----------------------------------------------------------- allocation

  /** The run list after the first `n` pages of run `i` were taken. */
  function Taken(runs: seq<Run>, i: nat, n: nat): seq<Run>
    requires i < |runs| && n <= runs[i].pages
  {
    if runs[i].pages > n then runs[i := Run(runs[i].start + n, runs[i].pages - n)] else Deleted(runs, i)
  }

  lemma ShrinkCanonical(runs: seq<Run>, i: nat, r: Run)
    requires Canonical(runs) && i < |runs| && r.pages > 0
    requires i > 0 ==> runs[i - 1].start + runs[i - 1].pages < r.start
    requires i + 1 < |runs| ==> r.start + r.pages < runs[i + 1].start
    ensures Canonical(runs[i := r])
    ensures forall x :: FreePage(runs[i := r], x) <==> In(r, x) || (FreePage(runs, x) && !In(runs[i], x))
  {
    var t := runs[i := r];
    forall k | 0 <= k < |t| ensures Full(t, k) {
      assert Full(runs, k);
    }
    forall k | 0 <= k < |t| - 1 ensures Gap(t, k) {
      assert Gap(runs, k);
    }
    forall x ensures FreePage(t, x) <==> In(r, x) || (FreePage(runs, x) && !In(runs[i], x)) {
      if FreePage(t, x) {
        var k :| 0 <= k < |t| && InAt(t, k, x);
        if k != i {
          assert InAt(runs, k, x);
          RunsDisjoint(runs, i, k, x);
        }
      }
      if In(r, x) {
        assert InAt(t, i, x);
      }
      if FreePage(runs, x) && !In(runs[i], x) {
        var k :| 0 <= k < |runs| && InAt(runs, k, x);
        assert InAt(t, k, x);
      }
    }
  }

  lemma RunsDisjoint(runs: seq<Run>, i: nat, k: nat, x: nat)
    requires Canonical(runs) && i < |runs| && k < |runs| && i != k && In(runs[k], x)
    ensures !In(runs[i], x)
  {
    if i < k {
      Ascending(runs, i, k);
    } else {
      Ascending(runs, k, i);
    }
  }

  lemma DeleteCanonical(runs: seq<Run>, i: nat)
    requires Canonical(runs) && i < |runs|
    ensures Canonical(Deleted(runs, i))
    ensures forall x :: FreePage(Deleted(runs, i), x) <==> FreePage(runs, x) && !In(runs[i], x)
  {
    var t := Deleted(runs, i);
    forall k | 0 <= k < |t| ensures Full(t, k) {
      DeletedAt(runs, i, if k < i then k else k + 1);
      assert Full(runs, if k < i then k else k + 1);
    }
    forall k | 0 <= k < |t| - 1 ensures Gap(t, k) {
      DeletedAt(runs, i, if k < i then k else k + 1);
      DeletedAt(runs, i, if k + 1 < i then k + 1 else k + 2);
      assert Full(runs, if k < i then k else k + 1);
      Ascending(runs, if k < i then k else k + 1, if k + 1 < i then k + 1 else k + 2);
    }
    forall x ensures FreePage(t, x) <==> FreePage(runs, x) && !In(runs[i], x) {
      if FreePage(t, x) {
        var k :| 0 <= k < |t| && InAt(t, k, x);
        var j := if k < i then k else k + 1;
        DeletedAt(runs, i, j);
        assert InAt(runs, j, x);
        RunsDisjoint(runs, i, j, x);
      }
      if FreePage(runs, x) && !In(runs[i], x) {
        var k :| 0 <= k < |runs| && InAt(runs, k, x);
        DeletedAt(runs, i, k);
        assert InAt(t, if k < i then k else k - 1, x);
      }
    }
  }

  /** Taking pages removes exactly these from the free pages and leaves the list canonical. */
  lemma TakenFacts(runs: seq<Run>, i: nat, n: nat)
    requires Canonical(runs) && i < |runs| && 0 < n <= runs[i].pages
    ensures Canonical(Taken(runs, i, n))
    ensures forall x :: FreePage(Taken(runs, i, n), x) <==> FreePage(runs, x) && !In(Run(runs[i].start, n), x)
  {
    if runs[i].pages > n {
      if i > 0 {
        Ascending(runs, i - 1, i);
      }
      if i + 1 < |runs| {
        Ascending(runs, i, i + 1);
      }
      var r, f := Run(runs[i].start + n, runs[i].pages - n), Run(runs[i].start, n);
      ShrinkCanonical(runs, i, r);
      forall x ensures In(r, x) || (FreePage(runs, x) && !In(runs[i], x)) <==> FreePage(runs, x) && !In(f, x) {
        assert In(runs[i], x) <==> InAt(runs, i, x);
      }
    } else {
      DeleteCanonical(runs, i);
    }
  }

  // -------------------------------------------------------------- release

  /** None of the pages `r` is free. */
  ghost predicate Used(runs: seq<Run>, r: Run) {
    forall x :: In(r, x) ==> !FreePage(runs, x)
  }

  /** Where `rt_slab_page_free` puts the run `r`, going through the list from `i` on. */
  function GivenFrom(runs: seq<Run>, r: Run, i: nat): seq<Run>
    requires i <= |runs|
    decreases |runs| - i
  {
    if i == |runs| then runs[..i] + [r] + runs[i..]
    else
      var b := runs[i];
      if b.start + b.pages == r.start then
        var b' := Run(b.start, b.pages + r.pages);
        if i + 1 < |runs| && b'.start + b'.pages == runs[i + 1].start
        then Deleted(runs[i := Run(b'.start, b'.pages + runs[i + 1].pages)], i + 1)
        else runs[i := b']
      else if b.start == r.start + r.pages then runs[i := Run(r.start, b.pages + r.pages)]
      else if b.start > r.start + r.pages then runs[..i] + [r] + runs[i..]
      else GivenFrom(runs, r, i + 1)
  }

  function Given(runs: seq<Run>, r: Run): seq<Run> {
    GivenFrom(runs, r, 0)
  }

  /** Every run before position `i` ends in front of `r` without touching it. */
  ghost predicate BeforeRun(runs: seq<Run>, r: Run, i: nat)
    requires i <= |runs|
  {
    i > 0 ==> runs[i - 1].start + runs[i - 1].pages < r.start
  }

  lemma InsertCanonical(runs: seq<Run>, i: nat, r: Run)
    requires Canonical(runs) && i <= |runs| && r.pages > 0 && BeforeRun(runs, r, i)
    requires i < |runs| ==> r.start + r.pages < runs[i].start
    ensures Canonical(runs[..i] + [r] + runs[i..])
    ensures forall x :: FreePage(runs[..i] + [r] + runs[i..], x) <==> FreePage(runs, x) || In(r, x)
  {
    var t := runs[..i] + [r] + runs[i..];
    forall k | 0 <= k < |t| ensures Full(t, k) {
      assert k != i ==> Full(runs, if k < i then k else k - 1);
    }
    forall k | 0 <= k < |t| - 1 ensures Gap(t, k) {
      assert k < i - 1 || k > i ==> Gap(runs, if k < i then k else k - 1);
    }
    forall x ensures FreePage(t, x) <==> FreePage(runs, x) || In(r, x) {
      if FreePage(t, x) {
        var k :| 0 <= k < |t| && InAt(t, k, x);
        assert k != i ==> InAt(runs, if k < i then k else k - 1, x);
      }
      if FreePage(runs, x) {
        var k :| 0 <= k < |runs| && InAt(runs, k, x);
        assert InAt(t, if k < i then k else k + 1, x);
      }
      if In(r, x) {
        assert InAt(t, i, x);
      }
    }
  }

  /** A used stretch lies wholly before or wholly behind every run. */
  lemma UsedBeside(runs: seq<Run>, r: Run, i: nat)
    requires Canonical(runs) && r.pages > 0 && Used(runs, r) && i < |runs|
    ensures runs[i].start + runs[i].pages <= r.start || r.start + r.pages <= runs[i].start
  {
    assert Full(runs, i);
    var x := if runs[i].start <= r.start then r.start else runs[i].start;
    assert In(runs[i], x) && In(r, x) ==> InAt(runs, i, x) && FreePage(runs, x);
  }

  /** Filling the whole gap behind run `i` joins it with the next. */
  lemma JoinCanonical(runs: seq<Run>, i: nat, r: Run)
    requires Canonical(runs) && i + 1 < |runs| && r.pages > 0
    requires runs[i].start + runs[i].pages == r.start && r.start + r.pages == runs[i + 1].start
    ensures var t := Deleted(runs[i := Run(runs[i].start, runs[i].pages + r.pages + runs[i + 1].pages)], i + 1);
            Canonical(t) && forall x :: FreePage(t, x) <==> FreePage(runs, x) || In(r, x)
  {
    var d := Deleted(runs, i + 1);
    var b := Run(runs[i].start, runs[i].pages + r.pages + runs[i + 1].pages);
    DeleteCanonical(runs, i + 1);
    DeletedAt(runs, i + 1, i);
    if i > 0 {
      DeletedAt(runs, i + 1, i - 1);
      Ascending(runs, i - 1, i);
    }
    if i + 2 < |runs| {
      DeletedAt(runs, i + 1, i + 2);
      Ascending(runs, i + 1, i + 2);
    }
    ShrinkCanonical(d, i, b);
    var t := d[i := b];
    assert Deleted(runs[i := b], i + 1) == t && d[i] == runs[i];
    forall x ensures FreePage(t, x) <==> FreePage(runs, x) || In(r, x) {
      assert FreePage(d, x) <==> FreePage(runs, x) && !In(runs[i + 1], x);
      assert FreePage(t, x) <==> In(b, x) || (FreePage(d, x) && !In(runs[i], x));
      assert In(b, x) <==> In(runs[i], x) || In(r, x) || In(runs[i + 1], x);
      if In(runs[i], x) {
        assert InAt(runs, i, x);
      }
      if In(runs[i + 1], x) {
        assert InAt(runs, i + 1, x);
      }
    }
  }

  lemma GrowCanonical(runs: seq<Run>, i: nat, r: Run, b: Run)
    requires Canonical(runs) && i < |runs| && b.pages > 0
    requires i > 0 ==> runs[i - 1].start + runs[i - 1].pages < b.start
    requires i + 1 < |runs| ==> b.start + b.pages < runs[i + 1].start
    requires forall x :: In(b, x) <==> In(runs[i], x) || In(r, x)
    ensures Canonical(runs[i := b])
    ensures forall x :: FreePage(runs[i := b], x) <==> FreePage(runs, x) || In(r, x)
  {
    ShrinkCanonical(runs, i, b);
    forall x | In(runs[i], x) ensures FreePage(runs, x) {
      assert InAt(runs, i, x);
    }
  }

  /** Freeing adds exactly the given pages and leaves the list canonical. */
  lemma {:induction false} GivenFacts(runs: seq<Run>, r: Run, i: nat)
    requires Canonical(runs) && r.pages > 0 && Used(runs, r) && i <= |runs| && BeforeRun(runs, r, i)
    ensures Canonical(GivenFrom(runs, r, i))
    ensures forall x :: FreePage(GivenFrom(runs, r, i), x) <==> FreePage(runs, x) || In(r, x)
    decreases |runs| - i
  {
    if i == |runs| {
      InsertCanonical(runs, i, r);
    } else {
      var b := runs[i];
      UsedBeside(runs, r, i);
      if i + 1 < |runs| {
        UsedBeside(runs, r, i + 1);
        Ascending(runs, i, i + 1);
        assert Full(runs, i + 1);
      }
      if i > 0 {
        Ascending(runs, i - 1, i);
      }
      assert Full(runs, i);
      if b.start + b.pages == r.start {
        if i + 1 < |runs| && r.start + r.pages == runs[i + 1].start {
          JoinCanonical(runs, i, r);
        } else {
          GrowCanonical(runs, i, r, Run(b.start, b.pages + r.pages));
        }
      } else if b.start == r.start + r.pages {
        GrowCanonical(runs, i, r, Run(r.start, b.pages + r.pages));
      } else if b.start > r.start + r.pages {
        InsertCanonical(runs, i, r);
      } else {
        GivenFacts(runs, r, i + 1);
      }
    }
  }

  /** Freeing what was just allocated restores the identical list. */
  lemma GivenUndoesTaken(runs: seq<Run>, i: nat, n: nat)
    requires Canonical(runs) && i < |runs| && 0 < n <= runs[i].pages
    ensures Given(Taken(runs, i, n), Run(runs[i].start, n)) == runs
  {
    var r := Run(runs[i].start, n);
    TakenFacts(runs, i, n);
    GivenFacts(Taken(runs, i, n), r, 0);
    forall x | In(r, x) ensures FreePage(runs, x) {
      assert InAt(runs, i, x);
    }
    CanonicalUnique(Given(Taken(runs, i, n), r), runs);
  }

  // ------------------------------------------------------------- page headers

  /** The address of run `i`, or null behind the last run. */
  function StartOf(runs: seq<Run>, i: nat): Option<nat> {
    if i < |runs| then Some(runs[i].start) else None
  }

  /** The header in the first page of run `i`: its size and the next run. */
  ghost predicate HeaderAt(next: map<nat, Option<nat>>, pages: map<nat, nat>, runs: seq<Run>, i: nat)
    requires i < |runs|
  {
    var a := runs[i].start;
    a in next && a in pages && pages[a] == runs[i].pages && next[a] == StartOf(runs, i + 1)
  }

  ghost predicate Spelled(first: Option<nat>, next: map<nat, Option<nat>>, pages: map<nat, nat>, runs: seq<Run>) {
    first == StartOf(runs, 0) && forall i :: 0 <= i < |runs| ==> HeaderAt(next, pages, runs, i)
  }

  ghost predicate DistinctStarts(runs: seq<Run>) {
    forall i, j :: 0 <= i < j < |runs| ==> StartsDiffer(runs, i, j)
  }

  ghost predicate StartsDiffer(runs: seq<Run>, i: nat, j: nat)
    requires i < |runs| && j < |runs|
  {
    runs[i].start != runs[j].start
  }

  lemma CanonicalDistinct(runs: seq<Run>)
    requires Canonical(runs)
    ensures DistinctStarts(runs)
  {
    forall i, j | 0 <= i < j < |runs| ensures StartsDiffer(runs, i, j) {
      Ascending(runs, i, j);
    }
  }

  lemma StartApart(runs: seq<Run>, i: nat, j: nat)
    requires DistinctStarts(runs) && i < |runs| && j < |runs| && i != j
    ensures runs[i].start != runs[j].start
  {
    assert i < j ==> StartsDiffer(runs, i, j);
    assert j < i ==> StartsDiffer(runs, j, i);
  }

  /** The links with the place that leads to run `i` set to `v`: the list head or the link of run `i - 1`. */
  function Relinked(next: map<nat, Option<nat>>, runs: seq<Run>, i: nat, v: Option<nat>): map<nat, Option<nat>>
    requires i <= |runs|
  {
    if i == 0 then next else next[runs[i - 1].start := v]
  }

  lemma SpelledReplace(first: Option<nat>, next: map<nat, Option<nat>>, pages: map<nat, nat>, runs: seq<Run>, i: nat, r: Run)
    requires Spelled(first, next, pages, runs) && i < |runs| && DistinctStarts(runs) && DistinctStarts(runs[i := r])
    ensures Spelled(if i == 0 then Some(r.start) else first,
                    Relinked(next[r.start := StartOf(runs, i + 1)], runs, i, Some(r.start)),
                    pages[r.start := r.pages], runs[i := r])
  {
    var t := runs[i := r];
    var next' := Relinked(next[r.start := StartOf(runs, i + 1)], runs, i, Some(r.start));
    var pages' := pages[r.start := r.pages];
    forall k | 0 <= k < |t| ensures HeaderAt(next', pages', t, k) {
      assert HeaderAt(next, pages, runs, k);
      if k != i {
        StartApart(t, k, i);
      }
      if i > 0 && k != i - 1 {
        StartApart(t, k, i - 1);
      }
    }
  }

  lemma SpelledDelete(first: Option<nat>, next: map<nat, Option<nat>>, pages: map<nat, nat>, runs: seq<Run>, i: nat)
    requires Spelled(first, next, pages, runs) && i < |runs| && DistinctStarts(runs)
    ensures Spelled(if i == 0 then StartOf(runs, 1) else first, Relinked(next, runs, i, StartOf(runs, i + 1)), pages, Deleted(runs, i))
  {
    var t := Deleted(runs, i);
    var next' := Relinked(next, runs, i, StartOf(runs, i + 1));
    forall k | 0 <= k < |t| ensures HeaderAt(next', pages, t, k) {
      var j := if k < i then k else k + 1;
      assert HeaderAt(next, pages, runs, j);
      if i > 0 && j != i - 1 {
        StartApart(runs, j, i - 1);
      }
    }
  }

  lemma SpelledInsert(first: Option<nat>, next: map<nat, Option<nat>>, pages: map<nat, nat>, runs: seq<Run>, i: nat, r: Run)
    requires Spelled(first, next, pages, runs) && i <= |runs| && DistinctStarts(runs)
    requires forall k :: 0 <= k < |runs| ==> runs[k].start != r.start
    ensures Spelled(if i == 0 then Some(r.start) else first,
                    Relinked(next[r.start := StartOf(runs, i)], runs, i, Some(r.start)),
                    pages[r.start := r.pages], runs[..i] + [r] + runs[i..])
  {
    var t := runs[..i] + [r] + runs[i..];
    var next' := Relinked(next[r.start := StartOf(runs, i)], runs, i, Some(r.start));
    var pages' := pages[r.start := r.pages];
    forall k | 0 <= k < |t| ensures HeaderAt(next', pages', t, k) {
      if k != i {
        var j := if k < i then k else k - 1;
        assert HeaderAt(next, pages, runs, j) && t[k] == runs[j];
        if i > 0 && j != i - 1 {
          StartApart(runs, j, i - 1);
        }
      }
    }
  }

  // ----------------------------------------------------------------- the code

  /** No stretch of `n` free pages exists. */
  ghost predicate NoStretch(runs: seq<Run>, n: nat) {
    forall a :: !AllFree(runs, a, n)
  }

  ghost predicate AllFree(runs: seq<Run>, a: nat, n: nat) {
    forall x :: a <= x < a + n ==> FreePage(runs, x)
  }

  /** Where the lowest run with `n` pages starts. */
  function LowestFit(runs: seq<Run>, n: nat): Option<nat> {
    if runs == [] then None
    else if runs[0].pages >= n then Some(runs[0].start)
    else LowestFit(runs[1..], n)
  }

  /** Run `i` is the lowest with `n` pages. */
  ghost predicate FirstFit(runs: seq<Run>, i: nat, n: nat) {
    i < |runs| && runs[i].pages >= n && forall k :: 0 <= k < i ==> TooSmall(runs, k, n)
  }

  ghost predicate TooSmall(runs: seq<Run>, k: nat, n: nat)
    requires k < |runs|
  {
    runs[k].pages < n
  }

  class PageList {
    var first: Option<nat>              // page_list
    var next: map<nat, Option<nat>>
    var pages: map<nat, nat>            // the field `page` of a header
    ghost var runs: seq<Run>

    ghost predicate Valid()
      reads this
    {
      Canonical(runs) && Spelled(first, next, pages, runs)
    }

    /** `rt_slab_page_init`: the pages of the pool are free. */
    constructor (addr: nat, npages: nat)
      requires npages > 0
      ensures Valid() && runs == [Run(addr, npages)]
    {
      first, next, pages := Some(addr), map[addr := None], map[addr := npages];
      runs := [Run(addr, npages)];
      new;
      assert Full(runs, 0) && HeaderAt(next, pages, runs, 0);
    }

    /** Set the place that leads to run `i`: the list head, or the link of the run in front. */
    method SetLink(prev: Option<nat>, v: Option<nat>, ghost i: nat)
      requires i <= |runs| && prev == (if i == 0 then None else StartOf(runs, i - 1))
      modifies this`first, this`next
      ensures first == (if i == 0 then v else old(first)) && next == Relinked(old(next), runs, i, v)
    {
      if prev.None? {
        first := v;
      } else {
        next := next[prev.value := v];
      }
    }

    /** `rt_slab_page_alloc`. */
    method Alloc(npages: nat) returns (b: Option<nat>, ghost i: nat)
      requires Valid()
      modifies this
      ensures Valid()
      ensures b == if npages == 0 then None else LowestFit(old(runs), npages)
      ensures b.None? <==> npages == 0 || NoStretch(old(runs), npages)
      ensures b.None? ==> runs == old(runs)
      ensures b.Some? ==> FirstFit(old(runs), i, npages) && b == Some(old(runs)[i].start) && runs == Taken(old(runs), i, npages)
      ensures b.Some? ==> AllFree(old(runs), b.value, npages)
      ensures b.Some? ==> forall x :: FreePage(runs, x) <==> FreePage(old(runs), x) && !In(Run(b.value, npages), x)
    {
      i := 0;
      if npages == 0 {
        return None, 0;
      }
      var prev: Option<nat> := None;
      b := first;
      while b.Some?
        invariant Valid() && runs == old(runs) && i <= |runs| && b == StartOf(runs, i)
        invariant prev == if i == 0 then None else StartOf(runs, i - 1)
        invariant forall k :: 0 <= k < i ==> TooSmall(runs, k, npages)
        decreases |runs| - i
      {
        assert HeaderAt(next, pages, runs, i);
        if pages[b.value] >= npages {
          LowestFitIs(runs, i, npages);
          TakePages(b.value, npages, prev, i);
          return;
        }
        prev := b;
        b := next[b.value];
        i := i + 1;
      }
      LowestFitIs(runs, i, npages);
      NothingBigEnough(runs, npages);
    }

    /** Take the first pages of the run at `b`. */
    method TakePages(b: nat, npages: nat, prev: Option<nat>, ghost i: nat)
      requires Valid() && i < |runs| && runs[i].start == b && 0 < npages <= runs[i].pages
      requires prev == if i == 0 then None else StartOf(runs, i - 1)
      modifies this
      ensures Valid() && runs == Taken(old(runs), i, npages)
      ensures AllFree(old(runs), b, npages)
      ensures forall x :: FreePage(runs, x) <==> FreePage(old(runs), x) && !In(Run(b, npages), x)
    {
      assert HeaderAt(next, pages, runs, i);
      TakenFacts(runs, i, npages);
      CanonicalDistinct(runs);
      CanonicalDistinct(Taken(runs, i, npages));
      forall x | b <= x < b + npages ensures FreePage(runs, x) {
        assert InAt(runs, i, x);
      }
      if pages[b] > npages {
        var n := b + npages;
        SpelledReplace(first, next, pages, runs, i, Run(n, pages[b] - npages));
        next := next[n := next[b]];
        pages := pages[n := pages[b] - npages];
        SetLink(prev, Some(n), i);
      } else {
        SpelledDelete(first, next, pages, runs, i);
        SetLink(prev, next[b], i);
      }
      runs := Taken(runs, i, npages);
    }

    /** `rt_slab_page_free` of `npages` pages in use at `n`. */
    method Free(n: nat, npages: nat)
      requires Valid() && npages > 0 && Used(runs, Run(n, npages))
      modifies this
      ensures Valid() && runs == Given(old(runs), Run(n, npages))
      ensures forall x :: FreePage(runs, x) <==> FreePage(old(runs), x) || In(Run(n, npages), x)
    {
      ghost var r := Run(n, npages);
      ghost var i := 0;
      var prev: Option<nat> := None;
      var b := first;
      GivenFacts(runs, r, 0);
      while b.Some?
        invariant Valid() && runs == old(runs) && i <= |runs| && b == StartOf(runs, i)
        invariant prev == if i == 0 then None else StartOf(runs, i - 1)
        invariant Given(runs, r) == GivenFrom(runs, r, i)
        decreases |runs| - i
      {
        assert HeaderAt(next, pages, runs, i);
        if b.value + pages[b.value] == n {
          Extend(b.value, npages, i, r);
          return;
        }
        if b.value == n + npages {
          Prepend(b.value, n, npages, prev, i);
          return;
        }
        if b.value > n + npages {
          break;
        }
        prev := b;
        b := next[b.value];
        i := i + 1;
      }
      forall k | 0 <= k < |runs| ensures runs[k].start != n {
        UsedBeside(runs, r, k);
        assert Full(runs, k);
      }
      Insert(n, npages, prev, b, i);
    }

    /** The freed pages follow the run at `b`, and may reach the next one. */
    method Extend(b: nat, npages: nat, ghost i: nat, ghost r: Run)
      requires Valid() && i < |runs| && runs[i].start == b && b + runs[i].pages == r.start && r.pages == npages
      requires Canonical(GivenFrom(runs, r, i))
      modifies this
      ensures Valid() && runs == GivenFrom(old(runs), r, i)
    {
      CanonicalDistinct(runs);
      CanonicalDistinct(GivenFrom(runs, r, i));
      assert HeaderAt(next, pages, runs, i);
      ghost var grown := runs[i := Run(b, runs[i].pages + npages)];
      GrownSpelled(first, next, pages, runs, i, npages);
      pages := pages[b := pages[b] + npages];
      if next[b] == Some(b + pages[b]) {
        assert HeaderAt(next, pages, grown, i + 1);
        GrownSpelled(first, next, pages, grown, i, runs[i + 1].pages);
        pages := pages[b := pages[b] + pages[next[b].value]];
        assert grown[i := Run(b, grown[i].pages + runs[i + 1].pages)] == runs[i := Run(b, runs[i].pages + npages + runs[i + 1].pages)];
        SpelledDelete(first, next, pages, runs[i := Run(b, runs[i].pages + npages + runs[i + 1].pages)], i + 1);
        next := next[b := next[next[b].value]];
      }
      runs := GivenFrom(runs, r, i);
    }

    /** The freed pages end where the run at `b` begins. */
    method Prepend(b: nat, n: nat, npages: nat, prev: Option<nat>, ghost i: nat)
      requires Valid() && i < |runs| && runs[i].start == b == n + npages && b + runs[i].pages != n
      requires prev == if i == 0 then None else StartOf(runs, i - 1)
      requires Canonical(GivenFrom(runs, Run(n, npages), i))
      modifies this
      ensures Valid() && runs == GivenFrom(old(runs), Run(n, npages), i)
    {
      CanonicalDistinct(runs);
      CanonicalDistinct(GivenFrom(runs, Run(n, npages), i));
      assert HeaderAt(next, pages, runs, i);
      SpelledReplace(first, next, pages, runs, i, Run(n, pages[b] + npages));
      pages := pages[n := pages[b] + npages];
      next := next[n := next[b]];
      SetLink(prev, Some(n), i);
      runs := GivenFrom(runs, Run(n, npages), i);
    }

    /** The freed pages touch no run. */
    method Insert(n: nat, npages: nat, prev: Option<nat>, b: Option<nat>, ghost i: nat)
      requires Valid() && i <= |runs| && b == StartOf(runs, i) && prev == (if i == 0 then None else StartOf(runs, i - 1))
      requires forall k :: 0 <= k < |runs| ==> runs[k].start != n
      requires i < |runs| ==> runs[i].start > n + npages
      requires Canonical(GivenFrom(runs, Run(n, npages), i))
      modifies this
      ensures Valid() && runs == GivenFrom(old(runs), Run(n, npages), i)
    {
      CanonicalDistinct(runs);
      SpelledInsert(first, next, pages, runs, i, Run(n, npages));
      pages := pages[n := npages];
      next := next[n := b];
      SetLink(prev, Some(n), i);
      runs := GivenFrom(runs, Run(n, npages), i);
    }
  }

  /** Only the size of run `i` changes. */
  lemma GrownSpelled(first: Option<nat>, next: map<nat, Option<nat>>, pages: map<nat, nat>, runs: seq<Run>, i: nat, n: nat)
    requires Spelled(first, next, pages, runs) && i < |runs| && DistinctStarts(runs)
    ensures runs[i].start in pages
    ensures Spelled(first, next, pages[runs[i].start := runs[i].pages + n], runs[i := Run(runs[i].start, runs[i].pages + n)])
    ensures DistinctStarts(runs[i := Run(runs[i].start, runs[i].pages + n)])
  {
    var t := runs[i := Run(runs[i].start, runs[i].pages + n)];
    assert HeaderAt(next, pages, runs, i);
    var pages' := pages[runs[i].start := runs[i].pages + n];
    forall k | 0 <= k < |t| ensures HeaderAt(next, pages', t, k) {
      assert HeaderAt(next, pages, runs, k);
      if k != i {
        StartApart(runs, k, i);
      }
    }
    forall j, k | 0 <= j < k < |t| ensures StartsDiffer(t, j, k) {
      assert StartsDiffer(runs, j, k);
    }
  }

  lemma {:induction false} LowestFitIs(runs: seq<Run>, i: nat, n: nat)
    requires i <= |runs| && (forall k :: 0 <= k < i ==> TooSmall(runs, k, n)) && (i < |runs| ==> runs[i].pages >= n)
    ensures LowestFit(runs, n) == StartOf(runs, i)
  {
    if i > 0 {
      assert TooSmall(runs, 0, n);
      forall k | 0 <= k < i - 1 ensures TooSmall(runs[1..], k, n) {
        assert TooSmall(runs, k + 1, n);
      }
      LowestFitIs(runs[1..], i - 1, n);
    }
  }

  /** If every run is too small, no stretch of free pages is long enough. */
  lemma NothingBigEnough(runs: seq<Run>, n: nat)
    requires Canonical(runs) && n > 0 && forall k :: 0 <= k < |runs| ==> TooSmall(runs, k, n)
    ensures NoStretch(runs, n)
  {
    forall k | 0 <= k < |runs| ensures runs[k].pages < n {
      assert TooSmall(runs, k, n);
    }
    forall a ensures !AllFree(runs, a, n) {
      if AllFree(runs, a, n) {
        var i := StretchInRun(runs, a, n);
      }
    }
  }
}
