/**
 Worst-case stack usage over a call graph (rt-thread/tools/WCS.py): a depth-first
 search that remembers what it has found.
 */
module StackUsage {
  import opened Base

  /** Functions are numbered; `missing` are the called names no function was found for. */
  datatype Graph = Graph(calls: seq<seq<nat>>, ptrCall: seq<bool>, localStack: seq<nat>, missing: seq<set<string>>)

  datatype Wcs = Unbounded | Bytes(n: nat)

  ghost predicate GraphOk(g: Graph) {
    && |g.ptrCall| == |g.localStack| == |g.missing| == |g.calls|
    && forall f :: 0 <= f < |g.calls| ==> CalleesOk(g, f)
  }

  ghost predicate CalleesOk(g: Graph, f: nat)
    requires f < |g.calls|
  {
    Below(g.calls[f], |g.calls|)
  }

  // --------------------------------------------------------------- call paths

  ghost predicate Edge(g: Graph, a: nat, b: nat) {
    a < |g.calls| && b in g.calls[a]
  }

  ghost predicate StepAt(g: Graph, p: seq<nat>, i: nat)
    requires i < |p|
  {
    p[i] < |g.calls| && (i + 1 < |p| ==> Edge(g, p[i], p[i + 1]))
  }

  /** `p` is a chain of calls that begins with `f`. */
  ghost predicate Path(g: Graph, f: nat, p: seq<nat>) {
    p != [] && p[0] == f && forall i :: 0 <= i < |p| ==> StepAt(g, p, i)
  }

  /** The stack a chain of calls needs. */
  ghost function Cost(g: Graph, p: seq<nat>): nat
    requires |g.localStack| == |g.calls|
  {
    if p == [] then 0 else (if p[0] < |g.calls| then g.localStack[p[0]] else 0) + Cost(g, p[1..])
  }

  /** The chain ends in a call through a pointer, or in a function that is already on it. */
  ghost predicate Endless(g: Graph, p: seq<nat>)
    requires p != [] && p[|p| - 1] < |g.ptrCall|
  {
    g.ptrCall[p[|p| - 1]] || exists i :: 0 <= i < |p| - 1 && p[i] == p[|p| - 1]
  }

  ghost predicate BadPath(g: Graph, f: nat, p: seq<nat>)
    requires |g.ptrCall| == |g.calls|
  {
    Path(g, f, p) && StepAt(g, p, |p| - 1) && Endless(g, p)
  }

  /** `f` reaches a pointer call or recursion. */
  ghost predicate Bad(g: Graph, f: nat)
    requires |g.ptrCall| == |g.calls|
  {
    exists p :: BadPath(g, f, p)
  }

  /** `v` is the most stack any chain of calls from `f` needs. */
  ghost predicate IsMax(g: Graph, f: nat, v: nat)
    requires |g.localStack| == |g.calls|
  {
    && (forall p :: Path(g, f, p) ==> Cost(g, p) <= v)
    && (exists p :: Path(g, f, p) && Cost(g, p) == v)
  }

  ghost predicate NeedsBy(g: Graph, f: nat, p: seq<nat>, name: string)
    requires |g.missing| == |g.calls|
  {
    Path(g, f, p) && StepAt(g, p, |p| - 1) && name in g.missing[p[|p| - 1]]
  }

  /** Some function reached from `f` calls the missing function `name`. */
  ghost predicate Needs(g: Graph, f: nat, name: string)
    requires |g.missing| == |g.calls|
  {
    exists p :: NeedsBy(g, f, p, name)
  }

  lemma PathCons(g: Graph, f: nat, c: nat, p: seq<nat>)
    requires Edge(g, f, c) && Path(g, c, p)
    ensures Path(g, f, [f] + p)
  {
    var q := [f] + p;
    forall i | 0 <= i < |q| ensures StepAt(g, q, i) {
      if i > 0 {
        assert StepAt(g, p, i - 1) && q[i] == p[i - 1];
        assert i + 1 < |q| ==> q[i + 1] == p[i];
      }
    }
  }

  lemma PathTail(g: Graph, f: nat, p: seq<nat>)
    requires Path(g, f, p) && |p| > 1
    ensures Edge(g, f, p[1]) && Path(g, p[1], p[1..])
  {
    assert StepAt(g, p, 0);
    forall i | 0 <= i < |p| - 1 ensures StepAt(g, p[1..], i) {
      assert StepAt(g, p, i + 1);
    }
  }

  lemma PathOne(g: Graph, f: nat)
    requires f < |g.calls|
    ensures Path(g, f, [f])
  {
  }

  lemma PathSnoc(g: Graph, f: nat, p: seq<nat>, c: nat)
    requires Path(g, f, p) && StepAt(g, p, |p| - 1) && Edge(g, p[|p| - 1], c) && c < |g.calls|
    ensures Path(g, f, p + [c])
  {
    var q := p + [c];
    forall i | 0 <= i < |q| ensures StepAt(g, q, i) {
      if i < |p| {
        assert StepAt(g, p, i) && q[i] == p[i];
        assert i + 1 < |p| ==> q[i + 1] == p[i + 1];
      }
    }
  }

  /** The stack of a chain is the sum over its functions: of one function, and of two chains after each other. */
  lemma {:induction false} CostIs(g: Graph, p: seq<nat>, q: seq<nat>)
    requires |g.localStack| == |g.calls|
    ensures Cost(g, []) == 0 && forall f :: 0 <= f < |g.calls| ==> Cost(g, [f]) == g.localStack[f]
    ensures Cost(g, p + q) == Cost(g, p) + Cost(g, q)
  {
    if p == [] {
      assert p + q == q;
    } else {
      assert (p + q)[1..] == p[1..] + q;
      CostIs(g, p[1..], q);
    }
  }

  // ------------------------------------------------- one step of the recursion

  lemma BadByCallee(g: Graph, f: nat, c: nat)
    requires GraphOk(g) && Edge(g, f, c) && Bad(g, c)
    ensures Bad(g, f)
  {
    var p :| BadPath(g, c, p);
    PathCons(g, f, c, p);
    var q := [f] + p;
    assert StepAt(g, q, |q| - 1);
    if !g.ptrCall[p[|p| - 1]] {
      var i :| 0 <= i < |p| - 1 && p[i] == p[|p| - 1];
      assert q[i + 1] == q[|q| - 1];
    }
    assert BadPath(g, f, q);
  }

  lemma BadByPointer(g: Graph, f: nat)
    requires GraphOk(g) && f < |g.calls| && g.ptrCall[f]
    ensures Bad(g, f)
  {
    PathOne(g, f);
    assert StepAt(g, [f], 0);
    assert BadPath(g, f, [f]);
  }

  /** A function that reaches trouble calls through a pointer or has a callee that reaches trouble. */
  lemma BadFrom(g: Graph, f: nat) returns (c: nat)
    requires GraphOk(g) && Bad(g, f) && f < |g.calls| && !g.ptrCall[f]
    ensures Edge(g, f, c) && Bad(g, c)
  {
    var p :| BadPath(g, f, p);
    assert |p| > 1;
    PathTail(g, f, p);
    c := p[1];
    var q := p[1..];
    assert StepAt(g, p, |p| - 1) && StepAt(g, q, |q| - 1);
    if g.ptrCall[p[|p| - 1]] {
      assert BadPath(g, c, q);
    } else {
      var i :| 0 <= i < |p| - 1 && p[i] == p[|p| - 1];
      if i > 0 {
        assert q[i - 1] == q[|q| - 1];
        assert BadPath(g, c, q);
      } else {
        assert StepAt(g, p, 1) && q[|q| - 1] == f;
        PathSnoc(g, c, q, c);
        var r := q + [c];
        assert StepAt(g, r, |r| - 1) && r[0] == r[|r| - 1];
        assert BadPath(g, c, r);
      }
    }
  }

  lemma NotBad(g: Graph, f: nat)
    requires GraphOk(g) && f < |g.calls| && !g.ptrCall[f] && forall c :: Edge(g, f, c) ==> !Bad(g, c)
    ensures !Bad(g, f)
  {
    if Bad(g, f) {
      var c := BadFrom(g, f);
    }
  }

  /** All chains of calls from the first `n` callees of `f` need at most `v`. */
  ghost predicate CalleesWithin(g: Graph, f: nat, n: nat, v: nat)
    requires GraphOk(g) && f < |g.calls| && n <= |g.calls[f]|
  {
    && (forall j :: 0 <= j < n ==> CalleeWithin(g, g.calls[f][j], v))
    && (v > 0 ==> exists c, p :: Edge(g, f, c) && Path(g, c, p) && Cost(g, p) == v)
  }

  ghost predicate CalleeWithin(g: Graph, c: nat, v: nat)
    requires GraphOk(g)
  {
    !Bad(g, c) && forall p :: Path(g, c, p) ==> Cost(g, p) <= v
  }

  lemma MaxFromCallees(g: Graph, f: nat, v: nat)
    requires GraphOk(g) && f < |g.calls| && !g.ptrCall[f] && CalleesWithin(g, f, |g.calls[f]|, v)
    ensures !Bad(g, f) && IsMax(g, f, v + g.localStack[f])
  {
    forall c | Edge(g, f, c) ensures !Bad(g, c) {
      var j :| 0 <= j < |g.calls[f]| && g.calls[f][j] == c;
      assert CalleeWithin(g, g.calls[f][j], v);
    }
    NotBad(g, f);
    forall p | Path(g, f, p) ensures Cost(g, p) <= v + g.localStack[f] {
      if |p| > 1 {
        PathTail(g, f, p);
        var j :| 0 <= j < |g.calls[f]| && g.calls[f][j] == p[1];
        assert CalleeWithin(g, g.calls[f][j], v);
      } else {
        assert p == [f] && p[1..] == [];
      }
    }
    if v > 0 {
      var c, p :| Edge(g, f, c) && Path(g, c, p) && Cost(g, p) == v;
      PathCons(g, f, c, p);
      assert ([f] + p)[1..] == p;
      assert Cost(g, [f] + p) == v + g.localStack[f];
    } else {
      PathOne(g, f);
      assert Cost(g, [f]) == g.localStack[f];
    }
  }

  /** What `f` needs is what it misses itself or what a callee needs. */
  lemma NeedsFromCallees(g: Graph, f: nat, name: string)
    requires GraphOk(g) && f < |g.calls|
    ensures Needs(g, f, name) <==> name in g.missing[f] || exists c :: Edge(g, f, c) && Needs(g, c, name)
  {
    if Needs(g, f, name) {
      var p :| NeedsBy(g, f, p, name);
      if |p| > 1 {
        PathTail(g, f, p);
        assert StepAt(g, p[1..], |p| - 2);
        assert NeedsBy(g, p[1], p[1..], name);
      }
    }
    if name in g.missing[f] {
      PathOne(g, f);
      assert StepAt(g, [f], 0);
      assert NeedsBy(g, f, [f], name);
    }
    if exists c :: Edge(g, f, c) && Needs(g, c, name) {
      var c :| Edge(g, f, c) && Needs(g, c, name);
      var p :| NeedsBy(g, c, p, name);
      PathCons(g, f, c, p);
      var q := [f] + p;
      assert StepAt(g, q, |q| - 1);
      assert NeedsBy(g, f, q, name);
    }
  }

  /** The maximum is unique, so the order in which functions are visited cannot matter. */
  lemma MaxUnique(g: Graph, f: nat, v: nat, w: nat)
    requires GraphOk(g) && IsMax(g, f, v) && IsMax(g, f, w)
    ensures v == w
  {
  }

  // ------------------------------------------------------------------ recursion

  /** Calling back into a function whose call chain led here is recursion. */
  lemma CycleIsBad(g: Graph, parents: seq<nat>, f: nat, i: nat)
    requires GraphOk(g) && Chain(g, parents + [f]) && i < |parents| && parents[i] == f
    ensures Bad(g, f)
  {
    var p := (parents + [f])[i..];
    forall k | 0 <= k < |p| ensures StepAt(g, p, k) {
      assert StepAt(g, parents + [f], i + k);
    }
    assert p[0] == p[|p| - 1] == f;
    assert BadPath(g, f, p);
  }

  /** Each function calls the next. */
  ghost predicate Chain(g: Graph, p: seq<nat>) {
    forall i :: 0 <= i < |p| ==> StepAt(g, p, i)
  }

  lemma ChainSnoc(g: Graph, p: seq<nat>, c: nat)
    requires Chain(g, p) && p != [] && Edge(g, p[|p| - 1], c) && c < |g.calls|
    ensures Chain(g, p + [c])
  {
    var q := p + [c];
    forall i | 0 <= i < |q| ensures StepAt(g, q, i) {
      assert i < |p| ==> StepAt(g, p, i) && q[i] == p[i];
      assert i + 1 < |p| ==> q[i + 1] == p[i + 1];
    }
  }

  // ------------------------------------------------------------------ the code

  /** Everything remembered is true. */
  ghost predicate Sound(g: Graph, wcs: map<nat, Wcs>, missing: seq<set<string>>)
    requires GraphOk(g)
  {
    |missing| == |g.calls| && forall f :: f in wcs ==> f < |g.calls| && Right(g, f, wcs[f], missing[f])
  }

  /** The result `w`, and for a bounded function also the missing names `m`, are what they should be. */
  ghost predicate Right(g: Graph, f: nat, w: Wcs, m: set<string>)
    requires GraphOk(g)
  {
    match w
    case Unbounded => Bad(g, f)
    case Bytes(v) => !Bad(g, f) && IsMax(g, f, v) && AllNeeded(g, f, m)
  }

  ghost predicate AllNeeded(g: Graph, f: nat, m: set<string>)
    requires GraphOk(g)
  {
    forall name :: name in m <==> Needs(g, f, name)
  }

  lemma RecordSound(g: Graph, wcs: map<nat, Wcs>, missing: seq<set<string>>, f: nat, w: Wcs)
    requires GraphOk(g) && Sound(g, wcs, missing) && f < |g.calls| && Right(g, f, w, missing[f])
    ensures Sound(g, wcs[f := w], missing)
  {
  }

  /** Adding what a callee needs to what is known to be missing keeps everything true. */
  lemma GatherSound(g: Graph, wcs: map<nat, Wcs>, missing: seq<set<string>>, f: nat, c: nat)
    requires GraphOk(g) && Sound(g, wcs, missing) && Edge(g, f, c) && c < |g.calls| && AllNeeded(g, c, missing[c])
    ensures Sound(g, wcs, missing[f := missing[f] + missing[c]])
  {
    var m := missing[f] + missing[c];
    if f in wcs && wcs[f].Bytes? {
      assert Right(g, f, wcs[f], missing[f]);
      forall name ensures name in m <==> Needs(g, f, name) {
        NeedsFromCallees(g, f, name);
      }
    }
    forall h | h in wcs ensures h < |g.calls| && Right(g, h, wcs[h], if h == f then m else missing[h]) {
      assert Right(g, h, wcs[h], missing[h]);
    }
  }

  /** A function given by hand. */
  ghost predicate Leaf(g: Graph, f: nat)
    requires GraphOk(g)
  {
    f < |g.calls| && g.calls[f] == [] && !g.ptrCall[f]
  }

  lemma LeafRight(g: Graph, f: nat)
    requires GraphOk(g) && Leaf(g, f)
    ensures Right(g, f, Bytes(g.localStack[f]), g.missing[f])
  {
    MaxFromCallees(g, f, 0);
    GatheredAll(g, f, g.missing[f]);
  }

  /** Whatever order the functions are visited in, the results are the same. */
  lemma OrderDoesNotMatter(g: Graph, wcs: map<nat, Wcs>, missing: seq<set<string>>,
                           wcs': map<nat, Wcs>, missing': seq<set<string>>, f: nat)
    requires GraphOk(g) && Sound(g, wcs, missing) && Sound(g, wcs', missing') && f in wcs && f in wcs'
    ensures wcs[f] == wcs'[f]
    ensures wcs[f].Bytes? ==> missing[f] == missing'[f]
    ensures wcs[f] == Unbounded <==> Bad(g, f)
    ensures forall v :: wcs[f] == Bytes(v) <==> !Bad(g, f) && IsMax(g, f, v)
  {
    assert Right(g, f, wcs[f], missing[f]) && Right(g, f, wcs'[f], missing'[f]);
    if wcs[f].Bytes? {
      MaxUnique(g, f, wcs[f].n, wcs'[f].n);
      forall name ensures name in missing[f] <==> name in missing'[f] {
        assert name in missing[f] <==> Needs(g, f, name);
      }
    }
  }

  class Analysis {
    const g: Graph
    var wcs: map<nat, Wcs>
    var missing: seq<set<string>>      // 'unresolved_calls'

    ghost predicate Valid()
      reads this
    {
      GraphOk(g) && Sound(g, wcs, missing)
    }

    /** Functions not visited and not being visited still have their own missing names only. */
    ghost predicate Untouched(parents: seq<nat>)
      requires GraphOk(g) && |missing| == |g.calls|
      reads this
    {
      forall f :: 0 <= f < |missing| && f !in wcs && f !in parents ==> missing[f] == g.missing[f]
    }

    /** The call graph, with the stack of the functions in `manual` given by hand: these call nothing. */
    constructor (graph: Graph, manual: set<nat>)
      requires GraphOk(graph)
      requires forall f :: f in manual ==> Leaf(graph, f)
      ensures Valid() && g == graph && wcs.Keys == manual && missing == graph.missing
    {
      g := graph;
      wcs := map f | f in manual && f < |graph.localStack| :: Bytes(graph.localStack[f]);
      missing := graph.missing;
      new;
      forall f | f in wcs ensures Right(g, f, wcs[f], missing[f]) {
        assert Leaf(g, f);
        LeafRight(g, f);
      }
    }

    /** `calc_all_wcs`: visit the functions in any order that leaves none out. */
    method CalcAll(order: seq<nat>)
      requires Valid() && Untouched([])
      requires forall f :: f in order <==> 0 <= f < |g.calls|
      modifies this
      ensures Valid() && forall f :: 0 <= f < |g.calls| ==> f in wcs
    {
      var k := 0;
      while k < |order|
        invariant 0 <= k <= |order| && Valid() && Untouched([])
        invariant forall i :: 0 <= i < k ==> order[i] in wcs
      {
        assert order[k] in order;
        assert [] + [order[k]] == [order[k]];
        CalcWcs(order[k], []);
        k := k + 1;
      }
      forall f: nat | 0 <= f < |g.calls| ensures f in wcs {
        assert f in order;
        var i :| 0 <= i < |order| && order[i] == f;
      }
    }

    /** `calc_wcs`, called along the chain of calls `parents`. */
    method CalcWcs(f: nat, parents: seq<nat>)
      requires Valid() && Untouched(parents) && f < |g.calls| && Chain(g, parents + [f]) && NoDup(parents)
      modifies this
      ensures Valid() && Untouched(parents) && f in wcs
      ensures forall h :: h in old(wcs) ==> h in wcs
      ensures forall h :: h in parents && h < |g.calls| ==> missing[h] == old(missing)[h]
      decreases |g.calls| - |parents|
    {
      if f in wcs {
        return;
      }
      if g.ptrCall[f] {
        BadByPointer(g, f);
        RecordSound(g, wcs, missing, f, Unbounded);
        wcs := wcs[f := Unbounded];
        return;
      }
      if f in parents {
        var i :| 0 <= i < |parents| && parents[i] == f;
        CycleIsBad(g, parents, f, i);
        RecordSound(g, wcs, missing, f, Unbounded);
        wcs := wcs[f := Unbounded];
        return;
      }
      Descend(f, parents);
    }

    /** The loop of `calc_wcs` over the callees of `f`. */
    method Descend(f: nat, parents: seq<nat>)
      requires Valid() && Untouched(parents) && f < |g.calls| && Chain(g, parents + [f]) && NoDup(parents)
      requires f !in wcs && !g.ptrCall[f] && f !in parents
      modifies this
      ensures Valid() && Untouched(parents) && f in wcs
      ensures forall h :: h in old(wcs) ==> h in wcs
      ensures forall h :: h in parents && h < |g.calls| ==> missing[h] == old(missing)[h]
      decreases |g.calls| - |parents|, 0
    {
      SnocNoDup(parents, f);
      ghost var deeper := parents + [f];
      forall x | x in deeper ensures x < |g.calls| {
        var i :| 0 <= i < |deeper| && deeper[i] == x;
        assert StepAt(g, deeper, i);
      }
      PigeonHole(deeper, |g.calls|);
      var callMax: nat := 0;
      var j: nat := 0;
      while j < |g.calls[f]|
        invariant 0 <= j <= |g.calls[f]|
        invariant Valid() && Untouched(parents + [f])
        invariant forall h :: h in old(wcs) ==> h in wcs
        invariant forall h :: h in parents && h < |g.calls| ==> missing[h] == old(missing)[h]
        invariant CalleesWithin(g, f, j, callMax)
        invariant Gathered(g, f, j, missing[f])
      {
        var c := g.calls[f][j];
        assert CalleesOk(g, f);
        ChainSnoc(g, parents + [f], c);
        CalcWcs(c, parents + [f]);
        if wcs[c] == Unbounded {
          BadByCallee(g, f, c);
          RecordSound(g, wcs, missing, f, Unbounded);
          wcs := wcs[f := Unbounded];
          return;
        }
        assert Right(g, c, wcs[c], missing[c]);
        OneMoreCallee(g, f, j, callMax, wcs[c].n);
        OneMoreGathered(g, f, j, missing[f], missing[c]);
        GatherSound(g, wcs, missing, f, c);
        callMax := if wcs[c].n > callMax then wcs[c].n else callMax;
        missing := missing[f := missing[f] + missing[c]];
        j := j + 1;
      }
      MaxFromCallees(g, f, callMax);
      GatheredAll(g, f, missing[f]);
      RecordSound(g, wcs, missing, f, Bytes(callMax + g.localStack[f]));
      wcs := wcs[f := Bytes(callMax + g.localStack[f])];
    }
  }

  /** `m` holds what `f` misses itself and what its first `n` callees need. */
  ghost predicate Gathered(g: Graph, f: nat, n: nat, m: set<string>)
    requires GraphOk(g) && f < |g.calls| && n <= |g.calls[f]|
  {
    forall name :: name in m <==> name in g.missing[f] || exists j :: 0 <= j < n && Needs(g, g.calls[f][j], name)
  }

  lemma OneMoreCallee(g: Graph, f: nat, j: nat, v: nat, w: nat)
    requires GraphOk(g) && f < |g.calls| && j < |g.calls[f]| && CalleesWithin(g, f, j, v)
    requires !Bad(g, g.calls[f][j]) && IsMax(g, g.calls[f][j], w)
    ensures CalleesWithin(g, f, j + 1, if w > v then w else v)
  {
    var v' := if w > v then w else v;
    forall k | 0 <= k < j + 1 ensures CalleeWithin(g, g.calls[f][k], v') {
      if k < j {
        assert CalleeWithin(g, g.calls[f][k], v);
      }
    }
    if w > v {
      var p :| Path(g, g.calls[f][j], p) && Cost(g, p) == w;
      assert Edge(g, f, g.calls[f][j]);
    }
  }

  lemma OneMoreGathered(g: Graph, f: nat, j: nat, m: set<string>, m': set<string>)
    requires GraphOk(g) && f < |g.calls| && j < |g.calls[f]| && Gathered(g, f, j, m) && AllNeeded(g, g.calls[f][j], m')
    ensures Gathered(g, f, j + 1, m + m')
  {
  }

  lemma GatheredAll(g: Graph, f: nat, m: set<string>)
    requires GraphOk(g) && f < |g.calls| && Gathered(g, f, |g.calls[f]|, m)
    ensures AllNeeded(g, f, m)
  {
    forall name ensures name in m <==> Needs(g, f, name) {
      NeedsFromCallees(g, f, name);
      if exists c :: Edge(g, f, c) && Needs(g, c, name) {
        var c :| Edge(g, f, c) && Needs(g, c, name);
        var j :| 0 <= j < |g.calls[f]| && g.calls[f][j] == c;
      }
    }
  }

  // ------------------------------------------------------------ name resolution

  /** The functions found in the object files: by name, and static ones by name and translation unit. */
  datatype Symbols = Symbols(globals: map<string, nat>, locals: map<string, map<string, nat>>)

  /** `find_fxn`: global functions hide static ones. */
  function Find(s: Symbols, tu: string, name: string): Option<nat> {
    if name in s.globals then Some(s.globals[name])
    else if name in s.locals && tu in s.locals[name] then Some(s.locals[name][tu])
    else None
  }

  /** `f` is the function a call of `name` from the translation unit `tu` means: a global one, or else one static there. */
  ghost predicate Means(s: Symbols, tu: string, name: string, f: nat) {
    || (name in s.globals && s.globals[name] == f)
    || (name !in s.globals && name in s.locals && tu in s.locals[name] && s.locals[name][tu] == f)
  }

  /** No table has the name. */
  ghost predicate Unknown(s: Symbols, tu: string, name: string) {
    name !in s.globals && (name !in s.locals || tu !in s.locals[name])
  }

  /** `resolve_calls` for one function: every called name is found or reported, in whatever order the set is walked. */
  method ResolveCalls(s: Symbols, tu: string, calls: set<string>) returns (found: seq<nat>, missing: set<string>)
    ensures forall f :: f in found <==> exists name :: name in calls && Means(s, tu, name, f)
    ensures forall name :: name in missing <==> name in calls && Unknown(s, tu, name)
    ensures |found| + |missing| == |calls|
  {
    found, missing := [], {};
    var todo := calls;
    while todo != {}
      invariant todo <= calls
      invariant forall f :: f in found <==> exists name :: name in calls && name !in todo && Means(s, tu, name, f)
      invariant forall name :: name in missing <==> name in calls && name !in todo && Unknown(s, tu, name)
      invariant |found| + |missing| + |todo| == |calls|
      decreases |todo|
    {
      var name :| name in todo;
      match Find(s, tu, name) {
        case Some(f) => found := found + [f];
        case None => missing := missing + {name};
      }
      todo := todo - {name};
    }
  }
}
