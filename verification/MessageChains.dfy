/**
 The singly linked message lists of rt-thread/src/ipc.c: a queue with a tail
 pointer and a free list, over the nodes of one pool.
 */
module MessageChains {
  import opened Base

  /** The links of node `q[i]` lead to the next element of `q`. */
  ghost predicate ChainAt(next: seq<Option<nat>>, q: seq<nat>, i: nat)
    requires i < |q|
  {
    q[i] < |next| && next[q[i]] == if i + 1 < |q| then Some(q[i + 1]) else None
  }

  ghost function First(q: seq<nat>): Option<nat> {
    if q == [] then None else Some(q[0])
  }

  ghost function Last(q: seq<nat>): Option<nat> {
    if q == [] then None else Some(q[|q| - 1])
  }

  /** `first` heads a null-terminated list with nodes `q`. */
  ghost predicate Chain(next: seq<Option<nat>>, first: Option<nat>, q: seq<nat>) {
    first == First(q) && forall i :: 0 <= i < |q| ==> ChainAt(next, q, i)
  }

  lemma ChainKeeps(next: seq<Option<nat>>, first: Option<nat>, q: seq<nat>, n: nat, v: Option<nat>)
    requires Chain(next, first, q) && n !in q && n < |next|
    ensures Chain(next[n := v], first, q)
  {
    var next' := next[n := v];
    forall i | 0 <= i < |q| ensures ChainAt(next', q, i) {
      assert ChainAt(next, q, i);
    }
  }

  lemma ChainPush(next: seq<Option<nat>>, first: Option<nat>, q: seq<nat>, n: nat)
    requires Chain(next, first, q) && n !in q && n < |next|
    ensures Chain(next[n := first], Some(n), [n] + q)
  {
    var r, next' := [n] + q, next[n := first];
    forall i | 0 <= i < |r| ensures ChainAt(next', r, i) {
      if i > 0 {
        assert r[i] == q[i - 1] && ChainAt(next, q, i - 1);
        assert i + 1 < |r| ==> r[i + 1] == q[i];
      } else {
        assert |q| > 0 ==> r[1] == q[0];
      }
    }
  }

  lemma ChainPop(next: seq<Option<nat>>, first: Option<nat>, q: seq<nat>)
    requires Chain(next, first, q) && q != []
    ensures q[0] < |next| && Chain(next, next[q[0]], q[1..])
    ensures Last(q[1..]) == if |q| == 1 then None else Last(q)
  {
    assert ChainAt(next, q, 0);
    forall i | 0 <= i < |q| - 1 ensures ChainAt(next, q[1..], i) {
      assert ChainAt(next, q, i + 1);
    }
  }

  /** Appending a terminated node behind the tail. */
  lemma ChainAppend(next: seq<Option<nat>>, first: Option<nat>, q: seq<nat>, n: nat)
    requires Chain(next, first, q) && NoDup(q) && n !in q && n < |next| && next[n] == None
    ensures q != [] ==> q[|q| - 1] < |next|
    ensures Chain(if q == [] then next else next[q[|q| - 1] := Some(n)], if q == [] then Some(n) else first, q + [n])
  {
    var r := q + [n];
    if q != [] {
      var t := |q| - 1;
      assert ChainAt(next, q, t);
      var next' := next[q[t] := Some(n)];
      forall i | 0 <= i < |r| ensures ChainAt(next', r, i) {
        if i < t {
          assert ChainAt(next, q, i);
          Apart(q, i, t);
          assert r[i + 1] == q[i + 1];
        }
        assert q[t] in q;
      }
    }
  }

  // ----------------------------------------------------------------- contents

  ghost predicate InPool(slots: seq<seq<int>>, q: seq<nat>) {
    forall i :: 0 <= i < |q| ==> InPoolAt(slots, q, i)
  }

  ghost predicate InPoolAt(slots: seq<seq<int>>, q: seq<nat>, i: nat)
    requires i < |q|
  {
    q[i] < |slots|
  }

  /** The data of the nodes of a list. */
  ghost function Contents(slots: seq<seq<int>>, q: seq<nat>): (r: seq<seq<int>>)
    requires InPool(slots, q)
    ensures |r| == |q|
  {
    seq(|q|, i requires 0 <= i < |q| => assert InPoolAt(slots, q, i); slots[q[i]])
  }

  lemma ContentsKeep(slots: seq<seq<int>>, q: seq<nat>, n: nat, m: seq<int>)
    requires InPool(slots, q) && n !in q && n < |slots|
    ensures InPool(slots[n := m], q) && Contents(slots[n := m], q) == Contents(slots, q)
  {
    var slots' := slots[n := m];
    forall i | 0 <= i < |q| ensures InPoolAt(slots', q, i) && slots'[q[i]] == slots[q[i]] {
      assert InPoolAt(slots, q, i);
    }
  }

  lemma ContentsAppend(slots: seq<seq<int>>, q: seq<nat>, n: nat)
    requires InPool(slots, q) && n < |slots|
    ensures InPool(slots, q + [n]) && Contents(slots, q + [n]) == Contents(slots, q) + [slots[n]]
  {
    var r := q + [n];
    forall i | 0 <= i < |r| ensures InPoolAt(slots, r, i) && (i < |q| ==> r[i] == q[i]) {
      assert i < |q| ==> InPoolAt(slots, q, i);
    }
  }

  lemma ContentsPush(slots: seq<seq<int>>, q: seq<nat>, n: nat)
    requires InPool(slots, q) && n < |slots|
    ensures InPool(slots, [n] + q) && Contents(slots, [n] + q) == [slots[n]] + Contents(slots, q)
  {
    var r := [n] + q;
    forall i | 0 <= i < |r| ensures InPoolAt(slots, r, i) && (i > 0 ==> r[i] == q[i - 1]) {
      assert i > 0 ==> InPoolAt(slots, q, i - 1);
    }
  }

  lemma ContentsPop(slots: seq<seq<int>>, q: seq<nat>)
    requires InPool(slots, q) && q != []
    ensures InPool(slots, q[1..]) && q[0] < |slots|
    ensures Contents(slots, q) == [slots[q[0]]] + Contents(slots, q[1..])
  {
    assert InPoolAt(slots, q, 0);
    forall i | 0 <= i < |q| - 1 ensures InPoolAt(slots, q[1..], i) {
      assert InPoolAt(slots, q, i + 1);
    }
  }
}
