/**
 The kernel's circular doubly linked lists (rt-thread/include/rtservice.h): a node
 is an address, and the links of all nodes are two maps.  A well-formed list is a
 sequence of distinct nodes closed into a ring.
 */
module IntrusiveList {
  import opened Base

  type Links = map<nat, nat>

  function Succ(i: nat, n: nat): nat {
    if i + 1 < n then i + 1 else 0
  }

  /** `nodes` is a ring under `next`, and `prev` is the inverse of `next` on it. */
  ghost predicate Circular(next: Links, prev: Links, nodes: seq<nat>) {
    nodes != [] && NoDup(nodes) && forall i :: 0 <= i < |nodes| ==> LinkedAt(next, prev, nodes, i)
  }

  /** Node `i` points to the following node, and that one points back. */
  ghost predicate LinkedAt(next: Links, prev: Links, nodes: seq<nat>, i: nat)
    requires i < |nodes|
  {
    var n, n' := nodes[i], nodes[Succ(i, |nodes|)];
    n in next && next[n] == n' && n' in prev && prev[n'] == n
  }

  function Inserted(nodes: seq<nat>, i: nat, n: nat): seq<nat>
    requires i < |nodes|
  {
    nodes[..i + 1] + [n] + nodes[i + 1..]
  }

  /** `next` after linking `n` behind `l`. */
  function NextAfterInsert(next: Links, l: nat, n: nat): Links
    requires l in next
  {
    next[n := next[l]][l := n]
  }

  /** `prev` after linking `n` behind `l`. */
  function PrevAfterInsert(next: Links, prev: Links, l: nat, n: nat): Links
    requires l in next
  {
    prev[next[l] := n][n := l]
  }

  /** The neighbours of `n` skip it. */
  function NextSkipping(next: Links, prev: Links, n: nat): Links
    requires n in next && n in prev
  {
    next[prev[n] := next[n]]
  }

  function PrevSkipping(next: Links, prev: Links, n: nat): Links
    requires n in next && n in prev
  {
    prev[next[n] := prev[n]]
  }

  /** `next` after `rt_list_remove`, which also makes the removed node a list of its own. */
  function NextAfterRemove(next: Links, prev: Links, n: nat): Links
    requires n in next && n in prev
  {
    NextSkipping(next, prev, n)[n := n]
  }

  function PrevAfterRemove(next: Links, prev: Links, n: nat): Links
    requires n in next && n in prev
  {
    PrevSkipping(next, prev, n)[n := n]
  }

  lemma PrevIs(next: Links, prev: Links, nodes: seq<nat>, i: nat)
    requires Circular(next, prev, nodes) && i < |nodes|
    ensures nodes[i] in prev && prev[nodes[i]] == nodes[if i == 0 then |nodes| - 1 else i - 1]
  {
    var j := if i == 0 then |nodes| - 1 else i - 1;
    assert LinkedAt(next, prev, nodes, j) && Succ(j, |nodes|) == i;
  }

  /** Where node `k` of the old list stands after an insertion behind node `i`. */
  lemma InsertedAt(nodes: seq<nat>, i: nat, n: nat, k: nat)
    requires i < |nodes| && k < |nodes|
    ensures |Inserted(nodes, i, n)| == |nodes| + 1 && Inserted(nodes, i, n)[i + 1] == n
    ensures Inserted(nodes, i, n)[if k <= i then k else k + 1] == nodes[k]
  {
  }

  lemma InsertedMembers(nodes: seq<nat>, i: nat, n: nat)
    requires i < |nodes|
    ensures forall x :: x in Inserted(nodes, i, n) <==> x in nodes || x == n
  {
    assert nodes == nodes[..i + 1] + nodes[i + 1..];
  }

  lemma InsertedNoDup(nodes: seq<nat>, i: nat, n: nat)
    requires NoDup(nodes) && i < |nodes| && n !in nodes
    ensures NoDup(Inserted(nodes, i, n))
  {
    var c := Inserted(nodes, i, n);
    forall x, y | 0 <= x < y < |c| ensures Differ(c, x, y) {
      var x', y' := if x <= i then x else x - 1, if y <= i then y else y - 1;
      if x != i + 1 && y != i + 1 {
        assert Differ(nodes, x', y');
      }
    }
  }

  /** `rt_list_insert_after` puts `n` right behind `nodes[i]`. */
  lemma InsertAfter(next: Links, prev: Links, nodes: seq<nat>, i: nat, n: nat)
    requires Circular(next, prev, nodes) && i < |nodes| && n !in nodes
    ensures nodes[i] in next
    ensures Circular(NextAfterInsert(next, nodes[i], n), PrevAfterInsert(next, prev, nodes[i], n), Inserted(nodes, i, n))
  {
    assert LinkedAt(next, prev, nodes, i);
    var l := nodes[i];
    var c := Inserted(nodes, i, n);
    var next', prev' := NextAfterInsert(next, l, n), PrevAfterInsert(next, prev, l, n);
    InsertedNoDup(nodes, i, n);
    assert LinkedAt(next, prev, nodes, i);
    forall k | 0 <= k < |c| ensures LinkedAt(next', prev', c, k) {
      if k < i {
        assert LinkedAt(next, prev, nodes, k) && Differ(nodes, k, i);
        assert c[k] == nodes[k] && c[k + 1] == nodes[Succ(k, |nodes|)];
        Apart(nodes, k + 1, Succ(i, |nodes|));
      } else if k == i {
        assert c[k] == l && c[k + 1] == n;
      } else if k == i + 1 {
        assert c[k] == n && c[Succ(k, |c|)] == nodes[Succ(i, |nodes|)];
      } else {
        assert LinkedAt(next, prev, nodes, k - 1) && Differ(nodes, i, k - 1);
        assert c[k] == nodes[k - 1] && c[Succ(k, |c|)] == nodes[Succ(k - 1, |nodes|)];
        Apart(nodes, Succ(k - 1, |nodes|), Succ(i, |nodes|));
      }
    }
  }

  /** Unlinking `nodes[i]` closes the ring over it. */
  lemma Unlink(next: Links, prev: Links, nodes: seq<nat>, i: nat)
    requires Circular(next, prev, nodes) && i < |nodes| && |nodes| >= 2
    ensures nodes[i] in next && nodes[i] in prev
    ensures Circular(NextSkipping(next, prev, nodes[i]), PrevSkipping(next, prev, nodes[i]), Deleted(nodes, i))
  {
    assert LinkedAt(next, prev, nodes, i);
    PrevIs(next, prev, nodes, i);
    var l := nodes[i];
    var c := Deleted(nodes, i);
    var next', prev' := NextSkipping(next, prev, l), PrevSkipping(next, prev, l);
    DeletedNoDup(nodes, i);
    forall k | 0 <= k < |c| ensures LinkedAt(next', prev', c, k) {
      var j := if k < i then k else k + 1;
      assert LinkedAt(next, prev, nodes, j);
      assert c[k] == nodes[j] && j != i;
      var j' := Succ(j, |nodes|);
      if j' == i {
        assert prev[l] == nodes[j] && next[l] == nodes[Succ(i, |nodes|)];
        assert c[Succ(k, |c|)] == nodes[Succ(i, |nodes|)];
      } else {
        assert c[Succ(k, |c|)] == nodes[j'];
        Apart(nodes, j', Succ(i, |nodes|));
        Apart(nodes, j, if i == 0 then |nodes| - 1 else i - 1);
      }
    }
  }

  /** Links of nodes outside the ring do not matter. */
  lemma Frame(next: Links, prev: Links, next': Links, prev': Links, nodes: seq<nat>)
    requires Circular(next, prev, nodes)
    requires forall x :: x in nodes && x in next ==> x in next' && next'[x] == next[x]
    requires forall x :: x in nodes && x in prev ==> x in prev' && prev'[x] == prev[x]
    ensures Circular(next', prev', nodes)
  {
    forall i | 0 <= i < |nodes| ensures LinkedAt(next', prev', nodes, i) {
      assert LinkedAt(next, prev, nodes, i);
      assert nodes[i] in nodes && nodes[Succ(i, |nodes|)] in nodes;
    }
  }

  /** `rt_list_remove` closes the ring over `nodes[i]`, which becomes a ring of its own. */
  lemma Remove(next: Links, prev: Links, nodes: seq<nat>, i: nat)
    requires Circular(next, prev, nodes) && i < |nodes| && |nodes| >= 2
    ensures nodes[i] in next && nodes[i] in prev
    ensures Circular(NextAfterRemove(next, prev, nodes[i]), PrevAfterRemove(next, prev, nodes[i]), Deleted(nodes, i))
    ensures Circular(NextAfterRemove(next, prev, nodes[i]), PrevAfterRemove(next, prev, nodes[i]), [nodes[i]])
  {
    Unlink(next, prev, nodes, i);
    DeletedMember(nodes, i, nodes[i]);
    var n := nodes[i];
    var next', prev' := NextAfterRemove(next, prev, n), PrevAfterRemove(next, prev, n);
    Frame(NextSkipping(next, prev, n), PrevSkipping(next, prev, n), next', prev', Deleted(nodes, i));
    assert LinkedAt(next', prev', [n], 0);
  }

  /** Removing a node that is a list of its own changes nothing, so a node may be removed twice. */
  lemma RemoveAgain(next: Links, prev: Links, n: nat)
    requires Circular(next, prev, [n])
    ensures n in next && n in prev
    ensures NextAfterRemove(next, prev, n) == next && PrevAfterRemove(next, prev, n) == prev
  {
    assert LinkedAt(next, prev, [n], 0);
  }

  /** Linking a node and removing it again restores every link but the node's own. */
  lemma InsertRemove(next: Links, prev: Links, nodes: seq<nat>, i: nat, n: nat)
    requires Circular(next, prev, nodes) && i < |nodes| && n !in nodes
    ensures nodes[i] in next
    ensures var next', prev' := NextAfterInsert(next, nodes[i], n), PrevAfterInsert(next, prev, nodes[i], n);
            && n in next' && n in prev'
            && NextAfterRemove(next', prev', n) == next[n := n]
            && PrevAfterRemove(next', prev', n) == prev[n := n]
            && Deleted(Inserted(nodes, i, n), i + 1) == nodes
  {
    assert LinkedAt(next, prev, nodes, i);
    assert nodes[i] in nodes && nodes[Succ(i, |nodes|)] in nodes;
    assert nodes == nodes[..i + 1] + nodes[i + 1..];
  }
}
