/**
 `rt_thread_detach` as the two lock sections it is made of
 (rt-thread/src/thread.c:412-443): the first takes the thread off the list it is
 linked into, the second closes it and lets the owner of the mutex it waited for
 lose the priority it inherited.  Between them the owner may release the mutex.
 */
module DetachSections {
  import opened Base
  import opened PriorityInheritance

  /** `t` sleeps in the queue of `m`. */
  ghost predicate WaitsIn(s: State, t: nat, m: nat) {
    Inv(s) && t < |s.threads| && m < |s.mutexes| && Blocked(s, t) && s.threads[t].pending == Some(m)
  }

  /** The first section. */
  function Unlinked(s: State, t: nat): State
    requires InRange(s) && t < |s.threads|
  {
    if Blocked(s, t) then
      var m := s.threads[t].pending.value;
      s.WithMutex(m, s.mutexes[m].(waiters := Without(s.mutexes[m].waiters, t)))
    else s
  }

  /** Nobody but the owner of the mutex that `t` waits for is out of date once `t` has left it. */
  ghost predicate MayClose(s: State, t: nat) {
    && InRange(s) && t < |s.threads|
    && (s.threads[t].pending.Some? ==>
          var m := s.threads[t].pending.value;
          s.mutexes[m].owner.Some? ==> InvBut(Leave(s, t, m), {s.mutexes[m].owner.value}))
  }

  /** The second section, which reads the owner of the mutex: None stands for an owner that is not there. */
  function Close(s: State, t: nat): Option<State>
    requires MayClose(s, t)
  {
    if s.threads[t].pending.None? then Some(s.WithThread(t, s.threads[t].(stat := Closed)))
    else
      var m := s.threads[t].pending.value;
      if s.mutexes[m].owner.None? then None
      else
        Some(Forget(Restored(Leave(s, t, m), t, s.mutexes[m].owner.value), t))
  }

  /** `t` left, and an owner `o` at its priority gets what it deserves now. */
  function Restored(s: State, t: nat, o: nat): (s': State)
    requires t < |s.threads| && o < |s.threads| && InvBut(s, {o})
    ensures SameLinks(s, s')
  {
    var p := Deserved(s, o);
    if s.threads[o].currentPriority == s.threads[t].currentPriority && p != s.threads[o].currentPriority
    then UpdatePriority(s, o, p) else s
  }

  /** `t` waits for nothing any more. */
  function Forget(s: State, t: nat): State
    requires t < |s.threads|
  {
    s.WithThread(t, s.threads[t].(pending := None))
  }

  lemma UnlinkedRange(s: State, t: nat)
    requires InRange(s) && t < |s.threads|
    ensures InRange(Unlinked(s, t))
  {
    if Blocked(s, t) {
      WithoutBelow(s.mutexes[s.threads[t].pending.value].waiters, t, |s.threads|);
    }
  }

  /** Leaving a queue twice is leaving it once. */
  lemma LeaveUnlinked(s: State, t: nat, m: nat)
    requires WaitsIn(s, t, m)
    ensures InRange(Unlinked(s, t)) && Leave(Unlinked(s, t), t, m) == Leave(s, t, m)
  {
    UnlinkedRange(s, t);
    assert MutexLinks(s, m);
    var q := s.mutexes[m].waiters;
    WithoutMembers(q, t);
    Found(Without(q, t), t);
    assert Without(Without(q, t), t) == Without(q, t);
  }

  /** With nothing in between the two sections are the one step `Detach`. */
  lemma SectionsAreDetach(s: State, t: nat)
    requires Inv(s) && t < |s.threads| && s.threads[t].stat != Closed
    ensures MayClose(Unlinked(s, t), t) && Close(Unlinked(s, t), t) == Some(Detach(s, t))
  {
    assert ThreadLinks(s, t);
    UnlinkedRange(s, t);
    if Blocked(s, t) {
      var m := s.threads[t].pending.value;
      LeaveUnlinked(s, t, m);
      LeaveLeavesHole(s, t, m);
    }
  }

  // ------------------------------------------- a release between the sections

  /** What `rt_mutex_release` by the owner `o` does to the tables, whatever state they are in. */
  function Released(s: State, o: nat, m: nat): State
    requires InRange(s) && o < |s.threads| && m < |s.mutexes|
  {
    var mx := s.mutexes[m];
    if mx.hold > 1 then s.WithMutex(m, mx.(hold := mx.hold - 1))
    else if mx.waiters == [] then Free(s, o, GiveUp(s, o, m), m)
    else HandOff(s, o, GiveUp(s, o, m), m, mx.waiters[0])
  }

  lemma ReleasedIs(s: State, o: nat, m: nat)
    requires MayRelease(s, o, m)
    ensures Release(s, o, m).0 == Released(s, o, m)
  {
  }

  /** `o` runs and holds `m`, and `t` waits for it. */
  ghost predicate BetweenOwnerAndWaiter(s: State, t: nat, m: nat, o: nat) {
    WaitsIn(s, t, m) && s.mutexes[m].owner == Some(o) && o < |s.threads| && s.threads[o].stat == Running && o != t
  }

  function Settled(s: State, o: nat): State
    requires InRange(s) && o < |s.threads|
  {
    SetPriority(s, o, Deserved(s, o))
  }

  /** An owner that runs gets what it deserves at once. */
  lemma DropAtOnce(s: State, t: nat, m: nat, o: nat)
    requires BetweenOwnerAndWaiter(s, t, m, o)
    ensures Dropped(s, t, m, o, Drop(s, t, m)) && Detach(s, t) == Forget(Drop(s, t, m), t)
  {
    LeaveLeavesHole(s, t, m);
  }

  /** `d` is the state after `t` left and the owner got what it deserves. */
  ghost predicate Dropped(s: State, t: nat, m: nat, o: nat, d: State)
    requires BetweenOwnerAndWaiter(s, t, m, o)
  {
    InvBut(Leave(s, t, m), {o}) && d == Settled(Leave(s, t, m), o) && MayRelease(d, o, m)
  }

  lemma CloseAtOnce(s: State, t: nat, m: nat, o: nat)
    requires MayClose(s, t) && s.threads[t].pending == Some(m) && s.mutexes[m].owner == Some(o) && o != t
    requires !Blocked(s, o) && (s.threads[o].currentPriority != s.threads[t].currentPriority ==> ThreadOk(Leave(s, t, m), o))
    ensures Close(s, t) == Some(Forget(Settled(Leave(s, t, m), o), t))
  {
    var s1 := Leave(s, t, m);
    if s1.threads[o].currentPriority == Deserved(s1, o) {
      SettledAlready(s1, o);
    }
  }

  lemma SettledAlready(s: State, o: nat)
    requires InRange(s) && o < |s.threads| && s.threads[o].currentPriority == Deserved(s, o)
    ensures Settled(s, o) == s
  {
  }

  /** The owner keeps the mutex: it gave back one of several holds. */
  lemma HoldBetween(s: State, t: nat, m: nat, o: nat, s1: State, d: State)
    requires BetweenOwnerAndWaiter(s, t, m, o) && s.mutexes[m].hold > 1 && s1 == Unlinked(s, t) && Dropped(s, t, m, o, d)
    ensures InRange(s1) && MayClose(Released(s1, o, m), t)
    ensures Close(Released(s1, o, m), t) == Some(Forget(Released(d, o, m), t))
  {
    var h := s.mutexes[m].hold - 1;
    var l := Leave(s, t, m);
    assert MutexLinks(s, m);
    LeaveUnlinked(s, t, m);
    LeaveLeavesHole(s, t, m);
    HoldKeepsBut(l, m, h, {o});
    var s2, l2 := Released(s1, o, m), l.WithMutex(m, l.mutexes[m].(hold := h));
    assert Leave(s2, t, m) == l2;
    DeservedSame(l, l2, o);
    CloseAtOnce(s2, t, m, o);
  }

  /** After giving `m` up, the owner is at what its other mutexes leave it. */
  lemma GiveUpIs(s: State, o: nat, m: nat)
    requires MayRelease(s, o, m)
    ensures Below(Without(s.threads[o].taken, m), |s.mutexes|)
    ensures var rest := Without(s.threads[o].taken, m);
            GiveUp(s, o, m) == s.threads[o].(taken := rest, currentPriority := MinTaken(s.mutexes, rest, s.threads[o].initPriority))
  {
    WithoutBelow(s.threads[o].taken, m, |s.mutexes|);
    GiveUpDeserves(s, o, m);
  }

  /** What it falls back to does not depend on the queue of `m`. */
  lemma GiveUpQueues(s: State, s1: State, o: nat, m: nat)
    requires InRange(s) && InRange(s1) && o < |s.threads| && m < |s.mutexes| && s1.threads == s.threads && |s1.mutexes| == |s.mutexes|
    requires forall k :: 0 <= k < |s.mutexes| ==> s1.mutexes[k].priority == s.mutexes[k].priority
    ensures GiveUp(s1, o, m) == GiveUp(s, o, m)
  {
    WithoutBelow(s.threads[o].taken, m, |s.mutexes|);
    MinTakenSame(s.mutexes, s1.mutexes, Without(s.threads[o].taken, m), s.threads[o].initPriority);
  }

  /** Nor on the priority the owner runs at. */
  lemma GiveUpApart(s: State, d: State, o: nat, m: nat)
    requires MayRelease(s, o, m) && MayRelease(d, o, m) && |d.mutexes| == |s.mutexes|
    requires d.threads[o] == s.threads[o].(currentPriority := d.threads[o].currentPriority)
    requires forall k :: 0 <= k < |s.mutexes| && k != m ==> d.mutexes[k].priority == s.mutexes[k].priority
    ensures GiveUp(s, o, m) == GiveUp(d, o, m)
  {
    GiveUpIs(s, o, m);
    GiveUpIs(d, o, m);
    var rest := Without(s.threads[o].taken, m);
    assert ThreadLinks(s, o);
    WithoutMembers(s.threads[o].taken, m);
    MinTakenSame(s.mutexes, d.mutexes, rest, s.threads[o].initPriority);
  }

  lemma GiveUpSame(s: State, t: nat, m: nat, o: nat, s1: State, d: State)
    requires BetweenOwnerAndWaiter(s, t, m, o) && s1 == Unlinked(s, t) && Dropped(s, t, m, o, d)
    ensures InRange(s1) && GiveUp(s1, o, m) == GiveUp(d, o, m)
  {
    UnlinkedRange(s, t);
    GiveUpQueues(s, s1, o, m);
    GiveUpApart(s, d, o, m);
  }

  /** Where leaving the queue puts nobody out of date, closing changes nothing else. */
  lemma CloseSettled(s: State, t: nat, m: nat, n: nat, r: State)
    requires InRange(s) && t < |s.threads| && m < |s.mutexes| && s.threads[t].pending == Some(m)
    requires s.mutexes[m].owner == Some(n) && n < |s.threads| && r == Leave(s, t, m) && Inv(r)
    ensures MayClose(s, t) && Close(s, t) == Some(Forget(r, t))
  {
    assert ThreadOk(r, n);
  }

  /** The mutex passes to another waiter: closing afterwards finds everything settled. */
  lemma HandOffBetween(s: State, t: nat, m: nat, o: nat, s1: State, d: State, r: State)
    requires BetweenOwnerAndWaiter(s, t, m, o) && s.mutexes[m].hold == 1 && s1 == Unlinked(s, t)
    requires Without(s.mutexes[m].waiters, t) != []
    requires Dropped(s, t, m, o, d) && r == Released(d, o, m) && Inv(r)
    ensures InRange(s1) && MayClose(Released(s1, o, m), t)
    ensures Close(Released(s1, o, m), t) == Some(Forget(r, t))
  {
    GiveUpSame(s, t, m, o, s1, d);
    LeaveReleased(s, t, m, o, s1, d, r);
    assert MutexLinks(s, m);
    WithoutMembers(s.mutexes[m].waiters, t);
    assert s1.mutexes[m].waiters[0] in s1.mutexes[m].waiters;
    AfterHandOff(s1, t, m, o);
    CloseSettled(Released(s1, o, m), t, m, s1.mutexes[m].waiters[0], r);
  }

  lemma AfterHandOff(s: State, t: nat, m: nat, o: nat)
    requires InRange(s) && t < |s.threads| && m < |s.mutexes| && o < |s.threads| && t != o
    requires s.mutexes[m].hold == 1 && s.mutexes[m].waiters != [] && s.mutexes[m].waiters[0] != t
    ensures Released(s, o, m).threads[t] == s.threads[t]
    ensures Released(s, o, m).mutexes[m].owner == Some(s.mutexes[m].waiters[0]) && s.mutexes[m].waiters[0] < |s.threads|
  {
  }

  lemma LeaveReleased(s: State, t: nat, m: nat, o: nat, s1: State, d: State, r: State)
    requires BetweenOwnerAndWaiter(s, t, m, o) && s.mutexes[m].hold == 1 && s1 == Unlinked(s, t)
    requires Without(s.mutexes[m].waiters, t) != []
    requires Dropped(s, t, m, o, d) && r == Released(d, o, m) && InRange(s1) && GiveUp(s1, o, m) == GiveUp(d, o, m)
    ensures InRange(Released(s1, o, m)) && Leave(Released(s1, o, m), t, m) == r
  {
    var q := Without(s.mutexes[m].waiters, t);
    assert MutexLinks(s, m);
    WithoutMembers(s.mutexes[m].waiters, t);
    WithoutBelow(s.mutexes[m].waiters, t, |s.threads|);
    var n, th := q[0], GiveUp(s1, o, m);
    assert n in q && n != o && n != t;
    assert o !in q[1..] && t !in q[1..];
    ReleasedAfter(s, t, m, o, d, q, th);
    ReleasedBefore(s, t, m, o, s1, q, th);
    LeaveHandOff(s, t, m, o, th, n, q[1..], d.threads, Released(s1, o, m), r);
  }

  /** The release while `t` is off the queue of `m`, which is `q` now. */
  lemma ReleasedBefore(s: State, t: nat, m: nat, o: nat, s1: State, q: seq<nat>, th: Thread)
    requires InRange(s) && t < |s.threads| && m < |s.mutexes| && o < |s.threads| && s.mutexes[m].hold == 1
    requires q != [] && Below(q, |s.threads|) && InRange(s1) && s1 == s.WithMutex(m, s.mutexes[m].(waiters := q)) && th == GiveUp(s1, o, m)
    ensures Released(s1, o, m) == State(s.threads[o := th][q[0] := WokenOwner(s.threads[q[0]], m)],
                                        s.mutexes[m := Mutex(Some(q[0]), 1, HeadPriority(s.threads, q[1..]), q[1..])])
  {
  }

  /** The release after `t` left the queue of `m`, which is `q` now. */
  lemma ReleasedAfter(s: State, t: nat, m: nat, o: nat, d: State, q: seq<nat>, th: Thread)
    requires InRange(s) && t < |s.threads| && m < |s.mutexes| && o < |s.threads| && s.mutexes[m].hold == 1
    requires q == Without(s.mutexes[m].waiters, t) && q != [] && Below(q, |s.threads|) && q[0] != t && q[0] != o && o !in q[1..]
    requires InRange(Leave(s, t, m)) && d == Settled(Leave(s, t, m), o) && InRange(d) && th == GiveUp(d, o, m)
    ensures Released(d, o, m) == State(d.threads[o := th][q[0] := WokenOwner(s.threads[q[0]], m)],
                                       s.mutexes[m := Mutex(Some(q[0]), 1, HeadPriority(s.threads, q[1..]), q[1..])])
  {
    SameHead(s.threads, d.threads, q[1..], o);
  }

  lemma SameHead(ts: seq<Thread>, ts': seq<Thread>, q: seq<nat>, o: nat)
    requires Below(q, |ts|) && |ts'| == |ts| && o !in q
    requires forall u :: 0 <= u < |ts| && u != o ==> ts'[u].currentPriority == ts[u].currentPriority
    ensures HeadPriority(ts', q) == HeadPriority(ts, q)
  {
    assert q != [] ==> q[0] in q;
  }

  /** Closing `t` after a hand-off, or before. */
  lemma LeaveHandOff(s: State, t: nat, m: nat, o: nat, th: Thread, n: nat, q: seq<nat>, ds: seq<Thread>, x: State, r: State)
    requires InRange(s) && t < |s.threads| && m < |s.mutexes| && o < |s.threads| && n < |s.threads| && t != o && t != n && n != o
    requires Below(q, |s.threads|) && t !in q && o !in q && Below(th.taken, |s.mutexes|) && th.pending == s.threads[o].pending
    requires |ds| == |s.threads| && ds[t] == s.threads[t].(stat := Closed)
    requires forall u :: 0 <= u < |ds| && u != t && u != o ==> ds[u] == s.threads[u]
    requires x == State(s.threads[o := th][n := WokenOwner(s.threads[n], m)],
                        s.mutexes[m := Mutex(Some(n), 1, HeadPriority(s.threads, q), q)])
    requires r == State(ds[o := th][n := WokenOwner(s.threads[n], m)],
                        s.mutexes[m := Mutex(Some(n), 1, HeadPriority(s.threads, q), q)])
    ensures InRange(x) && Leave(x, t, m) == r
  {
    Found(q, t);
    assert Without(q, t) == q;
    SameHead(s.threads, x.threads, q, o);
  }

  /**
   A release of the mutex between the two sections: if nobody else waits and it is the owner's last
   hold, the second section finds a mutex without owner; otherwise the outcome is that of detaching
   first and releasing then.
   */
  lemma ReleaseBetween(s: State, t: nat, m: nat, o: nat)
    requires BetweenOwnerAndWaiter(s, t, m, o)
    ensures InRange(Unlinked(s, t)) && MayClose(Released(Unlinked(s, t), o, m), t)
    ensures MayRelease(Detach(s, t), o, m)
    ensures var end := Close(Released(Unlinked(s, t), o, m), t);
            if s.mutexes[m].hold == 1 && s.mutexes[m].waiters == [t] then end == None
            else end == Some(Release(Detach(s, t), o, m).0)
  {
    var s1, d := Unlinked(s, t), Drop(s, t, m);
    assert MutexLinks(s, m) && ThreadLinks(s, t);
    UnlinkedRange(s, t);
    OnlyOne(s.mutexes[m].waiters, t);
    DropAtOnce(s, t, m, o);
    DetachedOwner(s, t, m, o, d);
    ClosesAs(s, t, m, o, s1, d);
  }

  /** What the second section finds after the release. */
  lemma ClosesAs(s: State, t: nat, m: nat, o: nat, s1: State, d: State)
    requires BetweenOwnerAndWaiter(s, t, m, o) && s1 == Unlinked(s, t) && InRange(s1) && Dropped(s, t, m, o, d)
    ensures MayClose(Released(s1, o, m), t)
    ensures Close(Released(s1, o, m), t) ==
            if s.mutexes[m].hold == 1 && Without(s.mutexes[m].waiters, t) == [] then None else Some(Forget(Released(d, o, m), t))
  {
    assert MutexLinks(s, m);
    if s.mutexes[m].hold > 1 {
      HoldBetween(s, t, m, o, s1, d);
    } else if Without(s.mutexes[m].waiters, t) != [] {
      ReleasedIs(d, o, m);
      HandOffBetween(s, t, m, o, s1, d, Released(d, o, m));
    } else {
      FreeBetween(s, t, m, o, s1, d);
    }
  }

  /** The owner may still release once `t` is detached, and that does not depend on what `t` remembers. */
  lemma DetachedOwner(s: State, t: nat, m: nat, o: nat, d: State)
    requires BetweenOwnerAndWaiter(s, t, m, o) && Dropped(s, t, m, o, d) && Inv(Forget(d, t))
    ensures MayRelease(Forget(d, t), o, m) && Release(Forget(d, t), o, m).0 == Forget(Released(d, o, m), t)
  {
    assert MutexLinks(s, m);
    WithoutMembers(s.mutexes[m].waiters, t);
    ReleaseForgets(d, t, m, o);
  }

  /** Nobody else waits: the mutex is free. */
  lemma FreeBetween(s: State, t: nat, m: nat, o: nat, s1: State, d: State)
    requires BetweenOwnerAndWaiter(s, t, m, o) && s.mutexes[m].hold == 1 && Without(s.mutexes[m].waiters, t) == []
    requires s1 == Unlinked(s, t) && InRange(s1) && Dropped(s, t, m, o, d)
    ensures MayClose(Released(s1, o, m), t) && Close(Released(s1, o, m), t) == None
  {
    GiveUpSame(s, t, m, o, s1, d);
    GiveUpDeserves(d, o, m);
    NoOwner(s1, t, m, o, GiveUp(d, o, m));
  }

  lemma NoOwner(s: State, t: nat, m: nat, o: nat, th: Thread)
    requires InRange(s) && t < |s.threads| && m < |s.mutexes| && o < |s.threads| && o != t && s.threads[t].pending == Some(m)
    requires s.mutexes[m].hold == 1 && s.mutexes[m].waiters == []
    requires th == GiveUp(s, o, m) && Below(th.taken, |s.mutexes|)
    ensures MayClose(Released(s, o, m), t) && Close(Released(s, o, m), t) == None
  {
    assert InRange(Free(s, o, th, m));
  }

  lemma OnlyOne(q: seq<nat>, t: nat)
    requires NoDup(q) && t in q
    ensures Without(q, t) == [] <==> q == [t]
  {
    WithoutMembers(q, t);
  }

  /** Whether the closed thread remembers its mutex does not matter to a release. */
  lemma ReleaseForgets(d: State, t: nat, m: nat, o: nat)
    requires t < |d.threads| && t != o && MayRelease(d, o, m) && MayRelease(Forget(d, t), o, m)
    requires d.mutexes[m].waiters != [] && d.mutexes[m].hold == 1 ==> d.mutexes[m].waiters[0] != t
    ensures Release(Forget(d, t), o, m).0 == Forget(Released(d, o, m), t)
  {
    GiveUpForgets(d, t, m, o);
    if d.mutexes[m].waiters != [] {
      SameHead(d.threads, Forget(d, t).threads, d.mutexes[m].waiters[1..], |d.threads|);
    }
  }

  lemma GiveUpForgets(d: State, t: nat, m: nat, o: nat)
    requires t < |d.threads| && t != o && MayRelease(d, o, m) && InRange(Forget(d, t))
    ensures GiveUp(Forget(d, t), o, m) == GiveUp(d, o, m)
  {
  }
}
