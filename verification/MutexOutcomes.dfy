/**
 What each mutex operation does, besides keeping the priority-inheritance
 invariant: who owns, holds and waits afterwards, and who is untouched.
 */
module MutexOutcomes {
  import opened Base
  import opened PriorityInheritance

  /** Thread `u` has the same state, taken mutexes and pending mutex. */
  ghost predicate SameThread(s: State, s': State, u: nat) {
    && u < |s.threads| && u < |s'.threads|
    && s'.threads[u] == s.threads[u].(currentPriority := s'.threads[u].currentPriority)
  }

  /** Mutex `k` has the same owner, hold count and waiting threads. */
  ghost predicate SameMutex(s: State, s': State, k: nat) {
    && k < |s.mutexes| && k < |s'.mutexes|
    && s'.mutexes[k].owner == s.mutexes[k].owner && s'.mutexes[k].hold == s.mutexes[k].hold
    && forall w :: w in s'.mutexes[k].waiters <==> w in s.mutexes[k].waiters
  }

  /** All threads but those in `except` are as before, up to inherited priorities. */
  ghost predicate OtherThreads(s: State, s': State, except: set<nat>) {
    |s'.threads| == |s.threads| && forall u :: 0 <= u < |s.threads| && u !in except ==> SameThread(s, s', u)
  }

  ghost predicate OtherMutexes(s: State, s': State, m: nat) {
    |s'.mutexes| == |s.mutexes| && forall k :: 0 <= k < |s.mutexes| && k != m ==> SameMutex(s, s', k)
  }

  /** All threads but those in `except`, and all mutexes but `m`, are exactly as before. */
  ghost predicate Untouched(s: State, s': State, except: set<nat>, m: nat) {
    && |s'.threads| == |s.threads| && |s'.mutexes| == |s.mutexes|
    && (forall u :: 0 <= u < |s.threads| && u !in except ==> s'.threads[u] == s.threads[u])
    && (forall k :: 0 <= k < |s.mutexes| && k != m ==> s'.mutexes[k] == s.mutexes[k])
  }

  /** `t` holds `m` once more. */
  ghost predicate Acquired(s: State, s': State, t: nat, m: nat)
    requires t < |s.threads| && m < |s.mutexes|
  {
    && Untouched(s, s', {t}, m)
    && s'.mutexes[m].owner == Some(t) && s'.mutexes[m].hold == s.mutexes[m].hold + 1
    && s'.mutexes[m].waiters == s.mutexes[m].waiters
    && s'.threads[t] == s.threads[t].(taken := s'.threads[t].taken)
    && forall k :: k in s'.threads[t].taken <==> k in s.threads[t].taken || k == m
  }

  /** `t` sleeps in the queue of `m`; priorities only went up, and the owner is at least as urgent as `t` was. */
  ghost predicate WentToSleep(s: State, s': State, t: nat, m: nat)
    requires t < |s.threads| && m < |s.mutexes|
  {
    && OtherThreads(s, s', {t}) && OtherMutexes(s, s', m)
    && s'.threads[t] == s.threads[t].(stat := Suspended, pending := Some(m), currentPriority := s'.threads[t].currentPriority)
    && s'.mutexes[m].owner == s.mutexes[m].owner && s'.mutexes[m].hold == s.mutexes[m].hold
    && (forall w :: w in s'.mutexes[m].waiters <==> w in s.mutexes[m].waiters || w == t)
    && (forall u :: 0 <= u < |s.threads| ==> s'.threads[u].currentPriority <= s.threads[u].currentPriority)
    && s.mutexes[m].owner.Some? && s.mutexes[m].owner.value < |s.threads|
    && s'.threads[s.mutexes[m].owner.value].currentPriority <= s.threads[t].currentPriority
  }

  /** The four results of a take, each exactly when it should be, and what each changes. */
  lemma TakeOutcome(s: State, t: nat, m: nat, wait: bool)
    requires Inv(s) && t < |s.threads| && m < |s.mutexes| && s.threads[t].stat == Running
    ensures var (s', r) := Take(s, t, m, wait);
            var mx := s.mutexes[m];
            && (r == Taken <==> mx.owner.None? || (mx.owner == Some(t) && mx.hold < HOLD_MAX))
            && (r == Full <==> mx.owner == Some(t) && mx.hold == HOLD_MAX)
            && (r == Timeout <==> mx.owner.Some? && mx.owner != Some(t) && !wait)
            && (r == Sleeping <==> mx.owner.Some? && mx.owner != Some(t) && wait)
            && (r == Taken ==> Acquired(s, s', t, m))
            && (r == Sleeping ==> WentToSleep(s, s', t, m))
            && (r == Full || r == Timeout ==> s' == s)
  {
    var mx := s.mutexes[m];
    assert MutexLinks(s, m) && ThreadLinks(s, t);
    if mx.owner.Some? && mx.owner != Some(t) && wait {
      SleepOutcome(s, t, m);
    }
  }

  lemma SleepOutcome(s: State, t: nat, m: nat)
    requires MaySleep(s, t, m)
    ensures WentToSleep(s, Take(s, t, m, true).0, t, m)
  {
    var s2, s' := SleepAndMark(s, t, m), Take(s, t, m, true).0;
    AsleepIs(s, t, m);
    TakeBoosts(s, t, m, s2);
    BoostedSleeper(s, s2, s', t, m);
  }

  /** After falling asleep priorities go up only, and links stay. */
  lemma TakeBoosts(s: State, t: nat, m: nat, s2: State)
    requires MaySleep(s, t, m) && s2 == SleepAndMark(s, t, m)
    ensures Linked(s2) && SameLinks(s2, Take(s, t, m, true).0) && Monotone(s2, Take(s, t, m, true).0, true)
  {
    SleepLeavesHole(s, t, m);
  }

  lemma BoostedSleeper(s: State, s2: State, s': State, t: nat, m: nat)
    requires MaySleep(s, t, m) && Asleep(s, s2, t, m) && SameLinks(s2, s') && Monotone(s2, s', true) && Inv(s')
    ensures WentToSleep(s, s', t, m)
  {
    assert MutexLinks(s, m) && MutexLinks(s', m);
    assert t in s2.mutexes[m].waiters;
    OwnerUrged(s', t, m);
  }

  /** `t` asleep on `m`, before any priority was passed on. */
  ghost predicate Asleep(s: State, s': State, t: nat, m: nat)
    requires t < |s.threads| && m < |s.mutexes|
  {
    && Untouched(s, s', {t}, m)
    && s'.threads[t] == s.threads[t].(stat := Suspended, pending := Some(m))
    && s'.mutexes[m].owner == s.mutexes[m].owner && s'.mutexes[m].hold == s.mutexes[m].hold
    && forall w :: w in s'.mutexes[m].waiters <==> w in s.mutexes[m].waiters || w == t
  }

  lemma AsleepIs(s: State, t: nat, m: nat)
    requires MaySleep(s, t, m)
    ensures Asleep(s, SleepAndMark(s, t, m), t, m)
  {
    EnqueueMembers(s.threads, s.mutexes[m].waiters, t);
  }

  /** An owner is at least as urgent as any waiter. */
  lemma OwnerUrged(s: State, w: nat, m: nat)
    requires Inv(s) && m < |s.mutexes| && s.mutexes[m].owner.Some? && w in s.mutexes[m].waiters
    ensures w < |s.threads| && s.mutexes[m].owner.value < |s.threads|
    ensures s.threads[s.mutexes[m].owner.value].currentPriority <= s.threads[w].currentPriority
  {
    var o := s.mutexes[m].owner.value;
    assert MutexOk(s, m) && ThreadOk(s, o) && MutexLinks(s, m);
    HeadIsMin(s.threads, s.mutexes[m].waiters, w);
  }

  // ------------------------------------------------------------------ release

  /** `t` no longer holds `m`, and keeps the rest. */
  ghost predicate GaveBack(s: State, s': State, t: nat, m: nat)
    requires t < |s.threads|
  {
    && t < |s'.threads| && SameButTaken(s.threads[t], s'.threads[t])
    && forall k :: k in s'.threads[t].taken <==> k in s.threads[t].taken && k != m
  }

  ghost predicate SameButTaken(a: Thread, b: Thread) {
    b == a.(taken := b.taken, currentPriority := b.currentPriority)
  }

  /** `m` went from `t` to its most urgent waiter `n`, the first in the queue, which is awake. */
  ghost predicate Passed(s: State, s': State, t: nat, m: nat, n: nat)
    requires t < |s.threads| && m < |s.mutexes|
  {
    && s.mutexes[m].waiters != [] && n == s.mutexes[m].waiters[0] && n < |s.threads| && n != t
    && Below(s.mutexes[m].waiters, |s.threads|)
    && Untouched(s, s', {t, n}, m) && GaveBack(s, s', t, m)
    && (forall w :: w in s.mutexes[m].waiters ==> s.threads[n].currentPriority <= s.threads[w].currentPriority)
    && s'.mutexes[m].owner == Some(n) && s'.mutexes[m].hold == 1 && s'.mutexes[m].waiters == s.mutexes[m].waiters[1..]
    && s'.threads[n] == s.threads[n].(stat := Ready, pending := None, taken := s'.threads[n].taken)
    && forall k :: k in s'.threads[n].taken <==> k in s.threads[n].taken || k == m
  }

  /** Only the owner can release; the last release frees the mutex or passes it to the most urgent waiter. */
  lemma ReleaseOutcome(s: State, t: nat, m: nat)
    requires Inv(s) && t < |s.threads| && m < |s.mutexes| && s.threads[t].stat == Running
    ensures var (s', ok) := Release(s, t, m);
            var mx := s.mutexes[m];
            && (ok <==> mx.owner == Some(t))
            && (!ok ==> s' == s)
            && (ok && mx.hold > 1 ==> s' == s.WithMutex(m, mx.(hold := mx.hold - 1)))
            && (ok && mx.hold == 1 && mx.waiters == [] ==>
                  Untouched(s, s', {t}, m) && GaveBack(s, s', t, m) && s'.mutexes[m].owner == None && s'.mutexes[m].waiters == [])
            && (ok && mx.hold == 1 && mx.waiters != [] ==> Passed(s, s', t, m, mx.waiters[0]))
  {
    if s.mutexes[m].owner == Some(t) {
      assert MutexLinks(s, m) && ThreadLinks(s, t);
      WithoutMembers(s.threads[t].taken, m);
      if s.mutexes[m].hold == 1 && s.mutexes[m].waiters != [] {
        PassedOutcome(s, t, m);
      }
    }
  }

  lemma PassedOutcome(s: State, t: nat, m: nat)
    requires MayRelease(s, t, m) && s.mutexes[m].hold == 1 && s.mutexes[m].waiters != []
    ensures Passed(s, Release(s, t, m).0, t, m, s.mutexes[m].waiters[0])
  {
    var n := s.mutexes[m].waiters[0];
    assert MutexLinks(s, m) && ThreadLinks(s, t) && MutexOk(s, m);
    assert n in s.mutexes[m].waiters;
    WithoutMembers(s.threads[t].taken, m);
    GiveUpDeserves(s, t, m);
    NextInLine(s, t, GiveUp(s, t, m), m);
    forall w | w in s.mutexes[m].waiters ensures s.threads[n].currentPriority <= s.threads[w].currentPriority {
      HeadIsMin(s.threads, s.mutexes[m].waiters, w);
    }
  }

  // ------------------------------------------------------------------- detach

  /** `t` is closed and, if it waited for a mutex, waits for none now; it keeps what it holds. */
  ghost predicate ClosedRecord(s: State, s': State, t: nat)
    requires t < |s.threads|
  {
    && t < |s'.threads|
    && s'.threads[t] == s.threads[t].(stat := Closed, pending := if Blocked(s, t) then None else s.threads[t].pending,
                                      currentPriority := s'.threads[t].currentPriority)
  }

  lemma DetachRecord(s: State, t: nat)
    requires Inv(s) && t < |s.threads|
    ensures ClosedRecord(s, Detach(s, t), t)
  {
  }

  /** A detached thread is closed and waits nowhere; ownership is as it was. */
  lemma DetachOutcome(s: State, t: nat)
    requires Inv(s) && t < |s.threads|
    ensures var s' := Detach(s, t);
            && OtherThreads(s, s', {t}) && ClosedRecord(s, s', t)
            && |s'.mutexes| == |s.mutexes|
            && forall k :: 0 <= k < |s.mutexes| ==>
                 && s'.mutexes[k].owner == s.mutexes[k].owner && s'.mutexes[k].hold == s.mutexes[k].hold
                 && forall w :: w in s'.mutexes[k].waiters <==> w in s.mutexes[k].waiters && w != t
  {
    var s' := Detach(s, t);
    DetachRecord(s, t);
    forall k, w | 0 <= k < |s.mutexes| ensures w in s'.mutexes[k].waiters <==> w in s.mutexes[k].waiters && w != t {
      assert MutexLinks(s, k) && ThreadLinks(s, t);
      WithoutMembers(s.mutexes[k].waiters, t);
      assert MutexLinks(s', k) && ThreadLinks(s', t);
    }
  }
}
