/**
 The event object of rt-thread/src/ipc.c: threads sleep until all, or any, of the
 flags they wait for are set, and may clear the flags that woke them.
 */
module EventFlags {
  import opened Base

  /** A 32-bit word of flags, as the set of the bits that are one. */
  type Flags = set<nat>

  /** The bits AND, OR and CLEAR of `event_info`. */
  datatype How = How(all: bool, some: bool, clear: bool)

  /** A sleeping thread with the flags it waits for and how. */
  datatype Waiter = Waiter(thread: nat, flags: Flags, option: How)

  /** A thread woken with the flags `recorded` when the event's flags were `seen`. */
  datatype Woken = Woken(waiter: Waiter, recorded: Flags, seen: Flags)

  predicate ValidOption(option: How) {
    option.all || option.some
  }

  /** The condition a thread waits for; a thread with neither option waits for nothing that can happen. */
  predicate Satisfied(w: Waiter, flags: Flags) {
    if w.option.all then w.flags <= flags
    else w.option.some && w.flags * flags != {}
  }

  /** The flags a woken thread is told. */
  function Recorded(w: Waiter, flags: Flags): Flags {
    if w.option.all then w.flags else w.flags * flags
  }

  /** The flags left after `w` was woken. */
  function Left(w: Waiter, flags: Flags): Flags {
    if w.option.clear then flags - Recorded(w, flags) else flags
  }

  /** What a scan of the waiting threads leaves: the flags, who still sleeps, who woke, and whether it went through. */
  datatype Scan = Scan(flags: Flags, asleep: seq<Waiter>, woken: seq<Woken>, ok: bool)

  /** The scan of `rt_event_send`: a waiter without a valid option ends it. */
  function ScanOf(flags: Flags, ws: seq<Waiter>): Scan {
    if ws == [] then Scan(flags, [], [], true)
    else
      var w := ws[0];
      if !ValidOption(w.option) then Scan(flags, ws, [], false)
      else if Satisfied(w, flags) then
        var r := ScanOf(Left(w, flags), ws[1..]);
        r.(woken := [Woken(w, Recorded(w, flags), flags)] + r.woken)
      else
        var r := ScanOf(flags, ws[1..]);
        r.(asleep := [w] + r.asleep)
  }

  // --------------------------------------------------------------- properties

  predicate Within(a: Flags, b: Flags) {
    a <= b
  }

  /** With fewer flags set no condition becomes true. */
  lemma FewerFlags(w: Waiter, flags: Flags, fewer: Flags)
    requires Within(fewer, flags) && Satisfied(w, fewer)
    ensures Satisfied(w, flags)
  {
    if !w.option.all {
      var x :| x in w.flags * fewer;
      assert x in w.flags * flags;
    }
  }

  lemma LeftWithin(w: Waiter, flags: Flags)
    ensures Within(Left(w, flags), flags)
  {
  }

  /** A scan only clears flags. */
  lemma {:induction false} ScanClears(flags: Flags, ws: seq<Waiter>)
    ensures Within(ScanOf(flags, ws).flags, flags)
    decreases |ws|
  {
    if ws != [] && ValidOption(ws[0].option) {
      if Satisfied(ws[0], flags) {
        ScanClears(Left(ws[0], flags), ws[1..]);
      } else {
        ScanClears(flags, ws[1..]);
      }
    }
  }

  /** Nobody sleeps whose condition holds. */
  ghost predicate Quiet(flags: Flags, ws: seq<Waiter>) {
    forall i :: 0 <= i < |ws| ==> Unsatisfied(flags, ws, i)
  }

  ghost predicate Unsatisfied(flags: Flags, ws: seq<Waiter>, i: nat)
    requires i < |ws|
  {
    !Satisfied(ws[i], flags)
  }

  ghost predicate AllValid(ws: seq<Waiter>) {
    forall i :: 0 <= i < |ws| ==> ValidAt(ws, i)
  }

  ghost predicate ValidAt(ws: seq<Waiter>, i: nat)
    requires i < |ws|
  {
    ValidOption(ws[i].option)
  }

  /** A scan goes through exactly if every waiter has a valid option. */
  lemma {:induction false} ScanCompletes(flags: Flags, ws: seq<Waiter>)
    ensures ScanOf(flags, ws).ok <==> AllValid(ws)
    decreases |ws|
  {
    if ws != [] {
      var t := ws[1..];
      forall i | 0 <= i < |t| ensures ValidAt(t, i) <==> ValidAt(ws, i + 1) {
      }
      if ValidOption(ws[0].option) {
        if Satisfied(ws[0], flags) {
          ScanCompletes(Left(ws[0], flags), t);
        } else {
          ScanCompletes(flags, t);
        }
        if AllValid(t) {
          forall i | 0 <= i < |ws| ensures ValidAt(ws, i) {
            assert i > 0 ==> ValidAt(t, i - 1);
          }
        }
        if AllValid(ws) {
          forall i | 0 <= i < |t| ensures ValidAt(t, i) {
            assert ValidAt(ws, i + 1);
          }
        }
      } else {
        assert !ValidAt(ws, 0);
      }
    }
  }

  /**
   After a scan that went through, no sleeping thread's condition holds, although threads in front
   of it and behind it may have cleared flags.
   */
  lemma {:induction false} ScanLeavesQuiet(flags: Flags, ws: seq<Waiter>)
    requires ScanOf(flags, ws).ok
    ensures Quiet(ScanOf(flags, ws).flags, ScanOf(flags, ws).asleep)
    decreases |ws|
  {
    if ws != [] {
      var r := ScanOf(flags, ws);
      if Satisfied(ws[0], flags) {
        ScanLeavesQuiet(Left(ws[0], flags), ws[1..]);
      } else {
        ScanLeavesQuiet(flags, ws[1..]);
        ScanClears(flags, ws[1..]);
        PrefixQuiet(ws[0], flags, r.flags, ScanOf(flags, ws[1..]).asleep);
      }
    }
  }

  /** A thread was woken because its condition held, and was told the flags that made it hold. */
  ghost predicate RightlyWoken(k: Woken) {
    && ValidOption(k.waiter.option) && Satisfied(k.waiter, k.seen)
    && k.recorded == Recorded(k.waiter, k.seen) && Within(k.recorded, k.waiter.flags) && Within(k.recorded, k.seen)
  }

  /** The threads woken one after the other: each saw what the one before it left. */
  ghost predicate Handed(flags: Flags, woken: seq<Woken>, left: Flags)
    decreases |woken|
  {
    if woken == [] then left == flags
    else woken[0].seen == flags && RightlyWoken(woken[0]) && Handed(Left(woken[0].waiter, flags), woken[1..], left)
  }

  lemma RecordedWithin(w: Waiter, flags: Flags)
    requires Satisfied(w, flags)
    ensures Within(Recorded(w, flags), w.flags) && Within(Recorded(w, flags), flags)
  {
  }

  /** The flags are handed along the woken threads in queue order. */
  lemma {:induction false} ScanHands(flags: Flags, ws: seq<Waiter>)
    ensures Handed(flags, ScanOf(flags, ws).woken, ScanOf(flags, ws).flags)
    decreases |ws|
  {
    if ws != [] && ValidOption(ws[0].option) {
      if Satisfied(ws[0], flags) {
        ScanHands(Left(ws[0], flags), ws[1..]);
        RecordedWithin(ws[0], flags);
        var rest := ScanOf(Left(ws[0], flags), ws[1..]).woken;
        assert ([Woken(ws[0], Recorded(ws[0], flags), flags)] + rest)[1..] == rest;
      } else {
        ScanHands(flags, ws[1..]);
      }
    }
  }

  /** Every waiter either woke or still sleeps. */
  lemma {:induction false} ScanKeepsAll(flags: Flags, ws: seq<Waiter>)
    ensures multiset(ws) == multiset(ScanOf(flags, ws).asleep) + multiset(Waiters(ScanOf(flags, ws).woken))
    decreases |ws|
  {
    if ws != [] {
      assert ws == [ws[0]] + ws[1..];
      if ValidOption(ws[0].option) {
        if Satisfied(ws[0], flags) {
          ScanKeepsAll(Left(ws[0], flags), ws[1..]);
          var rest := ScanOf(Left(ws[0], flags), ws[1..]).woken;
          assert Waiters([Woken(ws[0], Recorded(ws[0], flags), flags)] + rest) == [ws[0]] + Waiters(rest);
        } else {
          ScanKeepsAll(flags, ws[1..]);
        }
      }
    }
  }

  function Waiters(woken: seq<Woken>): (r: seq<Waiter>)
    ensures |r| == |woken|
    ensures forall i :: 0 <= i < |woken| ==> r[i] == woken[i].waiter
  {
    seq(|woken|, i requires 0 <= i < |woken| => woken[i].waiter)
  }

  /** No flag is given to a thread after another thread has cleared it. */
  lemma {:induction false} ClearedOnce(flags: Flags, woken: seq<Woken>, left: Flags, i: nat, j: nat)
    requires Handed(flags, woken, left) && i < j < |woken| && woken[i].waiter.option.clear
    ensures woken[i].recorded * woken[j].recorded == {}
    decreases i
  {
    if i > 0 {
      ClearedOnce(Left(woken[0].waiter, flags), woken[1..], left, i - 1, j - 1);
    } else {
      FirstCleared(flags, woken, left, j);
    }
  }

  lemma FirstCleared(flags: Flags, woken: seq<Woken>, left: Flags, j: nat)
    requires Handed(flags, woken, left) && 0 < j < |woken| && woken[0].waiter.option.clear
    ensures woken[0].recorded * woken[j].recorded == {}
  {
    var a := woken[0].recorded;
    var rest := Left(woken[0].waiter, flags);
    SeenShrinks(rest, woken[1..], left, j - 1);
    assert rest == flags - a;
  }

  lemma {:induction false} SeenShrinks(flags: Flags, woken: seq<Woken>, left: Flags, j: nat)
    requires Handed(flags, woken, left) && j < |woken|
    ensures Within(woken[j].seen, flags) && RightlyWoken(woken[j])
    decreases j
  {
    if j > 0 {
      var rest := Left(woken[0].waiter, flags);
      SeenShrinks(rest, woken[1..], left, j - 1);
    }
  }

  /** A flag survives a send exactly if no thread that wanted it cleared was told it. */
  lemma {:induction false} ScanFlags(flags: Flags, ws: seq<Waiter>, x: nat)
    ensures x in ScanOf(flags, ws).flags <==>
            x in flags && forall i :: 0 <= i < |ScanOf(flags, ws).woken| ==> Spared(ScanOf(flags, ws).woken, i, x)
    decreases |ws|
  {
    if ws != [] && ValidOption(ws[0].option) {
      if Satisfied(ws[0], flags) {
        var k := Woken(ws[0], Recorded(ws[0], flags), flags);
        var rest := ScanOf(Left(ws[0], flags), ws[1..]).woken;
        ScanFlags(Left(ws[0], flags), ws[1..], x);
        assert ScanOf(flags, ws).woken == [k] + rest;
        assert forall i :: 0 <= i < |rest| ==> (Spared([k] + rest, i + 1, x) <==> Spared(rest, i, x));
        assert (forall i :: 0 <= i < |[k] + rest| ==> Spared([k] + rest, i, x)) <==>
               Spared([k] + rest, 0, x) && forall i :: 0 <= i < |rest| ==> Spared(rest, i, x) by {
          if Spared([k] + rest, 0, x) && forall i :: 0 <= i < |rest| ==> Spared(rest, i, x) {
            forall i | 0 <= i < |[k] + rest| ensures Spared([k] + rest, i, x) {
              assert i > 0 ==> Spared(rest, i - 1, x);
            }
          }
        }
      } else {
        ScanFlags(flags, ws[1..], x);
      }
    }
  }

  /** Woken thread `i` did not clear the flag `x`. */
  ghost predicate Spared(woken: seq<Woken>, i: nat, x: nat)
    requires i < |woken|
  {
    !(woken[i].waiter.option.clear && x in woken[i].recorded)
  }

  // ----------------------------------------------------------- turn by turn

  /** The test of the code for one waiter. */
  predicate Wakes(w: Waiter, flags: Flags) {
    if w.option.all then w.flags <= flags else w.option.some && exists x :: x in w.flags && x in flags
  }

  /** The threads woken at turns `i` to `n`, when the flags are `fs[j]` at turn `j`, each told the flags it wanted and found. */
  function WokenFrom(ws: seq<Waiter>, fs: seq<Flags>, i: nat, n: nat): seq<Woken>
    requires i <= n <= |ws| && n <= |fs|
    decreases n - i
  {
    if i == n then []
    else if Wakes(ws[i], fs[i]) then [Woken(ws[i], ws[i].flags * fs[i], fs[i])] + WokenFrom(ws, fs, i + 1, n)
    else WokenFrom(ws, fs, i + 1, n)
  }

  /** The threads left asleep. */
  function AsleepFrom(ws: seq<Waiter>, fs: seq<Flags>, i: nat, n: nat): seq<Waiter>
    requires i <= n <= |ws| && n <= |fs|
    decreases n - i
  {
    if i == n then []
    else if Wakes(ws[i], fs[i]) then AsleepFrom(ws, fs, i + 1, n)
    else [ws[i]] + AsleepFrom(ws, fs, i + 1, n)
  }

  /** At turn `i` a thread that wakes and wants it clears what it waited for. */
  ghost predicate TurnAt(ws: seq<Waiter>, fs: seq<Flags>, i: nat)
    requires i < |ws| && i + 1 < |fs|
  {
    && (ws[i].option.all || ws[i].option.some)
    && fs[i + 1] == if Wakes(ws[i], fs[i]) && ws[i].option.clear then fs[i] - ws[i].flags else fs[i]
  }

  lemma {:induction false} LaterTurns(ws: seq<Waiter>, fs: seq<Flags>, i: nat, n: nat)
    requires ws != [] && fs != [] && i < n <= |ws| && n <= |fs|
    ensures WokenFrom(ws[1..], fs[1..], i, n - 1) == WokenFrom(ws, fs, i + 1, n)
    ensures AsleepFrom(ws[1..], fs[1..], i, n - 1) == AsleepFrom(ws, fs, i + 1, n)
    decreases n - i
  {
    if i + 1 < n {
      assert ws[1..][i] == ws[i + 1] && fs[1..][i] == fs[i + 1];
      LaterTurns(ws, fs, i + 1, n);
    }
  }

  /**
   The scan as a walk of `n` turns in queue order, with `fs[i]` the flags at turn `i`: it ends behind the
   last waiter, or at the first one without a valid option.
   */
  lemma {:induction false} ScanTurns(flags: Flags, ws: seq<Waiter>) returns (fs: seq<Flags>, n: nat)
    ensures n <= |ws| && |fs| == n + 1 && fs[0] == flags && fs[n] == ScanOf(flags, ws).flags
    ensures forall i :: 0 <= i < n ==> TurnAt(ws, fs, i)
    ensures ScanOf(flags, ws).woken == WokenFrom(ws, fs, 0, n)
    ensures ScanOf(flags, ws).asleep == AsleepFrom(ws, fs, 0, n) + ws[n..]
    ensures ScanOf(flags, ws).ok <==> n == |ws|
    ensures n < |ws| ==> !ws[n].option.all && !ws[n].option.some
    decreases |ws|
  {
    if ws == [] || !ValidOption(ws[0].option) {
      fs, n := [flags], 0;
    } else {
      var wakes := Satisfied(ws[0], flags);
      WakesIs(ws[0], flags);
      var fs1, n1 := ScanTurns(if wakes then Left(ws[0], flags) else flags, ws[1..]);
      fs, n := [flags] + fs1, n1 + 1;
      FirstTurn(flags, ws, fs1, n1);
      forall i | 0 <= i < n ensures TurnAt(ws, fs, i) {
        assert i > 0 ==> TurnAt(ws[1..], fs1, i - 1) && fs[i] == fs1[i - 1] && fs[i + 1] == fs1[i];
      }
    }
  }

  /** The turn of the first waiter in front of the `n1` turns of the others. */
  lemma FirstTurn(flags: Flags, ws: seq<Waiter>, fs1: seq<Flags>, n1: nat)
    requires ws != [] && ValidOption(ws[0].option) && n1 < |ws| && |fs1| == n1 + 1
    requires var rest := ScanOf(if Satisfied(ws[0], flags) then Left(ws[0], flags) else flags, ws[1..]);
             rest.woken == WokenFrom(ws[1..], fs1, 0, n1) && rest.asleep == AsleepFrom(ws[1..], fs1, 0, n1) + ws[1..][n1..]
    ensures ScanOf(flags, ws).woken == WokenFrom(ws, [flags] + fs1, 0, n1 + 1)
    ensures ScanOf(flags, ws).asleep == AsleepFrom(ws, [flags] + fs1, 0, n1 + 1) + ws[n1 + 1..]
  {
    var fs := [flags] + fs1;
    assert fs[1..] == fs1 && ws[n1 + 1..] == ws[1..][n1..];
    LaterTurns(ws, fs, 0, n1 + 1);
    var w, all := ws[0], ScanOf(flags, ws);
    WakesIs(w, flags);
    if !Wakes(w, flags) {
      var later, behind := AsleepFrom(ws, fs, 1, n1 + 1), ws[n1 + 1..];
      assert all.asleep == [w] + (later + behind) == ([w] + later) + behind;
    }
  }

  lemma WakesIs(w: Waiter, flags: Flags)
    ensures Satisfied(w, flags) <==> Wakes(w, flags)
    ensures Wakes(w, flags) ==> Recorded(w, flags) == w.flags * flags
    ensures Wakes(w, flags) ==> Left(w, flags) == if w.option.clear then flags - w.flags else flags
  {
    if x :| x in w.flags && x in flags {
      assert x in w.flags * flags;
    }
    if x :| x in w.flags * flags {
      assert x in w.flags && x in flags;
    }
  }

  lemma PrefixQuiet(w: Waiter, flags: Flags, fewer: Flags, q: seq<Waiter>)
    requires !Satisfied(w, flags) && Within(fewer, flags) && Quiet(fewer, q)
    ensures Quiet(fewer, [w] + q)
  {
    var r := [w] + q;
    forall i | 0 <= i < |r| ensures Unsatisfied(fewer, r, i) {
      if i == 0 {
        if Satisfied(w, fewer) {
          FewerFlags(w, flags, fewer);
        }
      } else {
        assert Unsatisfied(fewer, q, i - 1);
      }
    }
  }

  /**
   An incomplete scan stops at the first waiter without a valid option: nobody in front of it sleeps
   wrongly, and nobody from there on was looked at.
   */
  lemma {:induction false} IncompleteScan(flags: Flags, ws: seq<Waiter>) returns (front: seq<Waiter>, k: nat)
    requires !ScanOf(flags, ws).ok
    ensures k < |ws| && !ValidAt(ws, k) && forall i :: 0 <= i < k ==> ValidAt(ws, i)
    ensures ScanOf(flags, ws).asleep == front + ws[k..] && Quiet(ScanOf(flags, ws).flags, front)
    decreases |ws|
  {
    if !ValidOption(ws[0].option) {
      front, k := [], 0;
    } else {
      var t := ws[1..];
      var flags1 := if Satisfied(ws[0], flags) then Left(ws[0], flags) else flags;
      var j;
      front, j := IncompleteScan(flags1, t);
      k := j + 1;
      forall i | 0 <= i < k ensures ValidAt(ws, i) {
        assert i > 0 ==> ValidAt(t, i - 1);
      }
      assert ValidAt(ws, k) <==> ValidAt(t, j);
      assert ws[k..] == t[j..];
      if !Satisfied(ws[0], flags) {
        ScanClears(flags, t);
        PrefixQuiet(ws[0], flags, ScanOf(flags, t).flags, front);
        front := [ws[0]] + front;
      }
    }
  }

  // ----------------------------------------------------------------- the code

  /** The result of asking for flags. */
  datatype Reply = Got(received: Flags) | TimedOut | Sleeps | Invalid

  /** The result of sending flags. */
  datatype Sent = Done | Nothing | BadWaiter

  class Event {
    var flags: Flags              // event->set
    var asleep: seq<Waiter>      // event->parent.suspend_thread

    /** Every waiter has a valid option and none could go on. */
    ghost predicate Valid()
      reads this
    {
      AllValid(asleep) && Quiet(flags, asleep)
    }

    constructor ()
      ensures Valid() && flags == {} && asleep == []
    {
      flags, asleep := {}, [];
    }

    /** `rt_event_send`, which fails with nothing to send, or at a waiter without a valid option. */
    method Send(given: Flags) returns (r: Sent, woken: seq<Woken>)
      modifies this
      ensures r.Nothing? <==> given == {}
      ensures r.BadWaiter? <==> given != {} && !old(AllValid(asleep))
      ensures r.Nothing? ==> flags == old(flags) && asleep == old(asleep) && woken == []
      ensures !r.Nothing? ==> Scan(flags, asleep, woken, r.Done?) == ScanOf(old(flags) + given, old(asleep))
      ensures r.Done? || old(Valid()) ==> Valid()
      ensures forall x :: x in flags <==>
                (x in old(flags) || x in given) && forall i :: 0 <= i < |woken| ==> Spared(woken, i, x)
    {
      if given == {} {
        return Nothing, [];
      }
      flags := flags + given;
      ScanCompletes(flags, asleep);
      forall x ensures x in ScanOf(flags, asleep).flags <==>
        x in flags && forall i :: 0 <= i < |ScanOf(flags, asleep).woken| ==> Spared(ScanOf(flags, asleep).woken, i, x)
      {
        ScanFlags(flags, asleep, x);
      }
      var ok;
      ok, woken := ScanList();
      r := if ok then Done else BadWaiter;
      if ok {
        ScanLeavesQuiet(old(flags) + given, old(asleep));
        ScanKeepsValid(old(flags) + given, old(asleep));
      }
    }

    /** The walk along the list of sleeping threads; woken threads leave the list. */
    method ScanList() returns (ok: bool, woken: seq<Woken>)
      modifies this
      ensures Scan(flags, asleep, woken, ok) == ScanOf(old(flags), old(asleep))
    {
      ok, woken := true, [];
      var n := 0;
      while n < |asleep|
        invariant 0 <= n <= |asleep| && ok
        invariant ScanOf(old(flags), old(asleep)) == Joined(asleep[..n], woken, ScanOf(flags, asleep[n..]))
        decreases |asleep| - n
      {
        var w := asleep[n];
        ghost var rest := asleep[n..];
        assert rest[0] == w && rest[1..] == asleep[n + 1..];
        if !(w.option.all) && !(w.option.some) {
          assert asleep[..n] + asleep[n..] == asleep;
          ok := false;
          return;
        }
        if Satisfied(w, flags) {
          var k := Woken(w, Recorded(w, flags), flags);
          ghost var front, behind := asleep[..n], asleep[n + 1..];
          StepWoken(front, woken, flags, rest);
          if w.option.clear {
            flags := flags - k.recorded;
          }
          asleep := asleep[..n] + asleep[n + 1..];
          woken := woken + [k];
          assert asleep[..n] == front && asleep[n..] == behind;
        } else {
          StepAsleep(asleep[..n], woken, flags, rest);
          assert asleep[..n + 1] == asleep[..n] + [w];
          n := n + 1;
        }
      }
      assert asleep[..n] == asleep && asleep[n..] == [];
    }

    /**
     `rt_event_recv` by thread `t`; `at` is where `_ipc_list_suspend` puts a thread that has to
     sleep.  Without assertions a thread that asks with neither AND nor OR can only sleep, and then
     spoils the event.
     */
    method Receive(t: nat, wanted: Flags, option: How, mayWait: bool, at: nat) returns (r: Reply)
      requires at <= |asleep|
      modifies this
      ensures AllValid(asleep) <==> old(AllValid(asleep)) && (ValidOption(option) || !r.Sleeps?)
      ensures old(Quiet(flags, asleep)) ==> Quiet(flags, asleep)
      ensures r.Invalid? <==> wanted == {}
      ensures r.Got? <==> wanted != {} && if option.all then wanted <= old(flags) else option.some && wanted * old(flags) != {}
      ensures r.Got? ==> flags == if option.clear then old(flags) - wanted else old(flags)
      ensures r.Got? ==> r.received == wanted * old(flags)
      ensures !r.Got? ==> flags == old(flags)
      ensures r.Sleeps? <==> wanted != {} && mayWait && !r.Got?
      ensures asleep == if r.Sleeps? then old(asleep[..at] + [Waiter(t, wanted, option)] + asleep[at..]) else old(asleep)
    {
      if wanted == {} {
        return Invalid;
      }
      ghost var w := Waiter(t, wanted, option);
      var status := false;
      if option.all {
        status := wanted <= flags;
      } else if option.some {
        status := flags * wanted != {};
      }
      StatusIs(w, flags);
      if status {
        r := Got(flags * wanted);
        if option.clear {
          flags := flags - wanted;
        }
        if old(Quiet(flags, asleep)) {
          StillQuiet(w, old(flags), asleep);
        }
      } else if !mayWait {
        r := TimedOut;
      } else {
        JoinedQuiet(flags, asleep, w, at);
        JoinedValid(asleep, w, at);
        asleep := asleep[..at] + [Waiter(t, wanted, option)] + asleep[at..];
        r := Sleeps;
      }
    }
  }

  /** `front` stays asleep in front of what `r` leaves, and `woken` woke before. */
  function Joined(front: seq<Waiter>, woken: seq<Woken>, r: Scan): Scan {
    Scan(r.flags, front + r.asleep, woken + r.woken, r.ok)
  }

  lemma StepWoken(front: seq<Waiter>, woken: seq<Woken>, flags: Flags, rest: seq<Waiter>)
    requires rest != [] && ValidOption(rest[0].option) && Satisfied(rest[0], flags)
    ensures Joined(front, woken, ScanOf(flags, rest)) ==
            Joined(front, woken + [Woken(rest[0], Recorded(rest[0], flags), flags)], ScanOf(Left(rest[0], flags), rest[1..]))
  {
    var k := Woken(rest[0], Recorded(rest[0], flags), flags);
    var r := ScanOf(Left(rest[0], flags), rest[1..]);
    assert woken + ([k] + r.woken) == (woken + [k]) + r.woken;
  }

  lemma StepAsleep(front: seq<Waiter>, woken: seq<Woken>, flags: Flags, rest: seq<Waiter>)
    requires rest != [] && ValidOption(rest[0].option) && !Satisfied(rest[0], flags)
    ensures Joined(front, woken, ScanOf(flags, rest)) == Joined(front + [rest[0]], woken, ScanOf(flags, rest[1..]))
  {
    var r := ScanOf(flags, rest[1..]);
    assert front + ([rest[0]] + r.asleep) == (front + [rest[0]]) + r.asleep;
  }

  lemma {:induction false} ScanKeepsValid(flags: Flags, ws: seq<Waiter>)
    requires AllValid(ws)
    ensures AllValid(ScanOf(flags, ws).asleep)
    decreases |ws|
  {
    if ws != [] {
      var t := ws[1..];
      assert ValidAt(ws, 0);
      forall i | 0 <= i < |t| ensures ValidAt(t, i) {
        assert ValidAt(ws, i + 1);
      }
      if Satisfied(ws[0], flags) {
        ScanKeepsValid(Left(ws[0], flags), t);
      } else {
        ScanKeepsValid(flags, t);
        var q := ScanOf(flags, t).asleep;
        var q' := ScanOf(flags, ws).asleep;
        assert q' == [ws[0]] + q;
        forall i | 0 <= i < |q'| ensures ValidAt(q', i) {
          assert i > 0 ==> ValidAt(q, i - 1);
        }
      }
    }
  }

  /** The test of `rt_event_recv` is the waiting condition, and clears what was received. */
  lemma StatusIs(w: Waiter, flags: Flags)
    ensures Satisfied(w, flags) <==>
            if w.option.all then w.flags <= flags else w.option.some && flags * w.flags != {}
    ensures Satisfied(w, flags) ==> Recorded(w, flags) == flags * w.flags
    ensures Satisfied(w, flags) && w.option.clear ==> Left(w, flags) == flags - w.flags
  {
  }

  /** Receiving flags makes no sleeping thread's condition true. */
  lemma StillQuiet(w: Waiter, flags: Flags, ws: seq<Waiter>)
    requires Quiet(flags, ws)
    ensures Quiet(Left(w, flags), ws)
  {
    LeftWithin(w, flags);
    forall i | 0 <= i < |ws| ensures Unsatisfied(Left(w, flags), ws, i) {
      assert Unsatisfied(flags, ws, i);
      if Satisfied(ws[i], Left(w, flags)) {
        FewerFlags(ws[i], flags, Left(w, flags));
      }
    }
  }

  lemma JoinedQuiet(flags: Flags, ws: seq<Waiter>, w: Waiter, at: nat)
    requires !Satisfied(w, flags) && at <= |ws|
    ensures Quiet(flags, ws) ==> Quiet(flags, ws[..at] + [w] + ws[at..])
  {
    var q := ws[..at] + [w] + ws[at..];
    if Quiet(flags, ws) {
      forall i | 0 <= i < |q| ensures Unsatisfied(flags, q, i) {
        var j := if i < at then i else i - 1;
        assert i != at ==> q[i] == ws[j] && Unsatisfied(flags, ws, j);
      }
    }
  }

  lemma JoinedValid(ws: seq<Waiter>, w: Waiter, at: nat)
    requires at <= |ws|
    ensures AllValid(ws[..at] + [w] + ws[at..]) <==> AllValid(ws) && ValidOption(w.option)
  {
    var q := ws[..at] + [w] + ws[at..];
    assert ValidAt(q, at) <==> ValidOption(w.option);
    forall i | 0 <= i < |ws| ensures ValidAt(ws, i) <==> ValidAt(q, if i < at then i else i + 1) {
    }
    if AllValid(ws) && ValidOption(w.option) {
      forall i | 0 <= i < |q| ensures ValidAt(q, i) {
        assert i != at ==> ValidAt(ws, if i < at then i else i - 1);
      }
    }
  }

  /**
   A thread that waits with neither AND nor OR makes the send after it fail and leaves the thread
   behind it asleep, although the flag this thread waits for is set.
   */
  method InvalidWaiterBlocks() returns (e: Event, r: Sent)
    ensures fresh(e) && r == BadWaiter && e.flags == {1}
    ensures |e.asleep| == 2 && Satisfied(e.asleep[1], e.flags)
  {
    e := new Event();
    var first := e.Receive(0, {0}, How(false, false, true), true, 0);
    var second := e.Receive(1, {1}, How(false, true, false), true, 1);
    assert e.asleep == [Waiter(0, {0}, How(false, false, true)), Waiter(1, {1}, How(false, true, false))];
    assert !ValidAt(e.asleep, 0);
    var woken;
    r, woken := e.Send({1});
    assert 1 in e.asleep[1].flags * e.flags;
  }
}
