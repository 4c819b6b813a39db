/**
 The message queue of rt-thread/src/ipc.c.  A sender reserves a node, fills it
 and links it in three steps, a receiver unlinks, copies and frees in three; each
 method is one step, made without interruption, and steps of different threads
 interleave freely.
 */
module MessageQueue {
  import opened Base
  import opened MessageChains

  const ENTRY_MAX: nat := 0xffff
  const NODE_HEADER: nat := 4     // sizeof(struct rt_mq_message)

  // -------------------------------------------------------------- node homes

  /** What a thread that holds a node is doing with it. */
  datatype Flight = Sending(urgent: bool, filled: Option<seq<int>>) | Receiving(message: seq<int>)

  /** Where the nodes of the pool are: queued, free, or held by a thread. */
  datatype Nodes = Nodes(queue: seq<nat>, frees: seq<nat>, flights: map<nat, Flight>)

  ghost predicate OneHome(g: Nodes, n: nat) {
    || (n in g.queue && n !in g.frees && n !in g.flights)
    || (n !in g.queue && n in g.frees && n !in g.flights)
    || (n !in g.queue && n !in g.frees && n in g.flights)
  }

  /** Queue, free list and held nodes partition the pool. */
  ghost predicate Partition(g: Nodes, max: nat) {
    && NoDup(g.queue) && NoDup(g.frees)
    && (forall n :: n in g.queue || n in g.frees || n in g.flights ==> n < max)
    && (forall n :: 0 <= n < max ==> OneHome(g, n))
    && |g.queue| + |g.frees| + |g.flights| == max
  }

  ghost function Reserved(g: Nodes, f: Flight): Nodes
    requires g.frees != []
  {
    Nodes(g.queue, g.frees[1..], g.flights[g.frees[0] := f])
  }

  ghost function Unlinked(g: Nodes, f: Flight): Nodes
    requires g.queue != []
  {
    Nodes(g.queue[1..], g.frees, g.flights[g.queue[0] := f])
  }

  ghost function Appended(g: Nodes, n: nat): Nodes {
    Nodes(g.queue + [n], g.frees, g.flights - {n})
  }

  ghost function Prepended(g: Nodes, n: nat): Nodes {
    Nodes([n] + g.queue, g.frees, g.flights - {n})
  }

  ghost function Released(g: Nodes, n: nat): Nodes {
    Nodes(g.queue, [n] + g.frees, g.flights - {n})
  }

  lemma FlightAdded(flights: map<nat, Flight>, n: nat, f: Flight)
    requires n !in flights
    ensures |flights[n := f]| == |flights| + 1
  {
    assert flights[n := f].Keys == flights.Keys + {n};
  }

  lemma FlightRemoved(flights: map<nat, Flight>, n: nat)
    requires n in flights
    ensures |flights - {n}| == |flights| - 1
  {
    assert (flights - {n}).Keys == flights.Keys - {n};
  }

  lemma ReservedPartition(g: Nodes, max: nat, f: Flight)
    requires Partition(g, max) && g.frees != []
    ensures g.frees[0] < max && g.frees[0] !in g.queue && g.frees[0] !in g.flights && g.frees[0] !in g.frees[1..]
    ensures Partition(Reserved(g, f), max)
  {
    TailNoDup(g.frees);
    assert OneHome(g, g.frees[0]);
    FlightAdded(g.flights, g.frees[0], f);
    forall n | 0 <= n < max ensures OneHome(Reserved(g, f), n) {
      assert OneHome(g, n);
    }
  }

  lemma UnlinkedPartition(g: Nodes, max: nat, f: Flight)
    requires Partition(g, max) && g.queue != []
    ensures g.queue[0] < max && g.queue[0] !in g.frees && g.queue[0] !in g.flights && g.queue[0] !in g.queue[1..]
    ensures Partition(Unlinked(g, f), max)
  {
    TailNoDup(g.queue);
    assert OneHome(g, g.queue[0]);
    FlightAdded(g.flights, g.queue[0], f);
    forall n | 0 <= n < max ensures OneHome(Unlinked(g, f), n) {
      assert OneHome(g, n);
    }
  }

  lemma LinkedPartition(g: Nodes, max: nat, n: nat)
    requires Partition(g, max) && n in g.flights
    ensures n < max && n !in g.queue && n !in g.frees
    ensures Partition(Appended(g, n), max) && Partition(Prepended(g, n), max)
  {
    assert OneHome(g, n);
    SnocNoDup(g.queue, n);
    ConsNoDup(n, g.queue);
    FlightRemoved(g.flights, n);
    forall x | 0 <= x < max ensures OneHome(Appended(g, n), x) && OneHome(Prepended(g, n), x) {
      assert OneHome(g, x);
    }
  }

  lemma ReleasedPartition(g: Nodes, max: nat, n: nat)
    requires Partition(g, max) && n in g.flights
    ensures n < max && n !in g.queue && n !in g.frees
    ensures Partition(Released(g, n), max)
  {
    assert OneHome(g, n);
    ConsNoDup(n, g.frees);
    FlightRemoved(g.flights, n);
    forall x | 0 <= x < max ensures OneHome(Released(g, n), x) {
      assert OneHome(g, x);
    }
  }

  // ------------------------------------------------------------------ history

  /** What happened to the queue, oldest first. */
  datatype Event = Sent(message: seq<int>) | Urgent(message: seq<int>) | Received(message: seq<int>) | Reset

  /** What an event makes of the queued messages. */
  function After(q: seq<seq<int>>, e: Event): seq<seq<int>> {
    match e
    case Sent(m) => q + [m]
    case Urgent(m) => [m] + q
    case Received(_) => if q == [] then [] else q[1..]
    case Reset => []
  }

  /** The messages queued after a history. */
  function Replay(log: seq<Event>): seq<seq<int>> {
    if log == [] then [] else After(Replay(log[..|log| - 1]), log[|log| - 1])
  }

  /** Every message received was the first one queued at that moment. */
  predicate Legal(log: seq<Event>) {
    log == [] || (
      && Legal(log[..|log| - 1])
      && (log[|log| - 1].Received? ==>
            var before := Replay(log[..|log| - 1]); before != [] && before[0] == log[|log| - 1].message))
  }

  lemma Happens(log: seq<Event>, e: Event)
    ensures (log + [e])[..|log|] == log
    ensures Replay(log + [e]) == After(Replay(log), e)
    ensures Legal(log + [e]) <==> Legal(log) && (e.Received? ==> Replay(log) != [] && Replay(log)[0] == e.message)
  {
    assert (log + [e])[..|log|] == log;
  }

  function SentIn(log: seq<Event>): seq<seq<int>> {
    if log == [] then []
    else SentIn(log[..|log| - 1]) + if log[|log| - 1].Sent? then [log[|log| - 1].message] else []
  }

  function ReceivedIn(log: seq<Event>): seq<seq<int>> {
    if log == [] then []
    else ReceivedIn(log[..|log| - 1]) + if log[|log| - 1].Received? then [log[|log| - 1].message] else []
  }

  predicate Plain(log: seq<Event>) {
    forall i :: 0 <= i < |log| ==> !log[i].Urgent? && !log[i].Reset?
  }

  /** Without urgent messages and resets, messages are received in the order of sending and none is lost. */
  lemma {:induction false} FirstInFirstOut(log: seq<Event>)
    requires Legal(log) && Plain(log)
    ensures ReceivedIn(log) + Replay(log) == SentIn(log)
  {
    if log != [] {
      var before := log[..|log| - 1];
      FirstInFirstOut(before);
      assert !log[|log| - 1].Urgent? && !log[|log| - 1].Reset?;
      if log[|log| - 1].Received? {
        var m := log[|log| - 1].message;
        assert Replay(before) == [m] + Replay(before)[1..];
      }
    }
  }

  /** After an urgent message, with nothing urgent since, the queue still begins with it until something is received. */
  lemma {:induction false} UrgentFirst(log: seq<Event>, m: seq<int>, after: seq<Event>)
    requires forall i :: 0 <= i < |after| ==> after[i].Sent?
    ensures Replay(log + [Urgent(m)] + after) == [m] + Replay(log) + SentIn(after)
    decreases |after|
  {
    if after == [] {
      assert log + [Urgent(m)] + after == log + [Urgent(m)];
      Happens(log, Urgent(m));
    } else {
      var rest := after[..|after| - 1];
      var before, e := log + [Urgent(m)] + rest, after[|after| - 1];
      UrgentFirst(log, m, rest);
      assert log + [Urgent(m)] + after == before + [e];
      Happens(before, e);
      assert SentIn(after) == SentIn(rest) + [e.message];
    }
  }

  // -------------------------------------------------------------- held nodes

  /** A held node is as its holder left it: no step of another thread touched it. */
  ghost predicate HeldOk(next: seq<Option<nat>>, slots: seq<seq<int>>, n: nat, f: Flight) {
    && n < |next| && n < |slots|
    && match f
       case Sending(urgent, None) => true
       case Sending(urgent, Some(m)) => slots[n] == m && (!urgent ==> next[n] == None)
       case Receiving(m) => slots[n] == m
  }

  ghost predicate HeldAll(next: seq<Option<nat>>, slots: seq<seq<int>>, flights: map<nat, Flight>) {
    forall n :: n in flights ==> HeldOk(next, slots, n, flights[n])
  }

  ghost predicate SlotSized(slots: seq<seq<int>>, msgSize: nat, n: nat)
    requires n < |slots|
  {
    |slots[n]| == msgSize
  }

  /** The pointers spell out where the nodes are. */
  ghost predicate ListsAre(next: seq<Option<nat>>, head: Option<nat>, tail: Option<nat>, free: Option<nat>, g: Nodes, max: nat) {
    && Partition(g, max)
    && Chain(next, head, g.queue) && tail == Last(g.queue)
    && Chain(next, free, g.frees)
  }

  /** The messages queued are those the history tells. */
  ghost predicate HistoryIs(slots: seq<seq<int>>, q: seq<nat>, log: seq<Event>, msgSize: nat) {
    && Legal(log) && InPool(slots, q) && Contents(slots, q) == Replay(log)
    && forall n :: 0 <= n < |slots| ==> SlotSized(slots, msgSize, n)
  }

  /** Link all `n` nodes of a new pool into a free list. */
  method FreeList(n: nat) returns (links: array<Option<nat>>, first: Option<nat>, ghost q: seq<nat>)
    ensures fresh(links) && links.Length == n && Chain(links[..], first, q)
    ensures NoDup(q) && |q| == n && forall x :: x in q <==> 0 <= x < n
  {
    links := new Option<nat>[n](_ => None);
    first, q := None, [];
    var temp: nat := 0;
    while temp < n
      invariant 0 <= temp <= n && links.Length == n && Chain(links[..], first, q) && NoDup(q) && |q| == temp
      invariant forall x :: x in q <==> 0 <= x < temp
    {
      ChainPush(links[..], first, q, temp);
      ConsNoDup(temp, q);
      ghost var l := links[..];
      links[temp] := first;
      assert links[..] == l[temp := first];
      first := Some(temp);
      q := [temp] + q;
      temp := temp + 1;
    }
  }

  // ---------------------------------------------------------------- the object

  /** The result of asking for a free node or a message. */
  datatype Outcome = Done(node: nat) | TooLong | Refused | Waits

  class MessageQueue {
    const maxMsgs: nat
    const msgSize: nat
    const next: array<Option<nat>>
    const slots: array<seq<int>>
    var head: Option<nat>        // msg_queue_head
    var tail: Option<nat>        // msg_queue_tail
    var free: Option<nat>        // msg_queue_free
    var entry: nat
    var receivers: seq<nat>      // threads suspended in rt_mq_recv
    var senders: seq<nat>        // threads suspended in rt_mq_send_wait
    ghost var g: Nodes
    ghost var log: seq<Event>
    ghost var wokenReceivers: nat    // receivers resumed that have not looked again yet
    ghost var wokenSenders: nat

    /** The lists are what the pointers say. */
    ghost predicate Lists()
      reads this, next, slots
    {
      next.Length == maxMsgs && slots.Length == maxMsgs && ListsAre(next[..], head, tail, free, g, maxMsgs)
    }

    /** The messages queued are those the history tells. */
    ghost predicate History()
      reads this, slots
    {
      HistoryIs(slots[..], g.queue, log, msgSize)
    }

    /** A thread sleeps only if every message, or every free node, is spoken for by a resumed thread. */
    ghost predicate NoLostWakeup()
      reads this
    {
      && (receivers != [] ==> |g.queue| <= wokenReceivers)
      && (senders != [] ==> |g.frees| <= wokenSenders)
    }

    ghost predicate Valid()
      reads this, next, slots
    {
      && Lists() && History() && HeldAll(next[..], slots[..], g.flights)
      && entry == |g.queue| && maxMsgs <= ENTRY_MAX
      && NoLostWakeup()
    }

    /** `rt_mq_init` on a pool of `poolSize` bytes: every node is free.  The node count is cut to 16 bits. */
    constructor (messageSize: nat, poolSize: nat)
      ensures Valid() && fresh(next) && fresh(slots) && log == [] && g.flights == map[]
      ensures msgSize == Align(messageSize)
      ensures maxMsgs == poolSize / (Align(messageSize) + NODE_HEADER) % 0x1_0000
    {
      msgSize := Align(messageSize);
      maxMsgs := poolSize / (Align(messageSize) + NODE_HEADER) % 0x1_0000;
      var n := poolSize / (Align(messageSize) + NODE_HEADER) % 0x1_0000;
      var links, first;
      ghost var q;
      links, first, q := FreeList(n);
      next := links;
      slots := new seq<int>[n](_ => seq(Align(messageSize), _ => 0));
      head, tail, free, entry := None, None, first, 0;
      receivers, senders, wokenReceivers, wokenSenders := [], [], 0, 0;
      g, log := Nodes([], q, map[]), [];
      new;
      forall x: nat | 0 <= x < maxMsgs ensures OneHome(g, x) {
        assert x in q;
      }
      forall k | 0 <= k < slots.Length ensures SlotSized(slots[..], msgSize, k) {
      }
    }

    // ------------------------------------------------------------------ sending

    /** Take the first free node. */
    method PopFree(ghost urgent: bool) returns (n: nat)
      requires Lists() && free.Some? && HeldAll(next[..], slots[..], g.flights)
      modifies this`free, this`g
      ensures Lists() && HeldAll(next[..], slots[..], g.flights)
      ensures old(g.frees) != [] && n == old(g.frees)[0] && g == Reserved(old(g), Sending(urgent, None))
    {
      n := free.value;
      ReservedPartition(g, maxMsgs, Sending(urgent, None));
      ChainPop(next[..], free, g.frees);
      free := next[n];
      g := Reserved(g, Sending(urgent, None));
    }

    /** The first step of sending: `woken` if the thread was resumed from waiting here before. */
    method Reserve(urgent: bool, size: nat, mayWait: bool, t: nat, ghost woken: bool) returns (r: Outcome)
      requires Valid() && (woken ==> wokenSenders > 0) && (urgent ==> !mayWait)
      modifies this
      ensures Valid() && log == old(log) && receivers == old(receivers)
      ensures r.TooLong? <==> size > msgSize
      ensures r.Refused? <==> size <= msgSize && old(g.frees) == [] && !mayWait
      ensures r.Waits? <==> size <= msgSize && old(g.frees) == [] && mayWait
      ensures senders == if r.Waits? then old(senders) + [t] else old(senders)
      ensures r.Done? ==> g == Reserved(old(g), Sending(urgent, None)) && r.node in g.flights
      ensures !r.Done? ==> g == old(g)
      ensures wokenReceivers == old(wokenReceivers)
      ensures wokenSenders == old(wokenSenders) - if woken && !r.TooLong? then 1 else 0
    {
      if size > msgSize {
        return TooLong;
      }
      wokenSenders := if woken then wokenSenders - 1 else wokenSenders;
      if free.None? {
        if !mayWait {
          return Refused;
        }
        senders := senders + [t];
        return Waits;
      }
      var n := PopFree(urgent);
      r := Done(n);
    }

    /** The second step of sending, outside the lock: write the message into the reserved node. */
    method Fill(n: nat, buffer: seq<int>, urgent: bool) returns (ghost m: seq<int>)
      requires Valid() && n in g.flights && g.flights[n] == Sending(urgent, None) && |buffer| <= msgSize
      modifies this`g, next, slots
      ensures Valid() && |m| == msgSize && m[..|buffer|] == buffer
      ensures g == old(g).(flights := old(g).flights[n := Sending(urgent, Some(m))])
    {
      assert OneHome(g, n) && SlotSized(slots[..], msgSize, n);
      if !urgent {
        Terminate(n);
      }
      m := buffer + slots[n][|buffer|..];
      Write(n, buffer);
      g := g.(flights := g.flights[n := Sending(urgent, Some(m))]);
      FillPartition(old(g), maxMsgs, n, Sending(urgent, Some(m)));
    }

    /** The link of a held node becomes null. */
    method Terminate(n: nat)
      requires Lists() && n in g.flights && g.flights[n] == Sending(false, None) && HeldAll(next[..], slots[..], g.flights)
      modifies next
      ensures Lists() && HeldAll(next[..], slots[..], g.flights) && next[n] == None
    {
      assert OneHome(g, n);
      ChainKeeps(next[..], head, g.queue, n, None);
      ChainKeeps(next[..], free, g.frees, n, None);
      ghost var l := next[..];
      next[n] := None;
      assert next[..] == l[n := None];
    }

    /** Data of a held node is overwritten. */
    method Write(n: nat, buffer: seq<int>)
      requires n < slots.Length && History() && n !in g.queue && |buffer| <= msgSize == |slots[n]|
      modifies slots
      ensures History() && slots[..] == old(slots[..])[n := buffer + old(slots[n])[|buffer|..]]
      ensures |slots[n]| == msgSize
    {
      ContentsKeep(slots[..], g.queue, n, buffer + slots[n][|buffer|..]);
      ghost var c := slots[..];
      slots[n] := buffer + slots[n][|buffer|..];
      forall k | 0 <= k < slots.Length ensures SlotSized(slots[..], msgSize, k) {
        assert SlotSized(c, msgSize, k);
      }
    }

    /** Link the filled node `n` behind the queue. */
    method LinkTail(n: nat, ghost m: seq<int>)
      requires Lists() && HeldAll(next[..], slots[..], g.flights) && n in g.flights && g.flights[n] == Sending(false, Some(m))
      modifies this`head, this`tail, this`g, next
      ensures Lists() && HeldAll(next[..], slots[..], g.flights) && g == Appended(old(g), n)
    {
      LinkedPartition(g, maxMsgs, n);
      ChainAppend(next[..], head, g.queue, n);
      if tail.Some? {
        assert tail.value in g.queue && OneHome(g, tail.value);
        ChainKeeps(next[..], free, g.frees, tail.value, Some(n));
        ghost var l := next[..];
        next[tail.value] := Some(n);
        assert next[..] == l[tail.value := Some(n)];
      }
      tail := Some(n);
      if head.None? {
        head := Some(n);
      }
      g := Appended(g, n);
    }

    /** Link the filled node `n` in front of the queue. */
    method LinkHead(n: nat, ghost m: seq<int>)
      requires Lists() && HeldAll(next[..], slots[..], g.flights) && n in g.flights && g.flights[n] == Sending(true, Some(m))
      modifies this`head, this`tail, this`g, next
      ensures Lists() && HeldAll(next[..], slots[..], g.flights) && g == Prepended(old(g), n)
    {
      LinkedPartition(g, maxMsgs, n);
      ChainPush(next[..], head, g.queue, n);
      ChainKeeps(next[..], free, g.frees, n, head);
      ghost var l := next[..];
      next[n] := head;
      assert next[..] == l[n := head];
      head := Some(n);
      if tail.None? {
        tail := Some(n);
      }
      g := Prepended(g, n);
    }

    /** `LinkTail` with the history. */
    method AppendMessage(n: nat, ghost m: seq<int>)
      requires Lists() && History() && HeldAll(next[..], slots[..], g.flights)
      requires n in g.flights && g.flights[n] == Sending(false, Some(m))
      modifies this`head, this`tail, this`g, this`log, next
      ensures Lists() && History() && HeldAll(next[..], slots[..], g.flights)
      ensures n in old(g.flights) && g == Appended(old(g), n) && log == old(log) + [Sent(m)] && |g.queue| <= maxMsgs
    {
      Happens(log, Sent(m));
      ContentsAppend(slots[..], g.queue, n);
      assert HeldOk(next[..], slots[..], n, g.flights[n]);
      LinkTail(n, m);
      log := log + [Sent(m)];
    }

    /** `LinkHead` with the history. */
    method PrependMessage(n: nat, ghost m: seq<int>)
      requires Lists() && History() && HeldAll(next[..], slots[..], g.flights)
      requires n in g.flights && g.flights[n] == Sending(true, Some(m))
      modifies this`head, this`tail, this`g, this`log, next
      ensures Lists() && History() && HeldAll(next[..], slots[..], g.flights)
      ensures n in old(g.flights) && g == Prepended(old(g), n) && log == old(log) + [Urgent(m)] && |g.queue| <= maxMsgs
    {
      Happens(log, Urgent(m));
      ContentsPush(slots[..], g.queue, n);
      assert HeldOk(next[..], slots[..], n, g.flights[n]);
      LinkHead(n, m);
      log := log + [Urgent(m)];
    }

    /** Count a message, unless the counter is at its limit. */
    method CountEntry() returns (ok: bool)
      modifies this`entry
      ensures ok <==> old(entry) < ENTRY_MAX
      ensures entry == if ok then old(entry) + 1 else old(entry)
    {
      ok := entry < ENTRY_MAX;
      if ok {
        entry := entry + 1;
      }
    }

    /** Resume the first waiting receiver, if any. */
    method ResumeReceiver() returns (t: Option<nat>)
      modifies this`receivers, this`wokenReceivers
      ensures t == First(old(receivers))
      ensures receivers == (if old(receivers) == [] then [] else old(receivers)[1..])
      ensures wokenReceivers == if old(receivers) == [] then old(wokenReceivers) else old(wokenReceivers) + 1
    {
      t := None;
      if receivers != [] {
        t := Some(receivers[0]);
        receivers := receivers[1..];
        wokenReceivers := wokenReceivers + 1;
      }
    }

    /** Resume the first waiting sender, if any. */
    method ResumeSender() returns (t: Option<nat>)
      modifies this`senders, this`wokenSenders
      ensures t == First(old(senders))
      ensures senders == (if old(senders) == [] then [] else old(senders)[1..])
      ensures wokenSenders == if old(senders) == [] then old(wokenSenders) else old(wokenSenders) + 1
    {
      t := None;
      if senders != [] {
        t := Some(senders[0]);
        senders := senders[1..];
        wokenSenders := wokenSenders + 1;
      }
    }

    /** Count the linked message and resume a receiver; at the limit of the counter do neither. */
    method CountAndResume() returns (ok: bool, resumed: Option<nat>)
      modifies this`entry, this`receivers, this`wokenReceivers
      ensures ok <==> old(entry) < ENTRY_MAX
      ensures entry == if ok then old(entry) + 1 else old(entry)
      ensures resumed == if ok then First(old(receivers)) else None
      ensures receivers == (if !ok || old(receivers) == [] then old(receivers) else old(receivers)[1..])
      ensures wokenReceivers == if !ok || old(receivers) == [] then old(wokenReceivers) else old(wokenReceivers) + 1
    {
      resumed := None;
      ok := CountEntry();
      if ok {
        resumed := ResumeReceiver();
      }
    }

    /** The last step of `rt_mq_send_wait`: the overflow branch is never taken. */
    method Commit(n: nat, ghost m: seq<int>) returns (ok: bool, resumed: Option<nat>)
      requires Valid() && n in g.flights && g.flights[n] == Sending(false, Some(m))
      modifies this, next
      ensures Valid() && ok && g == Appended(old(g), n) && log == old(log) + [Sent(m)]
      ensures resumed == (if old(receivers) == [] then None else Some(old(receivers)[0])) && senders == old(senders)
      ensures receivers == (if old(receivers) == [] then [] else old(receivers)[1..])
      ensures wokenReceivers == old(wokenReceivers) + if old(receivers) == [] then 0 else 1
      ensures wokenSenders == old(wokenSenders)
    {
      AppendMessage(n, m);
      ok, resumed := CountAndResume();
    }

    /** The last step of `rt_mq_urgent`. */
    method CommitUrgent(n: nat, ghost m: seq<int>) returns (ok: bool, resumed: Option<nat>)
      requires Valid() && n in g.flights && g.flights[n] == Sending(true, Some(m))
      modifies this, next
      ensures Valid() && ok && g == Prepended(old(g), n) && log == old(log) + [Urgent(m)]
      ensures resumed == (if old(receivers) == [] then None else Some(old(receivers)[0])) && senders == old(senders)
      ensures receivers == (if old(receivers) == [] then [] else old(receivers)[1..])
      ensures wokenReceivers == old(wokenReceivers) + if old(receivers) == [] then 0 else 1
      ensures wokenSenders == old(wokenSenders)
    {
      PrependMessage(n, m);
      ok, resumed := CountAndResume();
    }

    // ---------------------------------------------------------------- receiving

    /** Take the first queued node. */
    method PopHead(ghost f: Flight) returns (n: nat)
      requires Lists() && g.queue != [] && HeldAll(next[..], slots[..], g.flights)
      requires HeldOk(next[..], slots[..], g.queue[0], f)
      modifies this`head, this`tail, this`g
      ensures Lists() && HeldAll(next[..], slots[..], g.flights)
      ensures n == old(g.queue)[0] && g == Unlinked(old(g), f)
    {
      n := head.value;
      UnlinkedPartition(g, maxMsgs, f);
      ChainPop(next[..], head, g.queue);
      OnlyLast(g.queue);
      head := next[n];
      if tail == Some(n) {
        tail := None;
      }
      g := Unlinked(g, f);
    }

    /** The first step of `rt_mq_recv`: `woken` if the thread was resumed from waiting here before. */
    method Unlink(mayWait: bool, t: nat, ghost woken: bool) returns (r: Outcome, ghost m: seq<int>)
      requires Valid() && (woken ==> wokenReceivers > 0)
      modifies this
      ensures Valid() && senders == old(senders) && !r.TooLong?
      ensures r.Refused? <==> old(g.queue) == [] && !mayWait
      ensures r.Waits? <==> old(g.queue) == [] && mayWait
      ensures receivers == if r.Waits? then old(receivers) + [t] else old(receivers)
      ensures r.Done? ==> g == Unlinked(old(g), Receiving(m)) && r.node in g.flights
      ensures r.Done? ==> Replay(old(log)) != [] && m == Replay(old(log))[0] && log == old(log) + [Received(m)]
      ensures !r.Done? ==> g == old(g) && log == old(log)
      ensures wokenSenders == old(wokenSenders) && wokenReceivers == old(wokenReceivers) - if woken then 1 else 0
    {
      m := [];
      wokenReceivers := if woken then wokenReceivers - 1 else wokenReceivers;
      if entry == 0 {
        if !mayWait {
          return Refused, m;
        }
        receivers := receivers + [t];
        return Waits, m;
      }
      var n;
      n, m := TakeFirst();
      r := Done(n);
    }

    /** Take the first message and count it off. */
    method TakeFirst() returns (n: nat, ghost m: seq<int>)
      requires Lists() && History() && HeldAll(next[..], slots[..], g.flights) && entry == |g.queue| > 0
      modifies this`head, this`tail, this`g, this`log, this`entry
      ensures Lists() && History() && HeldAll(next[..], slots[..], g.flights) && entry == |g.queue| == old(|g.queue|) - 1
      ensures old(g.queue) != [] && n == old(g.queue)[0] && g == Unlinked(old(g), Receiving(m)) && |g.frees| == |old(g.frees)|
      ensures Replay(old(log)) != [] && m == Replay(old(log))[0] && log == old(log) + [Received(m)]
    {
      n, m := PopMessage();
      if entry > 0 {
        entry := entry - 1;
      }
    }

    /** `PopHead` with the history. */
    method PopMessage() returns (n: nat, ghost m: seq<int>)
      requires Lists() && History() && HeldAll(next[..], slots[..], g.flights) && g.queue != []
      modifies this`head, this`tail, this`g, this`log
      ensures Lists() && History() && HeldAll(next[..], slots[..], g.flights)
      ensures old(g.queue) != [] && n == old(g.queue)[0] && g == Unlinked(old(g), Receiving(m))
      ensures Replay(old(log)) != [] && m == Replay(old(log))[0] && log == old(log) + [Received(m)]
    {
      ContentsPop(slots[..], g.queue);
      m := slots[g.queue[0]];
      Happens(log, Received(m));
      n := PopHead(Receiving(m));
      log := log + [Received(m)];
    }

    /** The second step of `rt_mq_recv`, outside the lock: the message is the one unlinked. */
    method CopyOut(n: nat, size: nat, ghost m: seq<int>) returns (buffer: seq<int>)
      requires Valid() && n in g.flights && g.flights[n] == Receiving(m)
      ensures |m| == msgSize && buffer == m[..if size > msgSize then msgSize else size]
    {
      assert HeldOk(next[..], slots[..], n, g.flights[n]) && SlotSized(slots[..], msgSize, n);
      buffer := slots[n][..if size > msgSize then msgSize else size];
    }

    /** Put the held node `n` on the free list. */
    method PushFree(n: nat)
      requires Lists() && HeldAll(next[..], slots[..], g.flights) && n in g.flights
      modifies this`free, this`g, next
      ensures Lists() && HeldAll(next[..], slots[..], g.flights) && g == Released(old(g), n)
    {
      ReleasedPartition(g, maxMsgs, n);
      ChainPush(next[..], free, g.frees, n);
      ChainKeeps(next[..], head, g.queue, n, free);
      ghost var l := next[..];
      next[n] := free;
      assert next[..] == l[n := free];
      free := Some(n);
      g := Released(g, n);
    }

    /** The last step of `rt_mq_recv`. */
    method Release(n: nat) returns (resumed: Option<nat>)
      requires Valid() && n in g.flights && g.flights[n].Receiving?
      modifies this, next
      ensures Valid() && g == Released(old(g), n) && log == old(log)
      ensures resumed == (if old(senders) == [] then None else Some(old(senders)[0])) && receivers == old(receivers)
      ensures senders == (if old(senders) == [] then [] else old(senders)[1..])
      ensures wokenSenders == old(wokenSenders) + if old(senders) == [] then 0 else 1
      ensures wokenReceivers == old(wokenReceivers)
    {
      PushFree(n);
      resumed := ResumeSender();
    }

    // ----------------------------------------------------- giving up and reset

    /** The timer of a waiting sender or receiver runs out. */
    method TimeOut(t: nat)
      requires Valid()
      modifies this`senders, this`receivers
      ensures Valid() && senders == Without(old(senders), t) && receivers == Without(old(receivers), t)
    {
      senders := Without(senders, t);
      receivers := Without(receivers, t);
    }

    /** `rt_mq_control` with RT_IPC_CMD_RESET: all queued messages are dropped, all waiting threads fail. */
    method Clear() returns (failed: seq<nat>)
      requires Valid()
      modifies this, next
      ensures Valid() && failed == old(receivers) + old(senders) && receivers == [] && senders == []
      ensures g.queue == [] && g.flights == old(g.flights) && log == old(log) + [Reset]
      ensures wokenReceivers == old(wokenReceivers) && wokenSenders == old(wokenSenders)
    {
      failed := receivers + senders;
      receivers, senders := [], [];
      DropAll();
      Happens(log, Reset);
      log := log + [Reset];
      entry := 0;
    }

    /** Every queued node goes to the free list. */
    method DropAll()
      requires Lists() && HeldAll(next[..], slots[..], g.flights)
      modifies this`head, this`tail, this`free, this`g, next
      ensures Lists() && HeldAll(next[..], slots[..], g.flights) && g.flights == old(g.flights) && g.queue == []
    {
      while head.Some?
        invariant Lists() && HeldAll(next[..], slots[..], g.flights) && g.flights == old(g.flights)
        decreases |g.queue|
      {
        MoveToFree();
      }
    }

    /** The first queued node goes to the free list. */
    method MoveToFree()
      requires Lists() && HeldAll(next[..], slots[..], g.flights) && g.queue != []
      modifies this`head, this`tail, this`free, this`g, next
      ensures Lists() && HeldAll(next[..], slots[..], g.flights) && g.flights == old(g.flights)
      ensures |g.queue| < |old(g.queue)|
    {
      assert ChainAt(next[..], g.queue, 0);
      UnlinkedPartition(g, maxMsgs, Sending(true, None));
      var n := PopHead(Sending(true, None));
      PushFree(n);
      assert g.flights == old(g.flights);
    }
  }

  lemma OnlyLast(q: seq<nat>)
    requires NoDup(q) && q != []
    ensures q[|q| - 1] == q[0] <==> |q| == 1
  {
    if |q| > 1 {
      Apart(q, 0, |q| - 1);
    }
  }

  lemma FillPartition(g: Nodes, max: nat, n: nat, f: Flight)
    requires Partition(g, max) && n in g.flights
    ensures Partition(g.(flights := g.flights[n := f]), max)
  {
    var g' := g.(flights := g.flights[n := f]);
    assert g'.flights.Keys == g.flights.Keys;
    forall x | 0 <= x < max ensures OneHome(g', x) {
      assert OneHome(g, x);
    }
  }
}
