/** The send queue and its completions: __xib_post_send and xrnic_send_wr fill ring slots and
    ring the doorbell, the hardware writes completion entries and its head counter, and
    xib_poll_kernel_cq reads them (xib-module/files/main.c, rnic.c, verbs.c). */
module SendQueue {
  import opened Rings

  const HEAD_SPAN := 0x1_0000   // XRNIC_CQ_HEAD_PTR_MASK + 1

  /** A work request; isSend marks the SEND opcodes, which go through a bounce buffer. */
  datatype Wr = Wr(id: nat, signaled: bool, isSend: bool)

  datatype Entry = Entry(id: nat, signaled: bool)   // wr_id_array

  datatype Queue = Queue(max: nat, prod: nat, cons: nat, entries: seq<Entry>, bufs: seq<nat>,
                         cqes: seq<bool>, head: nat, doorbell: nat, live: set<nat>) {
    predicate Shape() {
      && 0 < max < HEAD_SPAN && prod < max && cons <= max && head <= max
      && |entries| == |bufs| == |cqes| == max
    }

    /** One turn of __xib_post_send's loop with xrnic_send_wr; buf is what xib_alloc_coherent
        returned for a SEND. */
    function Post(wr: Wr, buf: nat): Queue
      requires Shape()
    {
      this.(entries := entries[prod := Entry(wr.id, wr.signaled)],
            bufs := if wr.isSend then bufs[prod := buf] else bufs,
            live := if wr.isSend then live + {buf} else live,
            doorbell := prod + 1,
            prod := if prod + 1 == max then 0 else prod + 1)
    }

    /** The hardware completes the request in `slot`. */
    function Complete(slot: nat, isSend: bool, newHead: nat): Queue
      requires Shape() && slot < max && newHead <= max
    {
      this.(cqes := cqes[slot := isSend], head := newHead)
    }

    /** One turn of the completion loop, lines 1110-1204. */
    function PollOne(): (Queue, seq<nat>)
      requires Shape()
    {
      var c := if cons == max then 0 else cons;
      (this.(live := if cqes[c] then live - {bufs[c]} else live, cons := c + 1),
       if entries[c].signaled then [entries[c].id] else [])
    }
  }

  /** What really happened: every posted request, its bounce buffer, how many requests the
      hardware has completed, and how many of those polls have gone through. */
  datatype History = History(posted: seq<Wr>, bufs: seq<nat>, done: nat, seen: nat) {
    predicate Shape() { |bufs| == |posted| && seen <= done <= |posted| }

    function Posted(wr: Wr, buf: nat): History { this.(posted := posted + [wr], bufs := bufs + [buf]) }

    /** Request n is a SEND that has been posted and not yet polled. */
    predicate InFlight(n: nat) { seen <= n < |posted| && posted[n].isSend }
  }

  ghost predicate Counters(q: Queue, h: History) {
    && q.Shape() && h.Shape()
    && |h.posted| < h.seen + q.max
    && q.prod == Slot(|h.posted|, q.max) && q.doorbell == Wrapped(|h.posted|, q.max)
    && q.cons == Wrapped(h.seen, q.max) && q.head == Wrapped(h.done, q.max)
  }

  /** Request n still has its own slot, and its completion entry once it is complete. */
  ghost predicate Kept(q: Queue, h: History, n: nat)
    requires q.Shape() && h.Shape() && n < |h.posted|
  {
    var wr, slot := h.posted[n], Slot(n, q.max);
    && q.entries[slot] == Entry(wr.id, wr.signaled)
    && (wr.isSend ==> q.bufs[slot] == h.bufs[n])
    && (n < h.done ==> q.cqes[slot] == wr.isSend)
  }

  /** Every unpolled request does. */
  ghost predicate Slots(q: Queue, h: History)
    requires q.Shape() && h.Shape()
  {
    forall n: nat :: h.seen <= n < |h.posted| ==> Kept(q, h, n)
  }

  /** The bounce buffers alive are exactly those of the posted, unpolled SENDs, each its own. */
  ghost predicate Buffers(live: set<nat>, h: History)
    requires h.Shape()
  {
    && (forall n: nat :: h.InFlight(n) ==> h.bufs[n] in live)
    && (forall b <- live :: exists n: nat :: h.InFlight(n) && h.bufs[n] == b)
    && (forall m: nat, n: nat :: h.InFlight(m) && h.InFlight(n) && m < n ==> h.bufs[m] != h.bufs[n])
  }

  ghost predicate Linked(q: Queue, h: History) {
    Counters(q, h) && Slots(q, h) && Buffers(q.live, h)
  }

  // ----- the three kinds of step

  lemma PostSlots(q: Queue, h: History, wr: Wr, buf: nat)
    requires Counters(q, h) && Slots(q, h)
    ensures Slots(q.Post(wr, buf), h.Posted(wr, buf))
  {
    var q', h', k := q.Post(wr, buf), h.Posted(wr, buf), |h.posted|;
    forall n: nat | h.seen <= n <= k
      ensures Kept(q', h', n)
    {
      if n < k {
        assert Kept(q, h, n);
        SlotsDiffer(n, k, q.max);
      }
    }
  }

  lemma PostBuffers(live: set<nat>, h: History, wr: Wr, buf: nat)
    requires h.Shape() && Buffers(live, h) && buf !in live
    ensures Buffers(if wr.isSend then live + {buf} else live, h.Posted(wr, buf))
  {
    var h', k := h.Posted(wr, buf), |h.posted|;
    var live' := if wr.isSend then live + {buf} else live;
    assert forall n: nat :: h'.InFlight(n) <==> h.InFlight(n) || (n == k && wr.isSend);
    forall b | b in live'
      ensures exists n: nat :: h'.InFlight(n) && h'.bufs[n] == b
    {
      if b in live {
        var n: nat :| h.InFlight(n) && h.bufs[n] == b;
        assert h'.InFlight(n) && h'.bufs[n] == b;
      } else {
        assert h'.InFlight(k) && h'.bufs[k] == b;
      }
    }
  }

  /** A request posted while at most max - 2 are unpolled, with a fresh buffer. */
  lemma PostLinked(q: Queue, h: History, wr: Wr, buf: nat)
    requires Linked(q, h) && |h.posted| + 1 < h.seen + q.max && buf !in q.live
    ensures Linked(q.Post(wr, buf), h.Posted(wr, buf))
  {
    SlotNext(|h.posted|, q.max);
    WrappedSlot(|h.posted|, q.max);
    PostSlots(q, h, wr, buf);
    PostBuffers(q.live, h, wr, buf);
  }

  /** The hardware completes the oldest request that it has not completed. */
  function Completed(q: Queue, h: History): Queue
    requires q.Shape() && h.done < |h.posted|
  {
    q.Complete(Slot(h.done, q.max), h.posted[h.done].isSend, Wrapped(h.done + 1, q.max))
  }

  lemma CompleteLinked(q: Queue, h: History)
    requires Linked(q, h) && h.done < |h.posted|
    ensures Linked(Completed(q, h), h.(done := h.done + 1))
  {
    var h' := h.(done := h.done + 1);
    forall n: nat | h.seen <= n < |h.posted|
      ensures Kept(Completed(q, h), h', n)
    {
      assert Kept(q, h, n);
      if n < h.done {
        SlotsDiffer(n, h.done, q.max);
      }
    }
    assert forall n: nat :: h'.InFlight(n) == h.InFlight(n);
  }

  lemma PollBuffers(live: set<nat>, h: History)
    requires h.Shape() && h.seen < h.done && Buffers(live, h)
    ensures Buffers(if h.posted[h.seen].isSend then live - {h.bufs[h.seen]} else live, h.(seen := h.seen + 1))
  {
    var h' := h.(seen := h.seen + 1);
    var live' := if h.posted[h.seen].isSend then live - {h.bufs[h.seen]} else live;
    assert forall n: nat :: h'.InFlight(n) <==> h.InFlight(n) && n != h.seen;
    forall b | b in live'
      ensures exists n: nat :: h'.InFlight(n) && h'.bufs[n] == b
    {
      var n: nat :| h.InFlight(n) && h.bufs[n] == b;
      assert h'.InFlight(n) && h'.bufs[n] == b;
    }
  }

  /** One turn of the completion loop releases the buffer of the oldest unpolled request only, and
      reports that request if it was signaled. */
  lemma PollOneLinked(q: Queue, h: History)
    requires Linked(q, h) && h.seen < h.done
    ensures Linked(q.PollOne().0, h.(seen := h.seen + 1))
    ensures q.PollOne().1 == Report(h.posted[h.seen])
  {
    WrappedSlot(h.seen, q.max);
    PollBuffers(q.live, h);
    assert Kept(q, h, h.seen);
    var q', h' := q.PollOne().0, h.(seen := h.seen + 1);
    forall n: nat | h'.seen <= n < |h.posted|
      ensures Kept(q', h', n)
    {
      assert Kept(q, h, n);
    }
  }

  /** What a caller must see for one request. */
  function Report(wr: Wr): seq<nat> { if wr.signaled then [wr.id] else [] }

  /** The ids that a caller must see for requests i to k - 1. */
  ghost function Signaled(s: seq<Wr>, i: nat, k: nat): seq<nat>
    requires k <= |s|
  {
    if k <= i then [] else Signaled(s, i, k - 1) + Report(s[k - 1])
  }

  lemma {:induction false} SignaledPrefix(s: seq<Wr>, t: seq<Wr>, k: nat)
    requires k <= |s|
    ensures Signaled(s + t, 0, k) == Signaled(s, 0, k)
  {
    if k > 0 { SignaledPrefix(s, t, k - 1); }
  }

  /** The loop guard of line 1109 against a head value read when `snap` requests were complete is
      exact: it stops exactly when those have been gone through. */
  lemma GuardExact(q: Queue, h: History, snap: nat)
    requires Counters(q, h) && h.seen <= snap <= h.done
    ensures q.cons == Wrapped(snap, q.max) % HEAD_SPAN <==> h.seen == snap
  {
    EmptyTestIff(h.seen, snap, q.max);
  }

  /** Why max - 1 is the limit: once the ring has been used, a poll takes max completions for
      none. */
  lemma FullRingReadsEmpty(seen: nat, max: nat)
    requires 0 < max < HEAD_SPAN && seen > 0
    ensures Wrapped(seen, max) == Wrapped(seen + max, max) % HEAD_SPAN
  {
    EmptyTestIff(seen, seen + max, max);
  }

  // ----- whole runs

  /** The completion loop of xib_poll_kernel_cq: idle, or under way with room for `room` more
      entries, having read the head when `snap` requests were complete. For the record, it was asked
      for n entries when `before` ids had been returned. */
  datatype Poll = Idle | Busy(room: nat, head: nat, snap: nat, n: nat, before: nat)

  datatype Op = PostOp(wr: Wr, buf: nat) | CompleteOp | BeginPoll(n: nat) | TurnOp | EndPoll

  /** The driver, what really happened, the poll under way, and every id that polls returned. */
  datatype Machine = Machine(q: Queue, h: History, poll: Poll, polled: seq<nat>) {
    /** The guard of line 1109. */
    predicate Goes() { poll.Busy? && poll.room > 0 && q.cons != poll.head }
  }

  /** What callers and hardware owe: at most max - 1 unpolled requests, a fresh buffer for each
      SEND, and completions only of posted requests. Posts and completions may come between any
      two turns of a poll, which holds a different lock. */
  predicate Allowed(m: Machine, op: Op) {
    match op
    case PostOp(wr, buf) => |m.h.posted| + 1 < m.h.seen + m.q.max && buf !in m.q.live
    case CompleteOp => m.h.done < |m.h.posted|
    case BeginPoll(n) => m.poll.Idle?
    case TurnOp => m.Goes()
    case EndPoll => m.poll.Busy? && !m.Goes()
  }

  function Step(m: Machine, op: Op): Machine
    requires m.q.Shape() && Allowed(m, op)
  {
    match op
    case PostOp(wr, buf) => m.(q := m.q.Post(wr, buf), h := m.h.Posted(wr, buf))
    case CompleteOp => m.(q := Completed(m.q, m.h), h := m.h.(done := m.h.done + 1))
    case BeginPoll(n) => m.(poll := Busy(n, m.q.head % HEAD_SPAN, m.h.done, n, |m.polled|))
    case TurnOp =>
      var (q, ids) := m.q.PollOne();
      Machine(q, m.h.(seen := m.h.seen + 1),
              m.poll.(room := if ids == [] then m.poll.room else m.poll.room - 1), m.polled + ids)
    case EndPoll => m.(poll := Idle)
  }

  /** A poll under way has not run past the completions it knows of. */
  ghost predicate PollInv(m: Machine)
    requires m.q.Shape()
  {
    m.poll.Busy? ==>
      && m.h.seen <= m.poll.snap <= m.h.done && m.poll.head == Wrapped(m.poll.snap, m.q.max) % HEAD_SPAN
      && m.poll.before <= |m.polled| && |m.polled| - m.poll.before + m.poll.room == m.poll.n
  }

  /** Polled ids are exactly the signaled ids of the polled requests, in posting order. */
  ghost predicate Inv(m: Machine) {
    Linked(m.q, m.h) && PollInv(m) && m.polled == Signaled(m.h.posted, 0, m.h.seen)
  }

  lemma PostKeepsInv(m: Machine, wr: Wr, buf: nat)
    requires Inv(m) && Allowed(m, PostOp(wr, buf))
    ensures Inv(Step(m, PostOp(wr, buf)))
  {
    PostLinked(m.q, m.h, wr, buf);
    SignaledPrefix(m.h.posted, [wr], m.h.seen);
  }

  lemma TurnKeepsInv(m: Machine)
    requires Inv(m) && Allowed(m, TurnOp)
    ensures Inv(Step(m, TurnOp))
  {
    GuardExact(m.q, m.h, m.poll.snap);
    PollOneLinked(m.q, m.h);
  }

  lemma StepKeepsInv(m: Machine, op: Op)
    requires Inv(m) && Allowed(m, op)
    ensures Inv(Step(m, op))
  {
    match op
    case PostOp(wr, buf) => PostKeepsInv(m, wr, buf);
    case CompleteOp => CompleteLinked(m.q, m.h);
    case TurnOp => TurnKeepsInv(m);
    case _ =>
  }

  /** A poll ends: each turn takes one of the completions it knows of. It returns at most as many ids
      as it was asked for, and fewer only when it has taken all those completions. */
  lemma PollEnds(m: Machine)
    requires Inv(m) && m.poll.Busy?
    ensures m.poll.before <= |m.polled| <= m.poll.before + m.poll.n
    ensures !m.Goes() ==> |m.polled| == m.poll.before + m.poll.n || m.h.seen == m.poll.snap
    ensures m.Goes() ==> m.h.seen < m.poll.snap && Step(m, TurnOp).h.seen == m.h.seen + 1
    ensures !m.Goes() <==> m.poll.room == 0 || m.h.seen == m.poll.snap
  {
    GuardExact(m.q, m.h, m.poll.snap);
  }

  /** A run: states joined by allowed steps. */
  ghost predicate IsRun(ms: seq<Machine>, ops: seq<Op>) {
    && |ms| == |ops| + 1
    && forall i :: 0 <= i < |ops| ==>
         ms[i].q.Shape() && Allowed(ms[i], ops[i]) && ms[i + 1] == Step(ms[i], ops[i])
  }

  /** In every interleaving of posts, completions and turns of polls of any size, across every
      wrap: the ids polled are the signaled posted ids in posting order, with none lost or
      repeated, and the bounce buffers alive are exactly those of the unpolled SENDs. */
  lemma {:induction false} RunKeepsInv(ms: seq<Machine>, ops: seq<Op>, k: nat)
    requires IsRun(ms, ops) && Inv(ms[0]) && k < |ms|
    ensures Inv(ms[k])
  {
    if k > 0 {
      RunKeepsInv(ms, ops, k - 1);
      StepKeepsInv(ms[k - 1], ops[k - 1]);
    }
  }

  /** xib_create_kernel_qp: all counters zero. */
  function Fresh(max: nat): Machine
    requires 0 < max < HEAD_SPAN
  {
    Machine(Queue(max, 0, 0, seq(max, _ => Entry(0, false)), seq(max, _ => 0), seq(max, _ => false), 0, 0, {}),
            History([], [], 0, 0), Idle, [])
  }

  lemma FreshInv(max: nat)
    requires 1 < max < HEAD_SPAN
    ensures Inv(Fresh(max))
  {}

  /** From a fresh queue, when everything posted has been polled, every signaled id has been
      returned once, in order, and no bounce buffer is left. */
  lemma RunDrained(ms: seq<Machine>, ops: seq<Op>, max: nat)
    requires IsRun(ms, ops) && 1 < max < HEAD_SPAN && ms[0] == Fresh(max)
    requires var m := ms[|ops|]; m.h.seen == |m.h.posted|
    ensures var m := ms[|ops|]; m.polled == Signaled(m.h.posted, 0, |m.h.posted|) && m.q.live == {}
  {
    FreshInv(max);
    RunKeepsInv(ms, ops, |ops|);
    var m := ms[|ops|];
    assert forall n: nat :: !m.h.InFlight(n);
  }

  // ----- the loops of the driver

  class SendRing {
    var max: nat               // sq.max_wr
    var prod: nat              // sq.sq_cmpl_db_local
    var cons: nat              // sq.send_cq_db_local
    var entries: seq<Entry>    // sq.wr_id_array
    var bufs: seq<nat>         // sq.pl_buf_list
    var cqes: seq<bool>        // the completion entries, written by the hardware
    var head: nat              // XRNIC_CQ_HEAD_PTR, written by the hardware
    var doorbell: nat          // XRNIC_SQ_PROD_IDX
    var live: set<nat>         // bounce buffers handed out

    ghost function View(): Queue reads this {
      Queue(max, prod, cons, entries, bufs, cqes, head, doorbell, live)
    }

    /** xrnic_send_wr: after the n-th request the doorbell reads 0, 1, ..., max, 1, ... and the index
        is the slot of the next. */
    method SendWr(ghost n: nat)
      requires max > 0 && prod == Slot(n, max)
      modifies this`prod, this`doorbell
      ensures doorbell == Wrapped(n + 1, max) == old(prod) + 1
      ensures prod == Slot(n + 1, max) == if old(prod) + 1 == max then 0 else old(prod) + 1
    {
      SlotNext(n, max);
      prod := prod + 1;
      doorbell := prod;
      if prod == max {
        prod := 0;
      }
    }

    /** One turn of __xib_post_send's loop; newBuf is what the allocator returned. */
    method PostOne(wr: Wr, newBuf: nat)
      requires View().Shape()
      modifies this
      ensures View() == old(View()).Post(wr, newBuf)
    {
      entries := entries[prod := Entry(wr.id, wr.signaled)];
      if wr.isSend {
        bufs := bufs[prod := newBuf];
        live := live + {newBuf};
      }
      SendWr(prod);
    }

    method PostNext(wr: Wr, newBuf: nat, ghost h: History)
      requires Linked(View(), h) && |h.posted| + 1 < h.seen + max && newBuf !in live
      modifies this
      ensures Linked(View(), h.Posted(wr, newBuf)) && max == old(max)
      ensures live == if wr.isSend then old(live) + {newBuf} else old(live)
    {
      PostLinked(View(), h, wr, newBuf);
      PostOne(wr, newBuf);
    }

    /** __xib_post_send: the whole list of requests is queued in order. */
    method PostSend(wrs: seq<Wr>, newBufs: seq<nat>, ghost h: History) returns (ghost h': History)
      requires Linked(View(), h) && |h.posted| + |wrs| < h.seen + max
      requires |newBufs| == |wrs| && (forall i :: 0 <= i < |wrs| ==> newBufs[i] !in live)
      requires forall i, j :: 0 <= i < j < |wrs| ==> newBufs[i] != newBufs[j]
      modifies this
      ensures h' == h.(posted := h.posted + wrs, bufs := h.bufs + newBufs) && Linked(View(), h')
    {
      h' := h;
      var i := 0;
      while i < |wrs|
        invariant 0 <= i <= |wrs| && max == old(max) && Linked(View(), h')
        invariant h' == h.(posted := h.posted + wrs[..i], bufs := h.bufs + newBufs[..i])
        invariant forall j :: i <= j < |wrs| ==> newBufs[j] !in live
      {
        PostNext(wrs[i], newBufs[i], h');
        h' := h'.Posted(wrs[i], newBufs[i]);
        i := i + 1;
      }
      assert wrs[..i] == wrs && newBufs[..i] == newBufs;
    }

    /** Lines 1110-1204. */
    method Turn() returns (ids: seq<nat>)
      requires View().Shape()
      modifies this
      ensures (View(), ids) == old(View()).PollOne()
    {
      if cons == max {
        cons := 0;
      }
      if cqes[cons] {
        live := live - {bufs[cons]};
      }
      ids := if entries[cons].signaled then [entries[cons].id] else [];
      cons := cons + 1;
    }

    method TurnNext(ghost h: History, ghost seen: nat, ghost snap: nat) returns (ids: seq<nat>, ghost seen': nat)
      requires Linked(View(), h.(seen := seen)) && seen < snap <= h.done
      modifies this
      ensures seen' == seen + 1 && Linked(View(), h.(seen := seen')) && max == old(max)
      ensures ids == Report(h.posted[seen])
      ensures cons == Wrapped(snap, max) % HEAD_SPAN <==> seen' == snap
    {
      PollOneLinked(View(), h.(seen := seen));
      ids := Turn();
      seen' := seen + 1;
      GuardExact(View(), h.(seen := seen'), snap);
    }

    /** The send half of xib_poll_kernel_cq with room for n entries: it returns the ids of the
        next signaled completions, stopping early only when no completion is left. */
    method PollSend(n: nat, ghost h: History) returns (wcs: seq<nat>, ghost seen: nat)
      requires Linked(View(), h)
      modifies this
      ensures h.seen <= seen <= h.done && Linked(View(), h.(seen := seen))
      ensures wcs == Signaled(h.posted, h.seen, seen)
      ensures |wcs| <= n && (|wcs| == n || seen == h.done)
    {
      seen, wcs := h.seen, [];
      var current := head % HEAD_SPAN;
      GuardExact(View(), h, h.done);
      while |wcs| < n && cons != current
        invariant h.seen <= seen <= h.done && Linked(View(), h.(seen := seen)) && max == old(max)
        invariant wcs == Signaled(h.posted, h.seen, seen)
        invariant |wcs| <= n && (cons == current <==> seen == h.done)
        decreases h.done - seen
      {
        var ids;
        ids, seen := TurnNext(h, seen, h.done);
        wcs := wcs + ids;
      }
    }
  }
}
