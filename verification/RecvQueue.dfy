/** The receive queue: xib_kernel_qp_post_recv, xib_get_rq_recd, xib_pop_rq and the receive half
    of xib_poll_kernel_cq (xib-module/files/verbs.c, ib_verbs.h). */
module RecvQueue {
  import opened Lists
  import opened Rings
  import opened Scatter
  import N = Notices

  const XIB_MAX_RQE_SGE := 8

  datatype RecvWr = RecvWr(id: nat, sgl: seq<Sge>)

  const NoWr := RecvWr(0, [])   // a slot after memset

  datatype Packet = Packet(bytes: seq<nat>, tag: N.Tag)

  /** A work completion; byteLen is the length of the first scatter entry, as line 1085 has it. */
  datatype Wc = Wc(id: nat, byteLen: nat, tag: N.Tag)

  function FirstLen(sgl: seq<Sge>): nat { if sgl == [] then 0 else sgl[0].len }

  function WcOf(wr: RecvWr, tag: N.Tag): Wc { Wc(wr.id, FirstLen(wr.sgl), tag) }

  /** The completions of requests i to k - 1, each with its own packet's record. */
  ghost function WcsOf(posted: seq<RecvWr>, tags: seq<N.Tag>, i: nat, k: nat): seq<Wc>
    requires i <= k <= |posted| && k <= |tags|
  {
    if i == k then [] else WcsOf(posted, tags, i, k - 1) + [WcOf(posted[k - 1], tags[k - 1])]
  }

  lemma {:induction false} WcsOfAt(posted: seq<RecvWr>, tags: seq<N.Tag>, i: nat, k: nat, j: nat)
    requires i <= j < k <= |posted| && k <= |tags|
    ensures var r := WcsOf(posted, tags, i, k); |r| == k - i && r[j - i] == WcOf(posted[j], tags[j])
  {
    if j < k - 1 {
      WcsOfAt(posted, tags, i, k - 1, j);
    } else if i < k - 1 {
      WcsOfAt(posted, tags, i, k - 1, i);
    }
  }

  /** xib_rq_prod_inc, xib_rq_cons_inc, xib_inc_sw_gsi_cons */
  function Inc(c: nat, max: nat): (r: nat)
    requires c < max
    ensures r == if c + 1 == max then 0 else c + 1
  {
    (c + 1) % max
  }

  /** xib_get_rq_recd */
  function RqRecd(local: nat, current: nat, max: nat): int {
    if current == local then 0
    else if local > current then current + max - local
    else current - local
  }

  /** The count read off the doorbell is the true number of new packets, if and only if the ring
      has not gone a full lap (the first lap apart) since the last pop. */
  lemma RqRecdExactIff(popped: nat, arrived: nat, max: nat)
    requires max > 0 && popped <= arrived <= popped + max
    ensures RqRecd(Wrapped(popped, max), Wrapped(arrived, max), max) == arrived - popped
       <==> !(arrived == popped + max && popped > 0)
  {
    if popped > 0 {
      if arrived == popped + max {
        SlotsDiffer(popped - 1, arrived - 1, max);
      } else {
        SlotsAhead(popped - 1, arrived - 1, max);
      }
    }
  }

  /** The test of lines 942-943. */
  predicate FitsIn(wr: RecvWr, bufSize: nat) { Total(wr.sgl) <= bufSize && |wr.sgl| <= XIB_MAX_RQE_SGE }

  datatype Ring = Ring(max: nat, bufSize: nat, prod: nat, cons: nat, gsi: nat, local: nat, doorbell: nat,
                       consumed: nat, rqes: seq<RecvWr>, bufs: seq<seq<nat>>) {
    predicate Shape() {
      && prod < max && cons < max && gsi < max && local <= max && doorbell <= max
      && |rqes| == |bufs| == max
      && (forall b <- bufs :: |b| == bufSize)
      && (forall e <- rqes :: Total(e.sgl) <= bufSize)
    }

    predicate Fits(wr: RecvWr) { FitsIn(wr, bufSize) }

    /** One turn of xib_kernel_qp_post_recv's loop; the slot is cleared before the test. */
    function Post(wr: RecvWr): Ring
      requires Shape()
    {
      if Fits(wr) then this.(rqes := rqes[prod := wr], prod := Inc(prod, max))
      else this.(rqes := rqes[prod := NoWr])
    }

    /** The hardware stores a packet and writes its doorbell. */
    function Arrive(slot: nat, bytes: seq<nat>, db: nat): Ring
      requires Shape() && slot < max && db <= max && |bytes| == bufSize
    {
      this.(bufs := bufs[slot := bytes], doorbell := db)
    }

    function PacketSlot(): (s: nat)
      requires Shape()
      ensures s < max
    {
      if local == max then 0 else local
    }

    /** The counters after one turn of xib_pop_rq's loop. */
    function Pop(): Ring
      requires Shape()
    {
      this.(gsi := Inc(gsi, max), local := PacketSlot() + 1, consumed := PacketSlot() + 1)
    }

    /** One turn of the receive loop of xib_poll_kernel_cq. */
    function Poll(): Ring
      requires Shape()
    {
      this.(cons := Inc(cons, max))
    }
  }

  /** What really happened: every accepted receive request, every packet, and how many packets
      have been popped and polled. */
  datatype History = History(posted: seq<RecvWr>, packets: seq<Packet>, popped: nat, polled: nat) {
    predicate Shape() { polled <= popped <= |packets| <= |posted| }
  }

  ghost predicate Counters(r: Ring, h: History) {
    && r.Shape() && h.Shape() && |h.posted| < h.polled + r.max
    && r.prod == Slot(|h.posted|, r.max) && r.cons == Slot(h.polled, r.max) && r.gsi == Slot(h.popped, r.max)
    && r.local == Wrapped(h.popped, r.max) && r.doorbell == Wrapped(|h.packets|, r.max)
    && r.consumed == r.local
    && (forall wr <- h.posted :: Total(wr.sgl) <= r.bufSize && |wr.sgl| <= XIB_MAX_RQE_SGE)
    && (forall p <- h.packets :: |p.bytes| == r.bufSize)
  }

  /** Request n is still in its slot; so is packet n until it is popped. */
  ghost predicate Kept(r: Ring, h: History, n: nat)
    requires r.Shape() && n < |h.posted|
  {
    && r.rqes[Slot(n, r.max)] == h.posted[n]
    && (h.popped <= n < |h.packets| ==> r.bufs[Slot(n, r.max)] == h.packets[n].bytes)
  }

  ghost predicate Slots(r: Ring, h: History)
    requires r.Shape()
  {
    forall n: nat {:trigger Kept(r, h, n)} :: h.polled <= n < |h.posted| ==> Kept(r, h, n)
  }

  ghost predicate Linked(r: Ring, h: History) { Counters(r, h) && Slots(r, h) }

  /** The buffers of unpolled requests do not overlap. */
  ghost predicate Separate(h: History) {
    && (forall n: nat {:trigger Disjoint(h.posted[n].sgl)} :: h.polled <= n < |h.posted| ==> Disjoint(h.posted[n].sgl))
    && (forall m: nat, n: nat {:trigger Apart(h.posted[m].sgl, h.posted[n].sgl)} ::
          h.polled <= m < |h.posted| && h.polled <= n < |h.posted| && m != n ==> Apart(h.posted[m].sgl, h.posted[n].sgl))
  }

  /** The buffers of request n hold packet n. */
  ghost predicate Delivered(mem: Memory, h: History, n: nat) {
    && n < |h.posted| && n < |h.packets| && Total(h.posted[n].sgl) <= |h.packets[n].bytes|
    && Holds(mem, h.posted[n].sgl, h.packets[n].bytes)
  }

  ghost predicate Data(mem: Memory, h: History) {
    forall n: nat {:trigger Delivered(mem, h, n)} :: h.polled <= n < h.popped ==> Delivered(mem, h, n)
  }

  // ----- posting

  lemma PostLinked(r: Ring, h: History, wr: RecvWr)
    requires Linked(r, h) && r.Fits(wr) && |h.posted| + 1 < h.polled + r.max
    ensures Linked(r.Post(wr), h.(posted := h.posted + [wr]))
  {
    var r', h', k := r.Post(wr), h.(posted := h.posted + [wr]), |h.posted|;
    SlotNext(k, r.max);
    forall n: nat | h.polled <= n <= k
      ensures Kept(r', h', n)
    {
      if n < k {
        assert Kept(r, h, n);
        SlotsDiffer(n, k, r.max);
      }
    }
  }

  /** A request is queued if and only if its bytes fit the packet buffer and its entries the slot. */
  lemma PostAcceptsIff(r: Ring, wr: RecvWr)
    requires r.Shape() && r.max > 1
    ensures r.Post(wr).prod != r.prod <==> Total(wr.sgl) <= r.bufSize && |wr.sgl| <= 8
    ensures r.Post(wr).rqes[r.prod] == if r.Post(wr).prod != r.prod then wr else RecvWr(0, [])
  {}

  /** A refused request only clears a free slot. */
  lemma RefusedLinked(r: Ring, h: History, wr: RecvWr)
    requires Linked(r, h) && !r.Fits(wr)
    ensures Linked(r.Post(wr), h)
  {
    var r' := r.Post(wr);
    forall n: nat | h.polled <= n < |h.posted|
      ensures Kept(r', h, n)
    {
      assert Kept(r, h, n);
      SlotsDiffer(n, |h.posted|, r.max);
    }
  }

  // ----- arrival

  function Arrived(r: Ring, h: History, p: Packet): Ring
    requires r.Shape() && |p.bytes| == r.bufSize
  {
    r.Arrive(Slot(|h.packets|, r.max), p.bytes, Wrapped(|h.packets| + 1, r.max))
  }

  lemma ArriveLinked(r: Ring, h: History, p: Packet)
    requires Linked(r, h) && |h.packets| < |h.posted| && |p.bytes| == r.bufSize
    ensures Linked(Arrived(r, h, p), h.(packets := h.packets + [p]))
  {
    var r', h', k := Arrived(r, h, p), h.(packets := h.packets + [p]), |h.packets|;
    forall n: nat | h.polled <= n < |h.posted|
      ensures Kept(r', h', n)
    {
      assert Kept(r, h, n);
      if n < k {
        SlotsDiffer(n, k, r.max);
      }
    }
  }

  // ----- popping

  /** A pop pairs the oldest unpopped packet with the receive request of the same number. */
  lemma PopLinked(r: Ring, h: History)
    requires Linked(r, h) && h.popped < |h.packets|
    ensures Linked(r.Pop(), h.(popped := h.popped + 1))
    ensures r.rqes[r.gsi] == h.posted[h.popped] && r.bufs[r.PacketSlot()] == h.packets[h.popped].bytes
  {
    var h' := h.(popped := h.popped + 1);
    SlotNext(h.popped, r.max);
    WrappedSlot(h.popped, r.max);
    assert Kept(r, h, h.popped);
    forall n: nat | h.polled <= n < |h.posted|
      ensures Kept(r.Pop(), h', n)
    {
      assert Kept(r, h, n);
    }
  }

  /** Its bytes end up in that request's buffers, and no other delivered data is touched. */
  lemma PopData(r: Ring, h: History, mem: Memory)
    requires Linked(r, h) && h.popped < |h.packets| && Separate(h) && Data(mem, h)
    ensures Data(Scattered(mem, h.posted[h.popped].sgl, h.packets[h.popped].bytes), h.(popped := h.popped + 1))
  {
    var k, h' := h.popped, h.(popped := h.popped + 1);
    var sgl, bytes := h.posted[k].sgl, h.packets[k].bytes;
    var mem' := Scattered(mem, sgl, bytes);
    assert Disjoint(h.posted[k].sgl);
    ScatterFills(mem, sgl, bytes, |sgl|);
    forall n: nat | h.polled <= n < k
      ensures Delivered(mem', h', n)
    {
      assert Delivered(mem, h, n);
      assert Apart(h.posted[k].sgl, h.posted[n].sgl);
      ScatterKeepsList(mem, sgl, bytes, h.posted[n].sgl, h.packets[n].bytes);
    }
  }

  // ----- polling

  /** The loop guard of line 1077 is exact. */
  lemma PollGuard(r: Ring, h: History)
    requires Linked(r, h)
    ensures r.cons == r.gsi <==> h.polled == h.popped
  {
    SlotsDiffer(h.polled, h.popped, r.max);
  }

  lemma PollLinked(r: Ring, h: History)
    requires Linked(r, h) && h.polled < h.popped
    ensures Linked(r.Poll(), h.(polled := h.polled + 1))
    ensures r.rqes[r.cons] == h.posted[h.polled]
  {
    var h' := h.(polled := h.polled + 1);
    SlotNext(h.polled, r.max);
    assert Kept(r, h, h.polled);
    forall n: nat | h'.polled <= n < |h.posted|
      ensures Kept(r.Poll(), h', n)
    {
      assert Kept(r, h, n);
    }
  }

  // ----- whole runs

  /** xib_poll_kernel_cq: idle, popping with `left` packets to go, or filling `room` entries. For the
      record, `snap` packets had arrived when it began, and it was asked for n entries when `before`
      completions had been returned. */
  datatype Phase = Idle | Popping(left: int, snap: nat) | Polling(room: nat, n: nat, before: nat)

  datatype Op =
    | PostOp(wr: RecvWr)
    | ArriveOp(p: Packet)
    | NoteOp(n: nat)
    | HandleOp
    | BeginOp
    | PopOp
    | FillOp(n: nat)
    | PollOp
    | EndOp

  datatype Machine = Machine(r: Ring, nt: N.Notices, mem: Memory, h: History, a: N.Arrivals, phase: Phase, wcs: seq<Wc>) {
    /** The guard of line 1077. */
    predicate Goes() { phase.Polling? && phase.room > 0 && r.cons != r.gsi }
  }

  /** A request whose buffers overlap neither each other nor those of an unpolled request. */
  ghost predicate OwnBuffers(h: History, wr: RecvWr) {
    && Disjoint(wr.sgl)
    && forall n: nat :: h.polled <= n < |h.posted| ==> Apart(h.posted[n].sgl, wr.sgl) && Apart(wr.sgl, h.posted[n].sgl)
  }

  /** What the others owe the driver. The caller posts at most max - 1 unpolled requests; the peer
      sends only to posted ones; the hardware writes one notice per packet into a free descriptor.
      Posts, packets, notices and their handling may come between any two turns of a poll, in any
      order: a completion may be read before its notice has been handled. */
  ghost predicate Allowed(m: Machine, op: Op) {
    match op
    case PostOp(wr) => m.r.Fits(wr) ==> |m.h.posted| + 1 < m.h.polled + m.r.max && OwnBuffers(m.h, wr)
    case ArriveOp(p) => |m.h.packets| < |m.h.posted| && |p.bytes| == m.r.bufSize
    case NoteOp(n) => n < |m.a.tags| && n !in m.a.handled && n !in m.a.pending && |m.a.pending| < N.RX_BD_NUM
    case HandleOp => m.nt.Shape() && m.nt.bds[m.nt.ci].Some? && m.a.pending != []
    case BeginOp => m.phase.Idle?
    case PopOp => m.phase.Popping? && m.phase.left > 0
    case FillOp(n) => m.phase.Popping? && m.phase.left <= 0
    case PollOp => m.Goes()
    case EndOp => m.phase.Polling? && !m.Goes()
  }

  ghost function Step(m: Machine, op: Op): Machine
    requires m.r.Shape() && m.nt.Shape() && m.nt.max == m.r.max && Allowed(m, op)
  {
    match op
    case PostOp(wr) =>
      m.(r := m.r.Post(wr), h := if m.r.Fits(wr) then m.h.(posted := m.h.posted + [wr]) else m.h)
    case ArriveOp(p) =>
      m.(r := Arrived(m.r, m.h, p), h := m.h.(packets := m.h.packets + [p]), a := m.a.(tags := m.a.tags + [p.tag]))
    case NoteOp(n) =>
      m.(nt := m.nt.Note(Slot(m.a.count + |m.a.pending|, N.RX_BD_NUM), N.NoticeOf(m.a, n, m.r.max)),
         a := m.a.(pending := m.a.pending + [n]))
    case HandleOp => m.(nt := m.nt.Handle(), a := m.a.Handled())
    case BeginOp => m.(phase := Popping(RqRecd(m.r.local, m.r.doorbell, m.r.max), |m.h.packets|))
    case PopOp =>
      m.(r := m.r.Pop(), mem := Scattered(m.mem, m.r.rqes[m.r.gsi].sgl, m.r.bufs[m.r.PacketSlot()]),
         h := m.h.(popped := m.h.popped + 1), phase := m.phase.(left := m.phase.left - 1))
    case FillOp(n) => m.(phase := Polling(n, n, |m.wcs|))
    case PollOp =>
      m.(r := m.r.Poll(), nt := m.nt.Take(m.r.cons), h := m.h.(polled := m.h.polled + 1),
         a := m.a.(polled := m.a.polled + 1), phase := m.phase.(room := m.phase.room - 1),
         wcs := m.wcs + [WcOf(m.r.rqes[m.r.cons], m.nt.imm[m.r.cons])])
    case EndOp => m.(phase := Idle)
  }

  /** The two histories tell the same story; a pop under way has not run past the packets. */
  ghost predicate Match(m: Machine) {
    && m.nt.max == m.r.max && m.a.polled == m.h.polled && |m.a.tags| == |m.h.packets|
    && (forall k :: 0 <= k < |m.a.tags| ==> m.a.tags[k] == m.h.packets[k].tag)
    && (m.phase.Popping? ==> 0 <= m.phase.left && m.h.popped + m.phase.left == m.phase.snap <= |m.h.packets|)
    && (m.phase.Polling? ==> m.phase.before <= |m.wcs| && |m.wcs| - m.phase.before + m.phase.room == m.phase.n)
  }

  /** The k-th completion is that of the k-th posted request. */
  ghost predicate Log(m: Machine)
    requires m.h.Shape()
  {
    && |m.wcs| == m.h.polled
    && forall k :: 0 <= k < |m.wcs| ==> m.wcs[k] == WcOf(m.h.posted[k], m.wcs[k].tag)
  }

  /** The k-th completion has the record of packet k. */
  ghost predicate TagsRight(m: Machine) {
    |m.wcs| <= |m.h.packets| && forall k :: 0 <= k < |m.wcs| ==> m.wcs[k].tag == m.h.packets[k].tag
  }

  ghost predicate Inv(m: Machine) {
    Core(m.r, m.mem, m.h) && N.Base(m.nt, m.a) && Match(m) && Log(m)
  }

  ghost predicate Core(r: Ring, mem: Memory, h: History) {
    Linked(r, h) && Separate(h) && Data(mem, h)
  }

  lemma PostSeparate(h: History, wr: RecvWr)
    requires Separate(h) && OwnBuffers(h, wr)
    ensures Separate(h.(posted := h.posted + [wr]))
  {
    var h' := h.(posted := h.posted + [wr]);
    forall n: nat | h.polled <= n < |h'.posted|
      ensures Disjoint(h'.posted[n].sgl)
    {
      assert n < |h.posted| ==> Disjoint(h.posted[n].sgl);
    }
    forall m: nat, n: nat | h.polled <= m < |h'.posted| && h.polled <= n < |h'.posted| && m != n
      ensures Apart(h'.posted[m].sgl, h'.posted[n].sgl)
    {
      assert m < |h.posted| && n < |h.posted| ==> Apart(h.posted[m].sgl, h.posted[n].sgl);
    }
  }

  lemma SameData(mem: Memory, h: History, h': History)
    requires Data(mem, h) && h.popped == h'.popped && h.polled <= h'.polled
    requires h.posted <= h'.posted && h.packets <= h'.packets
    ensures Data(mem, h')
  {
    forall n: nat | h'.polled <= n < h'.popped
      ensures Delivered(mem, h', n)
    {
      assert Delivered(mem, h, n);
    }
  }

  lemma PostKeepsInv(m: Machine, wr: RecvWr, m': Machine)
    requires Inv(m) && Allowed(m, PostOp(wr)) && m' == Step(m, PostOp(wr))
    ensures Inv(m')
  {
    if m.r.Fits(wr) {
      PostLinked(m.r, m.h, wr);
      PostSeparate(m.h, wr);
      SameData(m.mem, m.h, m.h.(posted := m.h.posted + [wr]));
    } else {
      RefusedLinked(m.r, m.h, wr);
    }
  }

  lemma ArriveKeepsInv(m: Machine, p: Packet, m': Machine)
    requires Inv(m) && Allowed(m, ArriveOp(p)) && m' == Step(m, ArriveOp(p))
    ensures Inv(m')
  {
    ArriveLinked(m.r, m.h, p);
    N.ArriveKeepsBase(m.nt, m.a, p.tag, m'.a);
    SameData(m.mem, m.h, m.h.(packets := m.h.packets + [p]));
  }

  lemma PopCore(r: Ring, mem: Memory, h: History, r': Ring, mem': Memory, h': History)
    requires Core(r, mem, h) && h.popped < |h.packets|
    requires r' == r.Pop() && h' == h.(popped := h.popped + 1)
    requires mem' == Scattered(mem, r.rqes[r.gsi].sgl, r.bufs[r.PacketSlot()])
    ensures Core(r', mem', h')
  {
    PopLinked(r, h);
    PopData(r, h, mem);
  }

  lemma PopLog(m: Machine, m': Machine)
    requires m.r.Shape() && m.h.Shape() && m.nt.Shape() && Match(m) && Log(m) && Allowed(m, PopOp) && m' == Step(m, PopOp)
    ensures Match(m') && m'.h.Shape() && Log(m')
  {}

  lemma PopKeepsInv(m: Machine, m': Machine)
    requires Inv(m) && Allowed(m, PopOp) && m' == Step(m, PopOp)
    ensures Inv(m')
  {
    PopCore(m.r, m.mem, m.h, m'.r, m'.mem, m'.h);
    PopLog(m, m');
  }

  lemma SeparateShrinks(h: History)
    requires Separate(h)
    ensures Separate(h.(polled := h.polled + 1))
  {}

  /** A turn of the receive loop reports the next request, while its packet's bytes are in that
      request's buffers. */
  lemma PollReports(m: Machine)
    requires Inv(m) && Allowed(m, PollOp)
    ensures var k := m.h.polled;
            k < m.h.popped && Delivered(m.mem, m.h, k) && m.r.rqes[m.r.cons] == m.h.posted[k]
  {
    PollGuard(m.r, m.h);
    PollLinked(m.r, m.h);
    assert Delivered(m.mem, m.h, m.h.polled);
  }

  lemma PollCore(r: Ring, mem: Memory, h: History, r': Ring, h': History)
    requires Core(r, mem, h) && h.polled < h.popped && r' == r.Poll() && h' == h.(polled := h.polled + 1)
    ensures Core(r', mem, h') && r.cons == Slot(h.polled, r.max)
  {
    PollLinked(r, h);
    SeparateShrinks(h);
    SameData(mem, h, h.(polled := h.polled + 1));
  }

  lemma PollLog(m: Machine, m': Machine)
    requires m.r.Shape() && m.h.Shape() && m.nt.Shape() && Match(m) && Log(m) && Allowed(m, PollOp) && m' == Step(m, PollOp)
    requires m.h.polled < m.h.popped
    requires m.r.rqes[m.r.cons] == m.h.posted[m.h.polled]
    ensures Match(m') && m'.h.Shape() && Log(m')
  {}

  lemma PollKeepsInv(m: Machine, m': Machine)
    requires Inv(m) && Allowed(m, PollOp) && m' == Step(m, PollOp)
    ensures Inv(m')
  {
    PollReports(m);
    PollLog(m, m');
    PollCore(m.r, m.mem, m.h, m'.r, m'.h);
    N.TakeKeepsBase(m.nt, m.a, m'.nt, m'.a);
  }

  lemma NoteKeepsInv(m: Machine, n: nat, m': Machine)
    requires Inv(m) && Allowed(m, NoteOp(n)) && m' == Step(m, NoteOp(n))
    ensures Inv(m')
  {
    N.NoteKeepsBase(m.nt, m.a, n, m'.nt, m'.a);
  }

  lemma HandleKeepsInv(m: Machine, m': Machine)
    requires Inv(m) && Allowed(m, HandleOp) && m' == Step(m, HandleOp)
    ensures Inv(m')
  {
    N.HandleKeepsBase(m.nt, m.a, m'.nt, m'.a);
  }

  lemma BeginKeepsInv(m: Machine, m': Machine)
    requires Inv(m) && Allowed(m, BeginOp) && m' == Step(m, BeginOp)
    ensures Inv(m')
  {
    RqRecdExactIff(m.h.popped, |m.h.packets|, m.r.max);
  }

  lemma StepKeepsInv(m: Machine, op: Op, m': Machine)
    requires Inv(m) && Allowed(m, op) && m' == Step(m, op)
    ensures Inv(m')
  {
    match op
    case PostOp(wr) => PostKeepsInv(m, wr, m');
    case ArriveOp(p) => ArriveKeepsInv(m, p, m');
    case NoteOp(n) => NoteKeepsInv(m, n, m');
    case HandleOp => HandleKeepsInv(m, m');
    case BeginOp => BeginKeepsInv(m, m');
    case PopOp => PopKeepsInv(m, m');
    case PollOp => PollKeepsInv(m, m');
    case _ =>
  }

  /** A run: states joined by steps. */
  ghost predicate IsRun(ms: seq<Machine>, ops: seq<Op>) {
    |ms| == |ops| + 1 && Joined(ms, ops, |ops|)
  }

  ghost predicate Joined(ms: seq<Machine>, ops: seq<Op>, n: nat)
    requires n <= |ops| < |ms|
  {
    n > 0 ==> IsStep(ms[n - 1], ops[n - 1], ms[n]) && Joined(ms, ops, n - 1)
  }

  lemma {:induction false} JoinedAt(ms: seq<Machine>, ops: seq<Op>, n: nat, i: nat)
    requires i < n <= |ops| < |ms| && Joined(ms, ops, n)
    ensures IsStep(ms[i], ops[i], ms[i + 1])
  {
    if i < n - 1 { JoinedAt(ms, ops, n - 1, i); }
  }

  lemma {:induction false} JoinedLonger(ms: seq<Machine>, ops: seq<Op>, m: Machine, op: Op, n: nat)
    requires n <= |ops| < |ms| && Joined(ms, ops, n)
    ensures Joined(ms + [m], ops + [op], n)
  {
    if n > 0 { JoinedLonger(ms, ops, m, op, n - 1); }
  }

  ghost predicate IsStep(m: Machine, op: Op, m': Machine) {
    && m.r.Shape() && m.nt.Shape() && m.nt.max == m.r.max
    && Allowed(m, op) && m' == Step(m, op)
  }

  /** In every interleaving, across every wrap of the four indices and of the descriptor ring: the
      k-th completion is that of the k-th accepted receive, and its buffers hold packet k from the
      pop until then. */
  lemma {:induction false} RunKeepsInv(ms: seq<Machine>, ops: seq<Op>, k: nat)
    requires IsRun(ms, ops) && Inv(ms[0]) && k < |ms|
    ensures Inv(ms[k])
  {
    if k > 0 {
      RunKeepsInv(ms, ops, k - 1);
      JoinedAt(ms, ops, |ops|, k - 1);
      StepKeepsInv(ms[k - 1], ops[k - 1], ms[k]);
    }
  }

  // ----- the records

  lemma StepKeepsGood(m: Machine, op: Op, m': Machine)
    requires Inv(m) && Allowed(m, op) && m' == Step(m, op) && m'.nt.Shape()
    requires N.Good(m.nt, m.a) && (op.PollOp? ==> m.a.Timely())
    ensures N.Good(m'.nt, m'.a)
  {
    match op
    case ArriveOp(p) => N.ArriveKeepsGood(m.nt, m.a, p.tag, m'.a);
    case NoteOp(n) => N.NoteKeepsGood(m.nt, m.a, n, m'.nt, m'.a);
    case HandleOp => N.HandleKeepsGood(m.nt, m.a, m'.nt, m'.a);
    case PollOp => N.TakeKeepsGood(m.nt, m.a, m'.nt, m'.a);
    case _ =>
  }

  /** What a turn reports is final; while every earlier turn was in time it reports the right
      record if and only if the notice of that packet has been handled. */
  lemma PollRightIff(m: Machine, m': Machine)
    requires Inv(m) && Allowed(m, PollOp) && m' == Step(m, PollOp)
    ensures TagsRight(m') ==> TagsRight(m)
    ensures N.Good(m.nt, m.a) && TagsRight(m) ==> (TagsRight(m') <==> m.a.Timely())
  {
    PollTakes(m, m');
    TagsGrow(m, m', m.nt.imm[Slot(m.h.polled, m.r.max)]);
    if N.Good(m.nt, m.a) {
      N.TakeReportsIff(m.nt, m.a);
    }
  }

  lemma TagsGrow(m: Machine, m': Machine, tag: N.Tag)
    requires m'.h.packets == m.h.packets && |m.wcs| < |m.h.packets| && |m'.wcs| == |m.wcs| + 1
    requires m'.wcs[..|m.wcs|] == m.wcs && m'.wcs[|m.wcs|].tag == tag
    ensures TagsRight(m') <==> TagsRight(m) && tag == m.h.packets[|m.wcs|].tag
  {
    assert forall i :: 0 <= i < |m.wcs| ==> m'.wcs[i] == m'.wcs[..|m.wcs|][i];
  }

  lemma OthersKeepTags(m: Machine, op: Op, m': Machine)
    requires Inv(m) && Allowed(m, op) && m' == Step(m, op) && !op.PollOp?
    ensures TagsRight(m') <==> TagsRight(m)
  {}

  /** Every poll turn among the first n steps came after its packet's notice was handled. */
  predicate AllTimely(ms: seq<Machine>, ops: seq<Op>, n: nat)
    requires n <= |ops| && |ms| == |ops| + 1
  {
    n > 0 ==> AllTimely(ms, ops, n - 1) && (ops[n - 1].PollOp? ==> ms[n - 1].a.Timely())
  }

  /** In every run, all records reported are right if and only if every poll turn was in time. */
  lemma {:induction false} RunRightIff(ms: seq<Machine>, ops: seq<Op>, n: nat)
    requires IsRun(ms, ops) && n <= |ops|
    requires Inv(ms[0]) && N.Good(ms[0].nt, ms[0].a) && TagsRight(ms[0])
    ensures ms[n].nt.Shape()
    ensures TagsRight(ms[n]) <==> AllTimely(ms, ops, n)
    ensures AllTimely(ms, ops, n) ==> N.Good(ms[n].nt, ms[n].a)
  {
    if n > 0 {
      RunRightIff(ms, ops, n - 1);
      RunKeepsInv(ms, ops, n - 1);
      RunKeepsInv(ms, ops, n);
      JoinedAt(ms, ops, |ops|, n - 1);
      RightStep(ms[n - 1], ops[n - 1], ms[n], AllTimely(ms, ops, n - 1));
    }
  }

  lemma RightStep(m: Machine, op: Op, m': Machine, prompt: bool)
    requires Inv(m) && Allowed(m, op) && m' == Step(m, op) && m'.nt.Shape()
    requires (TagsRight(m) <==> prompt) && (prompt ==> N.Good(m.nt, m.a))
    ensures TagsRight(m') <==> prompt && (op.PollOp? ==> m.a.Timely())
    ensures prompt && (op.PollOp? ==> m.a.Timely()) ==> N.Good(m'.nt, m'.a)
  {
    if op.PollOp? {
      PollRightIff(m, m');
    } else {
      OthersKeepTags(m, op, m');
    }
    if prompt && (op.PollOp? ==> m.a.Timely()) {
      StepKeepsGood(m, op, m');
    }
  }

  /** The step writes slot s of imm_inv_data. */
  predicate Writes(m: Machine, op: Op, s: nat)
    requires m.nt.Shape()
  {
    || (op.HandleOp? && m.nt.bds[m.nt.ci].Some? && !m.nt.bds[m.nt.ci].value.tag.Plain? && m.nt.bds[m.nt.ci].value.pi - 1 == s)
    || (op.PollOp? && m.r.cons == s)
  }

  /** No step from i to j - 1 does. */
  predicate Unwritten(ms: seq<Machine>, ops: seq<Op>, i: nat, j: nat, s: nat)
    requires i <= j <= |ops| < |ms|
    decreases j
  {
    i < j ==> ms[j - 1].nt.Shape() && !Writes(ms[j - 1], ops[j - 1], s) && Unwritten(ms, ops, i, j - 1, s)
  }

  lemma SlotStep(m: Machine, op: Op, m': Machine, s: nat)
    requires IsStep(m, op, m') && s < m.nt.max && !Writes(m, op, s)
    ensures |m'.nt.imm| == m.nt.max && m'.nt.imm[s] == m.nt.imm[s] && m'.nt.max == m.nt.max
  {}

  lemma {:induction false} SlotStays(ms: seq<Machine>, ops: seq<Op>, i: nat, j: nat, s: nat)
    requires IsRun(ms, ops) && i <= j <= |ops| && s < |ms[i].nt.imm| == ms[i].nt.max
    requires Unwritten(ms, ops, i, j, s)
    ensures |ms[j].nt.imm| == ms[j].nt.max == ms[i].nt.max && ms[j].nt.imm[s] == ms[i].nt.imm[s]
    decreases j
  {
    if i < j {
      SlotStays(ms, ops, i, j - 1, s);
      JoinedAt(ms, ops, |ops|, j - 1);
      SlotStep(ms[j - 1], ops[j - 1], ms[j], s);
    }
  }

  /** A handled notice is in its packet's slot. */
  lemma HandleFills(m: Machine, op: Op, m': Machine, n: nat, s: nat)
    requires Inv(m) && IsStep(m, op, m') && op.HandleOp? && m.a.pending != [] && n == m.a.pending[0]
    requires n < |m.a.tags| && !m.a.tags[n].Plain? && s == Slot(n, m.r.max)
    ensures s < |m'.nt.imm| == m'.nt.max == m.r.max && m'.nt.imm[s] == m.a.tags[n]
  {
    N.HandleLands(m.nt, m.a);
  }

  /** A poll turn for packet k reports what slot k holds. */
  lemma PollTakes(m: Machine, m': Machine)
    requires Inv(m) && Allowed(m, PollOp) && m' == Step(m, PollOp)
    ensures m.h.polled < m.h.popped && |m.nt.imm| == m.r.max && m.r.cons == Slot(m.h.polled, m.r.max)
    ensures m'.wcs == m.wcs + [WcOf(m.h.posted[m.h.polled], m.nt.imm[Slot(m.h.polled, m.r.max)])] && |m.wcs| == m.h.polled
  {
    PollReports(m);
  }

  /** Step i handles the notice of packet n. */
  predicate Handles(ms: seq<Machine>, ops: seq<Op>, i: nat, n: nat)
    requires i < |ops| && |ms| == |ops| + 1
  {
    && ops[i].HandleOp? && ms[i].a.pending != [] && ms[i].a.pending[0] == n
    && n < |ms[i].a.tags| && !ms[i].a.tags[n].Plain? && ms[i].r.max > 0
  }

  lemma FilledAfter(ms: seq<Machine>, ops: seq<Op>, i: nat, n: nat, s: nat)
    requires IsRun(ms, ops) && Inv(ms[0]) && i < |ops| && Handles(ms, ops, i, n) && s == Slot(n, ms[i].r.max)
    ensures s < |ms[i + 1].nt.imm| == ms[i + 1].nt.max == ms[i].r.max && ms[i + 1].nt.imm[s] == ms[i].a.tags[n]
  {
    RunKeepsInv(ms, ops, i);
    JoinedAt(ms, ops, |ops|, i);
    HandleFills(ms[i], ops[i], ms[i + 1], n, s);
  }

  lemma PollTakesLater(m: Machine, m': Machine, n: nat, tag: N.Tag)
    requires Inv(m) && IsStep(m, PollOp, m') && m.h.polled == n + m.r.max
    requires m.nt.imm[Slot(n, m.r.max)] == tag
    ensures |m'.wcs| == n + m.r.max + 1 && m'.wcs[n + m.r.max].tag == tag
  {
    PollTakes(m, m');
    SlotsDiffer(n, n + m.r.max, m.r.max);
  }

  /** A notice that is handled after its packet n was polled is reported for packet n + max_wr,
      unless that one's own notice, or that of an even earlier packet, comes in between. */
  lemma LateIsMisreported(ms: seq<Machine>, ops: seq<Op>, i: nat, j: nat, n: nat)
    requires IsRun(ms, ops) && Inv(ms[0]) && i < j < |ops| && Handles(ms, ops, i, n)
    requires Unwritten(ms, ops, i + 1, j, Slot(n, ms[i].r.max))
    requires ops[j].PollOp? && ms[j].h.polled == n + ms[i].r.max
    ensures |ms[j + 1].wcs| == n + ms[i].r.max + 1 && ms[j + 1].wcs[n + ms[i].r.max].tag == ms[i].a.tags[n]
  {
    FilledAfter(ms, ops, i, n, Slot(n, ms[i].r.max));
    SlotStays(ms, ops, i + 1, j, Slot(n, ms[i].r.max));
    PolledAt(ms, ops, j, n, ms[i].r.max, ms[i].a.tags[n]);
  }

  lemma PolledAt(ms: seq<Machine>, ops: seq<Op>, j: nat, n: nat, max: nat, tag: N.Tag)
    requires IsRun(ms, ops) && Inv(ms[0]) && j < |ops| && ops[j].PollOp? && max > 0 && ms[j].h.polled == n + max
    requires |ms[j].nt.imm| == ms[j].nt.max == max && ms[j].nt.imm[Slot(n, max)] == tag
    ensures |ms[j + 1].wcs| == n + max + 1 && ms[j + 1].wcs[n + max].tag == tag
  {
    RunKeepsInv(ms, ops, j);
    JoinedAt(ms, ops, |ops|, j);
    PollTakesLater(ms[j], ms[j + 1], n, tag);
  }

  /** A new queue pair. */
  ghost function Fresh(max: nat, bufSize: nat, mem: Memory): Machine
    requires max > 0
  {
    Machine(Ring(max, bufSize, 0, 0, 0, 0, 0, 0, seq(max, _ => NoWr), seq(max, _ => seq(bufSize, _ => 0))),
            N.Notices(max, seq(N.RX_BD_NUM, _ => None), 0, seq(max, _ => N.Plain)), mem,
            History([], [], 0, 0), N.Arrivals([], 0, {}, [], 0), Idle, [])
  }

  lemma FreshInv(max: nat, bufSize: nat, mem: Memory)
    requires max > 0
    ensures var m := Fresh(max, bufSize, mem); Inv(m) && N.Good(m.nt, m.a) && TagsRight(m)
  {
    var m := Fresh(max, bufSize, mem);
    forall n: nat | n < max ensures N.Record(m.nt, m.a, n) {}
    forall i: nat | i < N.RX_BD_NUM ensures N.At(m.nt, m.a, i) {}
  }

  /** Every run from a new queue pair: the k-th completion carries the id of the k-th accepted
      receive; and all completions carry the records of their own packets, if and only if every
      poll turn was in time. */
  lemma RunCompletes(ms: seq<Machine>, ops: seq<Op>, max: nat, bufSize: nat, mem: Memory)
    requires max > 0 && IsRun(ms, ops) && ms[0] == Fresh(max, bufSize, mem)
    ensures var m := ms[|ops|];
            && |m.wcs| <= |m.h.packets| <= |m.h.posted|
            && (forall k :: 0 <= k < |m.wcs| ==> m.wcs[k].id == m.h.posted[k].id)
            && (forall k :: 0 <= k < |m.wcs| ==>
                  m.wcs[k].byteLen == if m.h.posted[k].sgl == [] then 0 else m.h.posted[k].sgl[0].len)
            && ((forall k :: 0 <= k < |m.wcs| ==> m.wcs[k].tag == m.h.packets[k].tag) <==> AllTimely(ms, ops, |ops|))
  {
    FreshInv(max, bufSize, mem);
    RunKeepsInv(ms, ops, |ops|);
    RunRightIff(ms, ops, |ops|);
  }

  /** A poll pops every packet that had arrived when it began, returns at most as many completions as
      it was asked for, and fewer only when every popped packet has been reported. */
  lemma PollEnds(m: Machine)
    requires Inv(m)
    ensures m.phase.Popping? && m.phase.left <= 0 ==> m.h.popped == m.phase.snap
    ensures m.phase.Polling? ==> m.phase.before <= |m.wcs| <= m.phase.before + m.phase.n
    ensures m.phase.Polling? && !m.Goes() ==> |m.wcs| == m.phase.before + m.phase.n || m.h.polled == m.h.popped
  {
    PollGuard(m.r, m.h);
  }

  /** Some run leads from m to m'. */
  ghost predicate Reaches(m: Machine, m': Machine) {
    exists ms, ops :: IsRun(ms, ops) && ms[0] == m && ms[|ops|] == m'
  }

  lemma RunExtends(ms: seq<Machine>, ops: seq<Op>, op: Op, m': Machine)
    requires IsRun(ms, ops) && IsStep(ms[|ops|], op, m')
    ensures IsRun(ms + [m'], ops + [op])
  {
    var n, ms', ops' := |ops|, ms + [m'], ops + [op];
    JoinedLonger(ms, ops, m', op, n);
    assert ms'[n] == ms[n] && ms'[n + 1] == m' && ops'[n] == op;
  }

  lemma ReachesNext(m0: Machine, m: Machine, op: Op, m': Machine)
    requires Reaches(m0, m) && IsStep(m, op, m')
    ensures Reaches(m0, m')
  {
    var ms, ops :| IsRun(ms, ops) && ms[0] == m0 && ms[|ops|] == m;
    RunExtends(ms, ops, op, m');
    assert (ms + [m'])[0] == m0 && (ms + [m'])[|ops + [op]|] == m';
  }

  /** Everything posted has arrived, and everything that arrived has been polled. */
  ghost predicate Quiet(m: Machine) {
    && Inv(m) && m.phase.Idle? && m.r.max > 1
    && |m.h.posted| == |m.h.packets| == m.h.popped == m.h.polled
  }

  /** A receive is posted and its packet arrives. */
  lemma PostAndArrive(m0: Machine, m: Machine, wr: RecvWr, q: Packet) returns (m2: Machine)
    requires Reaches(m0, m) && Quiet(m) && wr.sgl == [] && |q.bytes| == m.r.bufSize
    ensures Reaches(m0, m2) && Inv(m2) && m2.phase.Idle? && m2.r.max == m.r.max && m2.r.bufSize == m.r.bufSize
    ensures m2.h == m.h.(posted := m.h.posted + [wr], packets := m.h.packets + [q])
    ensures m2.a == m.a.(tags := m.a.tags + [q.tag]) && m2.nt == m.nt && m2.wcs == m.wcs
  {
    var m1 := Step(m, PostOp(wr));
    StepKeepsInv(m, PostOp(wr), m1);
    ReachesNext(m0, m, PostOp(wr), m1);
    m2 := Step(m1, ArriveOp(q));
    StepKeepsInv(m1, ArriveOp(q), m2);
    ReachesNext(m0, m1, ArriveOp(q), m2);
  }

  /** A poll pops it and is about to report it. */
  lemma PopForPoll(m0: Machine, m: Machine) returns (m5: Machine)
    requires Reaches(m0, m) && Inv(m) && m.phase.Idle? && m.r.max > 1
    requires m.h.popped == m.h.polled && |m.h.packets| == m.h.popped + 1
    ensures Reaches(m0, m5) && Inv(m5) && m5.Goes() && m5.phase.room == 1
    ensures m5.r.max == m.r.max && m5.r.bufSize == m.r.bufSize
    ensures m5.h == m.h.(popped := m.h.popped + 1) && m5.a == m.a && m5.nt == m.nt && m5.wcs == m.wcs
  {
    RqRecdExactIff(m.h.popped, m.h.popped + 1, m.r.max);
    var m3 := Step(m, BeginOp);
    StepKeepsInv(m, BeginOp, m3);
    ReachesNext(m0, m, BeginOp, m3);
    var m4 := Step(m3, PopOp);
    StepKeepsInv(m3, PopOp, m4);
    ReachesNext(m0, m3, PopOp, m4);
    m5 := Step(m4, FillOp(1));
    ReachesNext(m0, m4, FillOp(1), m5);
    PollGuard(m5.r, m5.h);
  }

  /** It reports it with what its slot holds, and ends. */
  lemma TakeAndEnd(m0: Machine, m: Machine) returns (m7: Machine)
    requires Reaches(m0, m) && Inv(m) && m.Goes() && m.phase.room == 1
    ensures Reaches(m0, m7) && Inv(m7) && m7.phase.Idle? && m7.r.max == m.r.max && m7.r.bufSize == m.r.bufSize
    ensures m.h.polled < |m.h.posted| && |m.nt.imm| == m.r.max > 0
    ensures m7.h == m.h.(polled := m.h.polled + 1) && m7.a == m.a.(polled := m.a.polled + 1)
    ensures var s := Slot(m.h.polled, m.r.max);
            m7.nt.imm == m.nt.imm[s := N.Plain] && m7.wcs == m.wcs + [WcOf(m.h.posted[m.h.polled], m.nt.imm[s])]
  {
    var m6 := Step(m, PollOp);
    PollTakes(m, m6);
    StepKeepsInv(m, PollOp, m6);
    ReachesNext(m0, m, PollOp, m6);
    m7 := Step(m6, EndOp);
    ReachesNext(m0, m6, EndOp, m7);
  }

  /** One packet, from its receive to its completion, without any notice being handled. */
  lemma OnePacket(m0: Machine, m: Machine, wr: RecvWr, q: Packet) returns (m': Machine)
    requires Reaches(m0, m) && Quiet(m) && wr.sgl == [] && |q.bytes| == m.r.bufSize
    ensures Reaches(m0, m') && Quiet(m') && m'.r.max == m.r.max && m'.r.bufSize == m.r.bufSize
    ensures m'.h.packets == m.h.packets + [q] && |m'.h.posted| == |m.h.posted| + 1 && m'.a.handled == m.a.handled
    ensures m'.a.tags == m.a.tags + [q.tag] && m'.a.pending == m.a.pending && |m.nt.imm| == m.r.max
    ensures var s := Slot(m.h.polled, m.r.max);
            m'.nt.imm == m.nt.imm[s := N.Plain] && m'.wcs == m.wcs + [WcOf(wr, m.nt.imm[s])]
  {
    var m2 := PostAndArrive(m0, m, wr, q);
    var m5 := PopForPoll(m0, m2);
    m' := TakeAndEnd(m0, m5);
  }

  lemma NoticeWritten(m0: Machine, m: Machine, n: nat) returns (m1: Machine)
    requires Reaches(m0, m) && Inv(m) && m.a.pending == [] && n < |m.a.tags| && n !in m.a.handled
    ensures Reaches(m0, m1) && Inv(m1) && m1.a == m.a.(pending := [n])
    ensures m1.r == m.r && m1.h == m.h && m1.wcs == m.wcs && m1.phase == m.phase
  {
    m1 := Step(m, NoteOp(n));
    StepKeepsInv(m, NoteOp(n), m1);
    ReachesNext(m0, m, NoteOp(n), m1);
  }

  lemma NoticeHandled(m0: Machine, m: Machine, n: nat) returns (m': Machine)
    requires Reaches(m0, m) && Inv(m) && m.a.pending == [n] && n < |m.a.tags| && !m.a.tags[n].Plain?
    ensures Reaches(m0, m') && Inv(m') && m'.a.tags == m.a.tags && m'.a.pending == []
    ensures m'.r == m.r && m'.h == m.h && m'.wcs == m.wcs && m'.phase == m.phase
    ensures |m'.nt.imm| == m.r.max > 0 && m'.nt.imm[Slot(n, m.r.max)] == m.a.tags[n]
  {
    N.HandleGuard(m.nt, m.a);
    m' := Step(m, HandleOp);
    StepKeepsInv(m, HandleOp, m');
    ReachesNext(m0, m, HandleOp, m');
    HandleFills(m, HandleOp, m', n, Slot(n, m.r.max));
  }

  /** The notice of packet n comes and is handled. */
  lemma NoticeComes(m0: Machine, m: Machine, n: nat) returns (m': Machine)
    requires Reaches(m0, m) && Quiet(m) && m.a.pending == [] && n < |m.a.tags| && n !in m.a.handled && !m.a.tags[n].Plain?
    ensures Reaches(m0, m') && Quiet(m') && m'.r == m.r && m'.h == m.h && m'.wcs == m.wcs
    ensures m'.a.tags == m.a.tags && m'.a.pending == []
    ensures |m'.nt.imm| == m.r.max && m'.nt.imm[Slot(n, m.r.max)] == m.a.tags[n]
  {
    var m1 := NoticeWritten(m0, m, n);
    m' := NoticeHandled(m0, m1, n);
  }

  lemma FreshQuiet(m0: Machine)
    requires m0.r.max > 1 && m0 == Fresh(m0.r.max, m0.r.bufSize, m0.mem)
    ensures Quiet(m0) && Reaches(m0, m0) && |m0.nt.imm| == m0.r.max && m0.nt.imm[0] == N.Plain
    ensures m0.a.pending == [] && m0.a.handled == {} && m0.a.tags == [] && m0.h.polled == 0 && m0.wcs == []
  {
    FreshInv(m0.r.max, m0.r.bufSize, m0.mem);
    assert IsRun([m0], []);
  }

  /** The failure at its smallest: on a new queue pair of any size, one packet with immediate or
      invalidate data that is polled before its notice is handled is reported without it. */
  lemma EarlyPollRun(m0: Machine, wr: RecvWr, p: Packet) returns (m: Machine)
    requires m0.r.max > 1 && m0 == Fresh(m0.r.max, m0.r.bufSize, m0.mem) && |p.bytes| == m0.r.bufSize && wr.sgl == []
    requires !p.tag.Plain?
    ensures Reaches(m0, m) && Quiet(m) && m.a.pending == [] && m.a.handled == {} && m.a.tags == [p.tag]
    ensures m.r.max == m0.r.max && m.r.bufSize == m0.r.bufSize && m.h.polled == 1
    ensures m.h.packets == [p] && |m.wcs| == 1 && m.wcs[0].id == wr.id && m.wcs[0].tag != p.tag
  {
    FreshQuiet(m0);
    m := OnePacket(m0, m0, wr, p);
  }

  /** What slot 0 holds goes to the next packet that is a whole number of laps from the first, and
      to no other. */
  lemma OneMore(m0: Machine, m: Machine, wr: RecvWr, q: Packet) returns (m': Machine)
    requires Reaches(m0, m) && Quiet(m) && wr.sgl == [] && |q.bytes| == m.r.bufSize
    requires 1 <= m.h.polled <= m.r.max && |m.nt.imm| == m.r.max
    ensures Reaches(m0, m') && Quiet(m') && m'.r.max == m.r.max && m'.r.bufSize == m.r.bufSize
    ensures m'.h.polled == m.h.polled + 1 && m'.h.packets == m.h.packets + [q] && m.wcs <= m'.wcs && |m'.nt.imm| == m.r.max
    ensures |m.wcs| == m.h.polled && |m'.wcs| == m.h.polled + 1 && |m.h.packets| == m.h.polled
    ensures if m.h.polled < m.r.max then m'.nt.imm[0] == m.nt.imm[0] else m'.wcs[m.r.max].tag == m.nt.imm[0]
  {
    m' := OnePacket(m0, m, wr, q);
    SlotsDiffer(0, m.h.polled, m.r.max);
  }

  /** Plain packets up to the end of the lap leave slot 0 alone. */
  lemma {:induction false} RestOfLap(m0: Machine, m: Machine, wr: RecvWr, q: Packet) returns (m': Machine)
    requires Reaches(m0, m) && Quiet(m) && wr.sgl == [] && |q.bytes| == m.r.bufSize
    requires 1 <= m.h.polled <= m.r.max && |m.nt.imm| == m.r.max
    ensures Reaches(m0, m') && Quiet(m') && m'.r.max == m.r.max && m'.r.bufSize == m.r.bufSize
    ensures m'.h.polled == m.r.max && |m'.nt.imm| == m.r.max && m'.nt.imm[0] == m.nt.imm[0]
    ensures m.h.packets <= m'.h.packets && m.wcs <= m'.wcs
    decreases m.r.max - m.h.polled
  {
    if m.h.polled == m.r.max { return m; }
    var m1 := OneMore(m0, m, wr, q);
    m' := RestOfLap(m0, m1, wr, q);
  }

  /** And the record is not just lost: its notice is handled late, a lap of plain packets goes by,
      and the plain packet max_wr is reported with it. */
  lemma LateNoticeRun(m0: Machine, wr: RecvWr, p: Packet, q: Packet) returns (m: Machine)
    requires m0.r.max > 1 && m0 == Fresh(m0.r.max, m0.r.bufSize, m0.mem) && wr.sgl == []
    requires |p.bytes| == |q.bytes| == m0.r.bufSize && !p.tag.Plain? && q.tag.Plain?
    ensures Reaches(m0, m) && |m.wcs| == |m.h.packets| == m0.r.max + 1
    ensures m.h.packets[0] == p && m.wcs[0].tag != p.tag
    ensures m.h.packets[m0.r.max] == q && m.wcs[m0.r.max].tag == p.tag
  {
    var m1 := EarlyPollRun(m0, wr, p);
    var m2 := NoticeComes(m0, m1, 0);
    var m3 := RestOfLap(m0, m2, wr, q);
    m := OneMore(m0, m3, wr, q);
    assert m1.wcs <= m.wcs && m1.h.packets <= m.h.packets;
  }

  // ----- the loops of the driver

  /** The driver state matches the story h, a with k completions polled. */
  ghost predicate Ready(r: Ring, mem: Memory, nt: N.Notices, h: History, a: N.Arrivals, k: nat) {
    && Core(r, mem, h.(polled := k)) && N.Base(nt, a.(polled := k)) && |a.tags| == |h.packets|
    && (r.cons == r.gsi <==> k == h.popped)
  }

  lemma ReadyNext(r: Ring, mem: Memory, nt: N.Notices, h: History, a: N.Arrivals, k: nat, r': Ring, nt': N.Notices, k': nat)
    requires Ready(r, mem, nt, h, a, k) && k < h.popped && k' == k + 1 && |nt.imm| == r.max && nt.max == r.max
    requires r' == r.Poll() && nt' == nt.Take(r.cons)
    ensures Ready(r', mem, nt', h, a, k')
    ensures r.rqes[r.cons] == h.posted[k] && r.cons == Slot(k, r.max) && h.popped < k + r.max
  {
    var h1, a1, h2, a2 := h.(polled := k), a.(polled := k), h.(polled := k'), a.(polled := k');
    PollLinked(r, h1);
    PollCore(r, mem, h1, r', h2);
    N.TakeKeepsBase(nt, a1, nt', a2);
    PollGuard(r', h2);
  }

  /** What the slots of the first n packets hold. */
  ghost function Held(imm: seq<N.Tag>, n: nat): (s: seq<N.Tag>)
    requires |imm| > 0
    ensures |s| == n && forall j: nat {:trigger s[j]} :: j < n ==> s[j] == imm[Slot(j, |imm|)]
  {
    seq(n, j requires 0 <= j => imm[Slot(j, |imm|)])
  }

  /** From packet k on the slots still hold that. */
  ghost predicate Waiting(imm: seq<N.Tag>, held: seq<N.Tag>, k: nat, n: nat) {
    |imm| > 0 && n <= |held| && forall j: nat {:trigger held[j]} :: k <= j < n ==> held[j] == imm[Slot(j, |imm|)]
  }

  lemma WaitingNext(imm: seq<N.Tag>, held: seq<N.Tag>, k: nat, n: nat)
    requires Waiting(imm, held, k, n) && k < n < k + |imm|
    ensures Waiting(imm[Slot(k, |imm|) := N.Plain], held, k + 1, n) && held[k] == imm[Slot(k, |imm|)]
  {
    forall j: nat | k < j < n
      ensures Slot(j, |imm|) != Slot(k, |imm|)
    {
      SlotsDiffer(k, j, |imm|);
    }
  }

  lemma {:induction false} WcsOfSame(posted: seq<RecvWr>, s: seq<N.Tag>, t: seq<N.Tag>, i: nat, k: nat)
    requires i <= k <= |posted| && k <= |s| && k <= |t| && forall j :: i <= j < k ==> s[j] == t[j]
    ensures WcsOf(posted, s, i, k) == WcsOf(posted, t, i, k)
  {
    if i < k { WcsOfSame(posted, s, t, i, k - 1); }
  }

  /** While every poll was in time and the notices of the popped packets have been handled, that is
      their own packets' records. */
  lemma HeldIsRight(nt: N.Notices, h: History, a: N.Arrivals, k: nat)
    requires N.Base(nt, a) && N.Good(nt, a) && a.polled == h.polled <= k <= h.popped <= |h.posted| && k <= |a.tags|
    requires forall i: nat :: h.polled <= i < k ==> a.Settled(i)
    ensures WcsOf(h.posted, Held(nt.imm, h.popped), h.polled, k) == WcsOf(h.posted, a.tags, h.polled, k)
  {
    forall j: nat | h.polled <= j < k
      ensures Held(nt.imm, h.popped)[j] == a.tags[j]
    {
      assert N.Record(nt, a, j) && a.Settled(j);
    }
    WcsOfSame(h.posted, Held(nt.imm, h.popped), a.tags, h.polled, k);
  }

  predicate AllFit(wrs: seq<RecvWr>, k: nat, bufSize: nat)
    requires k <= |wrs|
  {
    k > 0 ==> FitsIn(wrs[k - 1], bufSize) && AllFit(wrs, k - 1, bufSize)
  }

  /** h with the first k of these requests posted. */
  ghost function Extended(h: History, wrs: seq<RecvWr>, k: nat): History
    requires k <= |wrs|
  {
    h.(posted := h.posted + wrs[..k])
  }

  lemma Append(s: seq<RecvWr>, t: seq<RecvWr>, k: nat)
    requires k < |t|
    ensures s + t[..k + 1] == s + t[..k] + [t[k]]
  {}

  class RecvRing {
    const max: nat             // rq.max_wr
    const bufSize: nat         // qp.rq_buf_size
    var prod: nat
    var cons: nat
    var gsi: nat               // rq.gsi_cons
    var local: nat             // rq.rq_wrptr_db_local
    var doorbell: nat          // qp1_rq_db_v[qpn], written by the hardware
    var consumed: nat          // XRNIC_RQ_CONS_IDX
    var rqes: seq<RecvWr>
    var bufs: seq<seq<nat>>    // rq_ba_v, written by the hardware
    var mem: Memory
    var bds: seq<Option<N.Notice>>
    var ci: nat                // rx_bd_ci
    var imm: seq<N.Tag>        // imm_inv_data

    constructor (max: nat, bufSize: nat, mem: Memory)
      requires max > 0
      ensures var m := Fresh(max, bufSize, mem); View() == m.r && Notes() == m.nt && this.mem == mem
    {
      this.max, this.bufSize, this.mem := max, bufSize, mem;
      prod, cons, gsi, local, doorbell, consumed, ci := 0, 0, 0, 0, 0, 0, 0;
      rqes, bufs := seq(max, _ => NoWr), seq(max, _ => seq(bufSize, _ => 0));
      bds, imm := seq(N.RX_BD_NUM, _ => None), seq(max, _ => N.Plain);
    }

    ghost function View(): Ring reads this {
      Ring(max, bufSize, prod, cons, gsi, local, doorbell, consumed, rqes, bufs)
    }

    ghost function Notes(): N.Notices reads this { N.Notices(max, bds, ci, imm) }

    method PostOne(wr: RecvWr) returns (ok: bool)
      requires View().Shape()
      modifies this`rqes, this`prod
      ensures View() == old(View()).Post(wr) && ok == FitsIn(wr, bufSize)
    {
      rqes := rqes[prod := NoWr];
      ok := Total(wr.sgl) <= bufSize && |wr.sgl| <= XIB_MAX_RQE_SGE;
      if ok {
        rqes := rqes[prod := wr];
        prod := Inc(prod, max);
      }
    }

    method PostNext(wrs: seq<RecvWr>, k: nat, ghost h: History) returns (k': nat)
      requires k < |wrs| && Linked(View(), Extended(h, wrs, k)) && |h.posted| + k + 1 < h.polled + max
      modifies this`rqes, this`prod
      ensures k' == (if FitsIn(wrs[k], bufSize) then k + 1 else k) && Linked(View(), Extended(h, wrs, k'))
    {
      ghost var r := View();
      Append(h.posted, wrs, k);
      var ok := PostOne(wrs[k]);
      k' := if ok then k + 1 else k;
      if ok {
        PostLinked(r, Extended(h, wrs, k), wrs[k]);
      } else {
        RefusedLinked(r, Extended(h, wrs, k), wrs[k]);
      }
    }

    /** xib_kernel_qp_post_recv: requests are accepted in order up to the first that is too large;
        `bad` is its index, or the number of requests. */
    method PostRecv(wrs: seq<RecvWr>, ghost h: History) returns (bad: nat)
      requires Linked(View(), h) && |h.posted| + |wrs| < h.polled + max
      modifies this`rqes, this`prod
      ensures bad <= |wrs| && AllFit(wrs, bad, bufSize)
      ensures bad < |wrs| ==> !FitsIn(wrs[bad], bufSize)
      ensures Linked(View(), Extended(h, wrs, bad))
    {
      bad := 0;
      assert Extended(h, wrs, 0) == h;
      while bad < |wrs|
        invariant bad <= |wrs| && AllFit(wrs, bad, bufSize)
        invariant Linked(View(), Extended(h, wrs, bad))
      {
        var k := bad;
        bad := PostNext(wrs, k, h);
        if bad == k {
          return;
        }
      }
    }

    /** One turn of xib_pop_rq's loop, lines 1019-1045. */
    method PopOne(ghost h: History)
      requires Core(View(), mem, h) && h.popped < |h.packets|
      modifies this`mem, this`gsi, this`local, this`consumed
      ensures Core(View(), mem, h.(popped := h.popped + 1))
    {
      ghost var r, mem0 := View(), mem;
      if local == max {
        local := 0;
      }
      var buf, rqe := bufs[local], rqes[gsi];
      mem := CopyOut(mem, rqe.sgl, buf);
      gsi := Inc(gsi, max);
      local := local + 1;
      consumed := local;
      PopCore(r, mem0, h, View(), mem, h.(popped := h.popped + 1));
    }

    /** xib_pop_rq: pops every packet that has arrived. */
    method PopRq(ghost h: History) returns (received: int)
      requires Core(View(), mem, h)
      modifies this`mem, this`gsi, this`local, this`consumed
      ensures received == |h.packets| - h.popped && Core(View(), mem, h.(popped := |h.packets|))
    {
      received := RqRecd(local, doorbell, max);
      RqRecdExactIff(h.popped, |h.packets|, max);
      var i := 0;
      ghost var h' := h;
      while i < received
        invariant 0 <= i <= received && h' == h.(popped := h.popped + i) && Core(View(), mem, h')
      {
        PopOne(h');
        i := i + 1;
        h' := h'.(popped := h'.popped + 1);
      }
    }

    /** One turn of the receive loop, lines 1078-1099. */
    method PollOne() returns (wc: Wc)
      requires View().Shape() && Notes().Shape()
      modifies this`imm, this`cons
      ensures View() == old(View()).Poll() && Notes() == old(Notes()).Take(old(cons))
      ensures wc == WcOf(rqes[old(cons)], old(imm[cons]))
    {
      wc := WcOf(rqes[cons], imm[cons]);
      imm := imm[cons := N.Plain];
      cons := Inc(cons, max);
    }

    method PollNext(wcs: seq<Wc>, ghost h: History, ghost a: N.Arrivals, ghost k: nat, ghost held: seq<N.Tag>)
        returns (wcs': seq<Wc>, ghost k': nat)
      requires Ready(View(), mem, Notes(), h, a, k) && h.polled <= k < h.popped <= |held|
      requires Waiting(imm, held, k, h.popped) && wcs == WcsOf(h.posted, held, h.polled, k)
      modifies this`imm, this`cons
      ensures k' == k + 1 && Ready(View(), mem, Notes(), h, a, k') && |wcs'| == |wcs| + 1
      ensures Waiting(imm, held, k', h.popped) && wcs' == WcsOf(h.posted, held, h.polled, k')
    {
      ghost var r, nt := View(), Notes();
      k' := k + 1;
      ReadyNext(r, mem, nt, h, a, k, r.Poll(), nt.Take(r.cons), k');
      WaitingNext(imm, held, k, h.popped);
      var wc := PollOne();
      wcs' := wcs + [wc];
    }

    /** The receive half of xib_poll_kernel_cq after the pop: it returns the next completions in
        order, each with what its slot holds, stopping early only when no popped packet is left. */
    method PollRecv(n: nat, ghost h: History, ghost a: N.Arrivals) returns (wcs: seq<Wc>, ghost k: nat)
      requires Ready(View(), mem, Notes(), h, a, h.polled)
      modifies this`imm, this`cons
      ensures h.polled <= k <= h.popped && Ready(View(), mem, Notes(), h, a, k)
      ensures wcs == WcsOf(h.posted, Held(old(imm), h.popped), h.polled, k)
      ensures |wcs| <= n && (|wcs| == n || k == h.popped)
    {
      wcs, k := [], h.polled;
      ghost var held := Held(imm, h.popped);
      while |wcs| < n && cons != gsi
        invariant h.polled <= k <= h.popped && Ready(View(), mem, Notes(), h, a, k) && |wcs| <= n
        invariant Waiting(imm, held, k, h.popped) && wcs == WcsOf(h.posted, held, h.polled, k)
        decreases h.popped - k
      {
        wcs, k := PollNext(wcs, h, a, k, held);
      }
    }

    /** One turn of axidma_rq_recv's loop. */
    method HandleOne()
      requires Notes().Shape() && bds[ci].Some?
      modifies this`bds, this`ci, this`imm
      ensures Notes() == old(Notes()).Handle()
    {
      var notice := bds[ci].value;
      if !notice.tag.Plain? {
        imm := imm[notice.pi - 1 := notice.tag];
      }
      bds := bds[ci := None];
      ci := (ci + 1) % N.RX_BD_NUM;
    }

    /** axidma_rq_recv: handles every waiting notice. */
    method HandleAll(ghost a: N.Arrivals) returns (packets: nat, ghost a': N.Arrivals)
      requires N.Base(Notes(), a)
      modifies this`bds, this`ci, this`imm
      ensures packets == |a.pending| && N.Base(Notes(), a') && a'.pending == []
      ensures a' == a.(handled := a'.handled, pending := [], count := a.count + packets)
      ensures forall i :: 0 <= i < |a.pending| ==> a.pending[i] in a'.handled
    {
      packets, a' := 0, a;
      N.HandleGuard(Notes(), a');
      while bds[ci].Some?
        invariant N.Base(Notes(), a') && packets <= |a.pending| && (bds[ci].Some? <==> a'.pending != [])
        invariant a' == a.(handled := a'.handled, pending := a.pending[packets..], count := a.count + packets)
        invariant forall i :: 0 <= i < packets ==> a.pending[i] in a'.handled
        decreases |a.pending| - packets
      {
        ghost var nt, a0 := Notes(), a';
        HandleOne();
        a' := a0.Handled();
        N.HandleKeepsBase(nt, a0, Notes(), a');
        packets := packets + 1;
        N.HandleGuard(Notes(), a');
      }
    }
  }
}
