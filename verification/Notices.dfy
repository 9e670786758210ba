/** Immediate and invalidate data: the descriptor ring that axidma_rq_recv reads, and the
    imm_inv_data array that xib_poll_kernel_cq reads (xib-module/files/axidma.c, verbs.c). */
module Notices {
  import opened Lists
  import opened Rings

  const RX_BD_NUM: nat := 128

  /** What a packet carries beside its bytes; in an imm_inv_data slot, Plain is "not valid". */
  datatype Tag = Plain | Immediate(data: nat) | Invalidate(data: nat)

  /** A notification buffer; pi is rq_pi_ptr. */
  datatype Notice = Notice(tag: Tag, pi: nat)

  /** A descriptor whose status is not complete is None. */
  datatype Notices = Notices(max: nat, bds: seq<Option<Notice>>, ci: nat, imm: seq<Tag>) {
    predicate Shape() {
      && max > 0 && |bds| == RX_BD_NUM && ci < RX_BD_NUM && |imm| == max
      && forall b <- bds :: b.Some? ==> 1 <= b.value.pi <= max
    }

    /** The hardware completes a descriptor. */
    function Note(slot: nat, notice: Notice): Notices
      requires Shape() && slot < RX_BD_NUM && 1 <= notice.pi <= max
    {
      this.(bds := bds[slot := Some(notice)])
    }

    /** One turn of axidma_rq_recv's loop. */
    function Handle(): Notices
      requires Shape() && bds[ci].Some?
    {
      var notice := bds[ci].value;
      this.(imm := if notice.tag.Plain? then imm else imm[notice.pi - 1 := notice.tag],
            bds := bds[ci := None],
            ci := if ci + 1 == RX_BD_NUM then 0 else ci + 1)
    }

    /** Lines 1087-1096: read and clear the record of slot c. */
    function Take(c: nat): Notices
      requires Shape() && c < max
    {
      this.(imm := imm[c := Plain])
    }
  }

  /** What really happened: the tags of the packets that arrived, how many completions have been
      polled, the packets whose notice has been handled, those whose notice waits in the ring, and
      how many notices have been handled in all. */
  datatype Arrivals = Arrivals(tags: seq<Tag>, polled: nat, handled: set<nat>, pending: seq<nat>, count: nat) {
    ghost predicate Valid(max: nat) {
      && polled <= |tags| < polled + max && |pending| <= RX_BD_NUM
      && (forall n <- handled :: n < |tags|)
      && (forall i :: 0 <= i < |pending| ==> pending[i] < |tags| && pending[i] !in handled)
      && (forall i, j :: 0 <= i < j < |pending| ==> pending[i] != pending[j])
    }

    /** What the slot of packet n must hold. */
    function Expected(n: nat): Tag {
      if n in handled && n < |tags| then tags[n] else Plain
    }

    /** The notice of packet n, if it has one, has been handled. */
    predicate Settled(n: nat) { n < |tags| && (tags[n].Plain? || n in handled) }

    /** That of the next packet to be polled has. */
    predicate Timely() { Settled(polled) }

    /** Those of all polled packets have: every poll so far was in time. */
    ghost predicate Prompt() { forall n: nat {:trigger Settled(n)} :: n < polled ==> Settled(n) }

    function Handled(): Arrivals
      requires pending != []
    {
      this.(handled := handled + {pending[0]}, pending := pending[1..], count := count + 1)
    }
  }

  ghost function NoticeOf(a: Arrivals, n: nat, max: nat): (r: Notice)
    requires max > 0 && n < |a.tags|
    ensures 1 <= r.pi <= max
  {
    Notice(a.tags[n], Wrapped(n + 1, max))
  }

  /** The waiting notices are in the ring, in order from the index on; the rest is free. */
  ghost predicate Ring(nt: Notices, a: Arrivals)
    requires nt.Shape() && a.Valid(nt.max)
  {
    && nt.ci == Slot(a.count, RX_BD_NUM)
    && forall i: nat {:trigger At(nt, a, i)} :: i < RX_BD_NUM ==> At(nt, a, i)
  }

  ghost predicate At(nt: Notices, a: Arrivals, i: nat)
    requires nt.Shape() && a.Valid(nt.max)
  {
    nt.bds[Slot(a.count + i, RX_BD_NUM)] == if i < |a.pending| then Some(NoticeOf(a, a.pending[i], nt.max)) else None
  }

  /** Every slot that is to be polled in the current lap holds what was handled for its packet. */
  ghost predicate Records(nt: Notices, a: Arrivals)
    requires nt.Shape()
  {
    forall n: nat {:trigger Record(nt, a, n)} :: a.polled <= n < a.polled + nt.max ==> Record(nt, a, n)
  }

  ghost predicate Record(nt: Notices, a: Arrivals, n: nat)
    requires nt.Shape()
  {
    nt.imm[Slot(n, nt.max)] == a.Expected(n)
  }

  /** What holds in every run. */
  ghost predicate Base(nt: Notices, a: Arrivals) { nt.Shape() && a.Valid(nt.max) && Ring(nt, a) }

  /** What holds as long as every poll is in time. */
  ghost predicate Good(nt: Notices, a: Arrivals)
    requires nt.Shape()
  {
    Records(nt, a) && a.Prompt()
  }

  // ----- a packet arrives

  lemma ArriveKeepsBase(nt: Notices, a: Arrivals, tag: Tag, a': Arrivals)
    requires Base(nt, a) && |a.tags| + 1 < a.polled + nt.max && a' == a.(tags := a.tags + [tag])
    ensures Base(nt, a')
  {
    forall i: nat | i < RX_BD_NUM ensures At(nt, a', i) { assert At(nt, a, i); }
  }

  lemma ArriveKeepsGood(nt: Notices, a: Arrivals, tag: Tag, a': Arrivals)
    requires Base(nt, a) && Good(nt, a) && a' == a.(tags := a.tags + [tag])
    ensures Good(nt, a')
  {
    forall n: nat | a.polled <= n < a.polled + nt.max ensures Record(nt, a', n) { assert Record(nt, a, n); }
    forall n: nat | n < a.polled ensures a'.Settled(n) { assert a.Settled(n); }
  }

  // ----- its notice is written

  /** A notice is written, once per packet and only into a free descriptor. */
  lemma NoteKeepsBase(nt: Notices, a: Arrivals, n: nat, nt': Notices, a': Arrivals)
    requires Base(nt, a) && n < |a.tags| && n !in a.handled && n !in a.pending && |a.pending| < RX_BD_NUM
    requires nt' == nt.Note(Slot(a.count + |a.pending|, RX_BD_NUM), NoticeOf(a, n, nt.max))
    requires a' == a.(pending := a.pending + [n])
    ensures Base(nt', a')
  {
    var k := |a.pending|;
    forall i: nat | i < RX_BD_NUM
      ensures At(nt', a', i)
    {
      assert At(nt, a, i);
      if i < k {
        SlotsDiffer(a.count + i, a.count + k, RX_BD_NUM);
      } else if i > k {
        SlotsDiffer(a.count + k, a.count + i, RX_BD_NUM);
      }
    }
  }

  lemma NoteKeepsGood(nt: Notices, a: Arrivals, n: nat, nt': Notices, a': Arrivals)
    requires Base(nt, a) && Good(nt, a) && n < |a.tags|
    requires nt' == nt.Note(Slot(a.count + |a.pending|, RX_BD_NUM), NoticeOf(a, n, nt.max)) && nt'.Shape()
    requires a' == a.(pending := a.pending + [n])
    ensures Good(nt', a')
  {
    forall m: nat | a.polled <= m < a.polled + nt.max ensures Record(nt', a', m) { assert Record(nt, a, m); }
    forall m: nat | m < a.polled ensures a'.Settled(m) { assert a.Settled(m); }
  }

  // ----- its notice is handled

  /** The loop guard of line 168 is exact. */
  lemma HandleGuard(nt: Notices, a: Arrivals)
    requires Base(nt, a)
    ensures nt.bds[nt.ci].Some? <==> a.pending != []
  {
    assert At(nt, a, 0);
  }

  lemma HandleRing(nt: Notices, a: Arrivals)
    requires Base(nt, a) && a.pending != [] && nt.bds[nt.ci].Some? && a.Handled().Valid(nt.max)
    ensures Ring(nt.Handle(), a.Handled())
  {
    var nt', a' := nt.Handle(), a.Handled();
    SlotNext(a.count, RX_BD_NUM);
    forall i: nat | i < RX_BD_NUM
      ensures At(nt', a', i)
    {
      SlotsDiffer(a.count, a.count + 1 + i, RX_BD_NUM);
      if i + 1 < RX_BD_NUM {
        assert At(nt, a, i + 1);
      }
    }
  }

  lemma HandleKeepsBase(nt: Notices, a: Arrivals, nt': Notices, a': Arrivals)
    requires Base(nt, a) && nt.bds[nt.ci].Some? && a.pending != [] && nt' == nt.Handle() && a' == a.Handled()
    ensures Base(nt', a')
  {
    assert forall i :: 0 <= i < |a.pending| - 1 ==> a.pending[1..][i] == a.pending[i + 1];
    HandleRing(nt, a);
  }

  /** The notice goes to the slot of its packet, which is also the slot of the packet a lap later:
      a notice handled after its packet was polled lies in wait for that one. */
  lemma HandleLands(nt: Notices, a: Arrivals)
    requires Base(nt, a) && nt.bds[nt.ci].Some? && a.pending != []
    ensures var n := a.pending[0];
            && nt.bds[nt.ci] == Some(NoticeOf(a, n, nt.max)) && NoticeOf(a, n, nt.max).pi - 1 == Slot(n, nt.max)
            && Slot(n + nt.max, nt.max) == Slot(n, nt.max)
            && (!a.tags[n].Plain? ==> nt.Handle().imm == nt.imm[Slot(n, nt.max) := a.tags[n]])
  {
    assert At(nt, a, 0);
    WrappedSlot(a.pending[0], nt.max);
  }

  lemma HandleKeepsGood(nt: Notices, a: Arrivals, nt': Notices, a': Arrivals)
    requires Base(nt, a) && Good(nt, a) && nt.bds[nt.ci].Some? && a.pending != [] && nt' == nt.Handle() && a' == a.Handled()
    requires nt'.Shape()
    ensures Good(nt', a')
  {
    var n := a.pending[0];
    HandleLands(nt, a);
    assert a.Settled(n) || n >= a.polled;
    forall m: nat | m < a.polled ensures a'.Settled(m) { assert a.Settled(m); }
    forall m: nat | a.polled <= m < a.polled + nt.max
      ensures Record(nt', a', m)
    {
      assert Record(nt, a, m);
      if n >= a.polled {
        if m < n {
          SlotsDiffer(m, n, nt.max);
        } else {
          SlotsDiffer(n, m, nt.max);
        }
      }
    }
  }

  // ----- the completion is polled

  /** As long as every earlier poll was in time, the completion of the next packet carries that
      packet's own record, if and only if its notice has been handled by then. */
  lemma TakeReportsIff(nt: Notices, a: Arrivals)
    requires Base(nt, a) && Good(nt, a) && a.polled < |a.tags|
    ensures nt.imm[Slot(a.polled, nt.max)] == a.tags[a.polled] <==> a.Timely()
  {
    assert Record(nt, a, a.polled);
  }

  lemma TakeKeepsBase(nt: Notices, a: Arrivals, nt': Notices, a': Arrivals)
    requires Base(nt, a) && a.polled < |a.tags|
    requires nt' == nt.Take(Slot(a.polled, nt.max)) && a' == a.(polled := a.polled + 1)
    ensures Base(nt', a')
  {
    forall i: nat | i < RX_BD_NUM ensures At(nt', a', i) { assert At(nt, a, i); }
  }

  lemma TakeKeepsGood(nt: Notices, a: Arrivals, nt': Notices, a': Arrivals)
    requires Base(nt, a) && Good(nt, a) && a.Timely()
    requires nt' == nt.Take(Slot(a.polled, nt.max)) && a' == a.(polled := a.polled + 1) && nt'.Shape()
    ensures Good(nt', a')
  {
    forall m: nat | m < a'.polled ensures a'.Settled(m) { assert a.Settled(m); }
    forall n: nat | a'.polled <= n < a'.polled + nt.max
      ensures Record(nt', a', n)
    {
      SlotsDiffer(a.polled, n, nt.max);
      if n < a.polled + nt.max {
        assert Record(nt, a, n);
      }
    }
  }
}
