/** The packed bitmap of the user memory manager (umm/files/bit_ops.c).

    An `unsigned int` is modelled by its 32 bits, least significant first: the source
    only shifts, masks, complements and compares these words.  Counters stay integers,
    and the one subtraction that can wrap in the source is written out modulo 2^32.
 */
module BitOps {

  const U32 := 0x1_0000_0000

  type Word = w: seq<bool> | |w| == 32 witness seq(32, _ => false)

  function Zero(): Word { seq(32, _ => false) }
  function AllOnes(): Word { seq(32, _ => true) }

  // ----- the C operators on words

  function Shr(w: Word, n: nat): Word { seq(32, i requires i >= 0 => i + n < 32 && w[i + n]) }
  function Shl(w: Word, n: nat): Word { seq(32, i requires 0 <= i < 32 => n <= i && w[i - n]) }
  function And(a: Word, b: Word): Word { seq(32, i requires 0 <= i < 32 => a[i] && b[i]) }
  function Or(a: Word, b: Word): Word { seq(32, i requires 0 <= i < 32 => a[i] || b[i]) }
  function Not(a: Word): Word { seq(32, i requires 0 <= i < 32 => !a[i]) }

  /** BIT_MASK(n): the low n bits, for the counts 1..32 on which the macro is defined. */
  function BitMask(n: nat): Word
    requires 1 <= n <= 32
  {
    seq(32, i => i < n)
  }

  // ----- what the words mean

  /** BIT_POS_TO_INT: the word that holds bit i. */
  function WordOf(i: nat): (w: nat)
    ensures 32 * w <= i < 32 * w + 32
  {
    if i < 32 then 0 else 1 + WordOf(i - 32)
  }

  /** Bit i of the whole map. */
  predicate Bit(ws: seq<Word>, i: nat)
    requires i < 32 * |ws|
  {
    ws[WordOf(i)][i - 32 * WordOf(i)]
  }

  /** The first clear bit of w at or above `from`, or 32. */
  function NextClear(w: Word, from: nat): (r: nat)
    requires from <= 32
    ensures from <= r <= 32
    ensures r < 32 ==> !w[r]
    ensures forall j :: from <= j < r ==> w[j]
    decreases 32 - from
  {
    if from == 32 || !w[from] then from else NextClear(w, from + 1)
  }

  ghost predicate AllClear(ws: seq<Word>, lo: nat, hi: nat)
    requires hi <= 32 * |ws|
  {
    forall k: nat :: lo <= k < hi ==> !Bit(ws, k)
  }

  /** Bits r .. r+cnt-1 exist and are all clear. */
  ghost predicate ClearRun(ws: seq<Word>, r: nat, cnt: nat) {
    r + cnt <= 32 * |ws| && AllClear(ws, r, r + cnt)
  }

  /** Whether the scan enters word w with a partial run carried over from word w-1. */
  ghost predicate CarryIn(ws: seq<Word>, w: nat)
    requires w <= |ws|
  {
    w > 0 && !ws[w - 1][31] && !(CarryIn(ws, w - 1) && NextClear(ws[w - 1], 0) == 31)
  }

  /** The candidates that lines 80-83 pass over: a carried run just failed, and r is the
      first clear bit of the word in which it failed. */
  ghost predicate Skipped(ws: seq<Word>, r: nat)
    requires r < 32 * |ws|
  {
    var w := WordOf(r);
    CarryIn(ws, w) && r > 32 * w && 32 * w + NextClear(ws[w], 0) == r
  }

  ghost predicate Candidate(ws: seq<Word>, r: nat, cnt: nat)
    requires cnt >= 1
  {
    ClearRun(ws, r, cnt) && !Skipped(ws, r)
  }

  /** r is what the search answers: the lowest candidate, or maxBits when there is none. */
  ghost predicate IsAnswer(ws: seq<Word>, cnt: nat, maxBits: nat, r: nat)
    requires cnt >= 1
  {
    if Candidate(ws, r, cnt) then forall p: nat :: p < r ==> !Candidate(ws, p, cnt)
    else r == maxBits && forall p: nat :: !Candidate(ws, p, cnt)
  }

  /** The unused high bits of a partial last word are clear. */
  ghost predicate PaddingClear(ws: seq<Word>, maxBits: nat) {
    && |ws| == (maxBits + 31) / 32
    && forall i: nat :: maxBits <= i < 32 * |ws| ==> !Bit(ws, i)
  }

  lemma NextClearIs(w: Word, from: nat, r: nat)
    requires from <= r <= 32
    requires forall j :: from <= j < r ==> w[j]
    requires r < 32 ==> !w[r]
    ensures r == NextClear(w, from)
  {
    assert !(r < NextClear(w, from));
  }

  /** `!((val >> at) & BIT_MASK(n))` tests bits at .. at+n-1. */
  lemma MaskTest(val: Word, at: nat, n: nat)
    requires 1 <= n && at + n <= 32
    ensures And(Shr(val, at), BitMask(n)) == Zero() <==> forall k :: at <= k < at + n ==> !val[k]
  {
    var t := And(Shr(val, at), BitMask(n));
    forall k | at <= k < at + n
      ensures t[k - at] == val[k]
    {}
    if forall k :: at <= k < at + n ==> !val[k] {
      forall i: nat | i < 32
        ensures !t[i]
      {
        if i < n { assert t[i] == val[i + at]; }
      }
      assert t == Zero();
    }
  }

  // ----- ctz, count_trailing_ones, ffz

  method Ctz(v: Word, from: nat, maxBits: nat) returns (cnt: nat)
    requires from < 32 && maxBits < U32
    ensures cnt <= (maxBits - from) % U32
    ensures forall k: nat :: from <= k < from + cnt && k < 32 ==> !v[k]
    ensures cnt < (maxBits - from) % U32 ==> from + cnt < 32 && v[from + cnt]
  {
    cnt := 0;
    var val := Shr(v, from);
    var limit := (maxBits - from) % U32;
    var i := 0;
    while i < limit
      invariant cnt == i <= limit
      invariant val == Shr(v, from + i)
      invariant forall k: nat :: from <= k < from + i && k < 32 ==> !v[k]
    {
      MaskTest(val, 0, 1);
      assert Shr(val, 0) == val;
      assert from + i < 32 ==> val[0] == v[from + i];
      if And(val, BitMask(1)) == Zero() {
        cnt := cnt + 1;
        val := Shr(val, 1);
      } else {
        break;
      }
      i := i + 1;
    }
  }

  method Ffz(val: Word, from: nat, maxBits: nat) returns (r: nat)
    requires maxBits < U32
    ensures from >= 32 || maxBits > 32 ==> r == 32
    ensures from < 32 && maxBits <= 32 && val == Zero() ==> r == 0
    ensures from < 32 && maxBits <= 32 && val == AllOnes() ==> r == 32
    ensures from < 32 && maxBits <= 32 && val != Zero() && val != AllOnes() ==>
              r == if from <= maxBits < NextClear(val, from) then maxBits else NextClear(val, from)
  {
    if from >= 32 { return 32; }
    if maxBits > 32 { return 32; }
    assert Zero()[0] != AllOnes()[0];
    if val == Zero() { return 0; }
    if val == AllOnes() { return 32; }
    var ones := Ctz(Not(Shr(val, from)), 0, (maxBits - from) % U32);
    OnesRun(val, from, (maxBits - from) % U32, ones);
    r := ones + from;
  }

  /** Counting the zeros of ~(val >> from) up to a limit finds val's next clear bit, unless the
      limit comes first. */
  lemma OnesRun(val: Word, from: nat, limit: nat, ones: nat)
    requires from < 32 && ones <= limit && (from == 0 ==> limit <= 32)
    requires forall k: nat :: k < ones && k < 32 ==> !Not(Shr(val, from))[k]
    requires ones < limit ==> ones < 32 && Not(Shr(val, from))[ones]
    ensures from + ones == if from + limit < NextClear(val, from) then from + limit else NextClear(val, from)
  {
    var inv := Not(Shr(val, from));
    assert from > 0 ==> inv[32 - from];
    assert forall k: nat :: k < 32 - from ==> inv[k] == !val[from + k];
    var r := from + ones;
    assert r <= 32;
    forall j | from <= j < r
      ensures val[j]
    {
      assert inv[j - from] == !val[j];
    }
    if ones < limit { NextClearIs(val, from, r); }
  }

  // ----- find_zero_bits

  ghost predicate NoneBelow(ws: seq<Word>, cnt: nat, bound: nat)
    requires cnt >= 1
  {
    forall p: nat :: p < bound ==> !Candidate(ws, p, cnt)
  }

  /** What the scan knows at the head of word w: a run of clear bits from `start` reaches the
      word (it is empty exactly when nothing is carried in), and no start below is a candidate. */
  ghost predicate ScanState(ws: seq<Word>, cnt: nat, w: nat, start: nat)
    requires cnt >= 1 && w <= |ws|
  {
    && start <= 32 * w < start + cnt
    && (start < 32 * w <==> CarryIn(ws, w))
    && (start < 32 * w ==> !Skipped(ws, start))
    && AllClear(ws, start, 32 * w)
    && NoneBelow(ws, cnt, start)
  }

  /** Inside word w, with nothing carried any more: bits below `ret` are dealt with. */
  ghost predicate InWord(ws: seq<Word>, cnt: nat, w: nat, ret: nat)
    requires cnt >= 1 && w < |ws|
  {
    && ret <= 32 && ws[w] != Zero()
    && (CarryIn(ws, w) ==> NextClear(ws[w], 0) < ret)
    && (ret == 32 ==> ws[w][31] || Skipped(ws, 32 * w + 31))
    && NoneBelow(ws, cnt, 32 * w + ret)
  }

  /** Before looking for a clear bit of word w at or above `ret`. */
  ghost predicate WordState(ws: seq<Word>, cnt: nat, w: nat, start: nat, ret: nat)
    requires cnt >= 1 && w < |ws|
  {
    if ret == 0 then ScanState(ws, cnt, w, start) else start == 32 * w && InWord(ws, cnt, w, ret)
  }

  /** A start whose run meets a set bit is no candidate. */
  lemma Blocked(ws: seq<Word>, cnt: nat, p: nat, q: nat)
    requires cnt >= 1 && p <= q < p + cnt && q < 32 * |ws| && Bit(ws, q)
    ensures !Candidate(ws, p, cnt)
  {}

  /** Starts between `from` and the next clear bit are set bits. */
  lemma NothingBefore(ws: seq<Word>, cnt: nat, w: nat, from: nat, to: nat)
    requires cnt >= 1 && w < |ws| && from <= to <= 32
    requires forall j :: from <= j < to ==> ws[w][j]
    requires NoneBelow(ws, cnt, 32 * w + from)
    ensures NoneBelow(ws, cnt, 32 * w + to)
  {
    forall p: nat | 32 * w + from <= p < 32 * w + to
      ensures !Candidate(ws, p, cnt)
    {
      assert WordOf(p) == w;
      Blocked(ws, cnt, p, p);
    }
  }

  /** A carried run that meets a set bit at q rules out every start up to the head of the word,
      and the head itself. */
  lemma CarriedRunFails(ws: seq<Word>, cnt: nat, w: nat, start: nat, q: nat)
    requires cnt >= 1 && w < |ws| && ScanState(ws, cnt, w, start)
    requires 32 * w <= q < start + cnt && q < 32 * |ws| && Bit(ws, q)
    ensures NoneBelow(ws, cnt, 32 * w + 1)
  {
    forall p: nat | p <= 32 * w
      ensures !Candidate(ws, p, cnt)
    {
      if p >= start { Blocked(ws, cnt, p, q); }
    }
  }

  /** With clear padding the bit limit of the last word changes nothing. */
  lemma FfzIsNextClear(ws: seq<Word>, maxBits: nat, w: nat, from: nat)
    requires PaddingClear(ws, maxBits) && w < |ws| && from <= 32
    ensures var bitCnt := if maxBits - 32 * w >= 32 then 32 else maxBits - 32 * w;
            from <= bitCnt ==> NextClear(ws[w], from) <= bitCnt
  {
    var bitCnt := if maxBits - 32 * w >= 32 then 32 else maxBits - 32 * w;
    if from <= bitCnt < 32 {
      assert WordOf(32 * w + bitCnt) == w;
      assert !Bit(ws, 32 * w + bitCnt);
    }
  }

  /** When no clear bit is left, bit 31 is set or was passed over: nothing is carried out. */
  lemma NotCarriedOut(ws: seq<Word>, cnt: nat, w: nat, start: nat, from: nat)
    requires cnt >= 1 && w < |ws| && from <= 32 && WordState(ws, cnt, w, start, from)
    requires NextClear(ws[w], from) == 32
    ensures !CarryIn(ws, w + 1)
  {
    if !ws[w][31] {
      assert from == 32 && WordOf(32 * w + 31) == w;
    }
  }

  /** No clear bit is left: the next word starts with nothing carried. */
  lemma WordExhausted(ws: seq<Word>, cnt: nat, w: nat, start: nat, from: nat)
    requires cnt >= 1 && w < |ws| && from <= 32 && WordState(ws, cnt, w, start, from)
    requires NextClear(ws[w], from) == 32
    ensures ScanState(ws, cnt, w + 1, 32 * (w + 1))
  {
    NotCarriedOut(ws, cnt, w, start, from);
    if from == 0 {
      assert WordOf(32 * w) == w && Bit(ws, 32 * w);
      CarriedRunFails(ws, cnt, w, start, 32 * w);
      NothingBefore(ws, cnt, w, 1, 32);
    } else {
      NothingBefore(ws, cnt, w, from, 32);
    }
  }

  /** Lines 80-83: a carried run meets a set bit 0, and the first clear bit is passed over. */
  lemma CarryDropped(ws: seq<Word>, cnt: nat, w: nat, start: nat)
    requires cnt >= 1 && w < |ws| && start < 32 * w && ScanState(ws, cnt, w, start)
    requires 0 < NextClear(ws[w], 0) < 32
    ensures InWord(ws, cnt, w, NextClear(ws[w], 0) + 1)
  {
    var ret := NextClear(ws[w], 0);
    assert WordOf(32 * w) == w && ws[w][0] && Bit(ws, 32 * w);
    CarriedRunFails(ws, cnt, w, start, 32 * w);
    NothingBefore(ws, cnt, w, 1, ret);
    assert WordOf(32 * w + ret) == w;
    assert Skipped(ws, 32 * w + ret);
    assert !Candidate(ws, 32 * w + ret, cnt);
  }

  /** Where the run under test starts: at the carried start, or at the clear bit `ret`. */
  ghost function RunStart(w: nat, start: nat, ret: nat): nat
    requires start <= 32 * w
  {
    if start < 32 * w then start else 32 * w + ret
  }

  lemma NotPassedOver(ws: seq<Word>, w: nat, b: nat)
    requires w < |ws| && b < 32 && (!CarryIn(ws, w) || NextClear(ws[w], 0) != b)
    ensures !Skipped(ws, 32 * w + b)
  {
    assert WordOf(32 * w + b) == w;
  }

  /** That start was not passed over, and no candidate lies below it. */
  lemma StartStands(ws: seq<Word>, cnt: nat, w: nat, start: nat, from: nat)
    requires cnt >= 1 && w < |ws| && from <= 32 && WordState(ws, cnt, w, start, from)
    requires NextClear(ws[w], from) < 32 && !(start < 32 * w && NextClear(ws[w], from) > 0)
    ensures !Skipped(ws, RunStart(w, start, NextClear(ws[w], from)))
    ensures NoneBelow(ws, cnt, RunStart(w, start, NextClear(ws[w], from)))
  {
    if start == 32 * w {
      var ret := NextClear(ws[w], from);
      assert !CarryIn(ws, w) || NextClear(ws[w], 0) < from;
      NotPassedOver(ws, w, ret);
      NothingBefore(ws, cnt, w, from, ret);
    }
  }

  /** Bits carried in, followed by the bits `ret` .. hi-1 of word w, are one clear stretch. */
  lemma ClearAcross(ws: seq<Word>, w: nat, start: nat, ret: nat, hi: nat)
    requires w < |ws| && ret <= hi <= 32 && start <= 32 * w && (start == 32 * w || ret == 0)
    requires AllClear(ws, start, 32 * w)
    requires forall k :: ret <= k < hi ==> !ws[w][k]
    ensures AllClear(ws, RunStart(w, start, ret), 32 * w + hi)
  {
    forall k: nat | RunStart(w, start, ret) <= k < 32 * w + hi
      ensures !Bit(ws, k)
    {
      if k >= 32 * w { assert WordOf(k) == w; }
    }
  }

  /** A clear bit 31 that was not passed over is carried out of the word. */
  lemma CarriedOut(ws: seq<Word>, cnt: nat, w: nat, start: nat, from: nat)
    requires cnt >= 1 && w < |ws| && from <= 32 && WordState(ws, cnt, w, start, from)
    requires NextClear(ws[w], from) < 32 && !(start < 32 * w && NextClear(ws[w], from) > 0)
    requires !ws[w][31]
    ensures CarryIn(ws, w + 1)
  {
    if CarryIn(ws, w) && NextClear(ws[w], 0) == 31 {
      assert false;
    }
  }

  /** The run reaches the end of the word without being long enough. */
  lemma RunCarried(ws: seq<Word>, cnt: nat, w: nat, start: nat, from: nat)
    requires cnt >= 1 && w < |ws| && from <= 32 && WordState(ws, cnt, w, start, from)
    requires NextClear(ws[w], from) < 32 && !(start < 32 * w && NextClear(ws[w], from) > 0)
    requires RunStart(w, start, NextClear(ws[w], from)) + cnt > 32 * w + 32
    requires forall k :: NextClear(ws[w], from) <= k < 32 ==> !ws[w][k]
    ensures ScanState(ws, cnt, w + 1, RunStart(w, start, NextClear(ws[w], from)))
  {
    CarriedOut(ws, cnt, w, start, from);
    StartStands(ws, cnt, w, start, from);
    ClearAcross(ws, w, start, NextClear(ws[w], from), 32);
  }

  /** The run under test meets the set bit q of this word. */
  lemma RunBroken(ws: seq<Word>, cnt: nat, w: nat, start: nat, from: nat, q: nat)
    requires cnt >= 1 && w < |ws| && from <= 32 && WordState(ws, cnt, w, start, from)
    requires NextClear(ws[w], from) < 32 && !(start < 32 * w && NextClear(ws[w], from) > 0)
    requires NextClear(ws[w], from) < q < 32 && ws[w][q]
    requires 32 * w + q < RunStart(w, start, NextClear(ws[w], from)) + cnt
    ensures InWord(ws, cnt, w, NextClear(ws[w], from) + 1)
  {
    var ret := NextClear(ws[w], from);
    assert WordOf(32 * w + q) == w && Bit(ws, 32 * w + q);
    if start < 32 * w {
      CarriedRunFails(ws, cnt, w, start, 32 * w + q);
    } else {
      NothingBefore(ws, cnt, w, from, ret);
      Blocked(ws, cnt, 32 * w + ret, 32 * w + q);
    }
  }

  /** The run under test is long enough: it is the answer. */
  lemma RunFound(ws: seq<Word>, cnt: nat, w: nat, start: nat, from: nat)
    requires cnt >= 1 && w < |ws| && from <= 32 && WordState(ws, cnt, w, start, from)
    requires NextClear(ws[w], from) < 32 && !(start < 32 * w && NextClear(ws[w], from) > 0)
    requires RunStart(w, start, NextClear(ws[w], from)) + cnt <= 32 * w + 32
    requires forall k :: NextClear(ws[w], from) <= k < RunStart(w, start, NextClear(ws[w], from)) + cnt - 32 * w ==> !ws[w][k]
    ensures Candidate(ws, RunStart(w, start, NextClear(ws[w], from)), cnt)
    ensures NoneBelow(ws, cnt, RunStart(w, start, NextClear(ws[w], from)))
  {
    var ret := NextClear(ws[w], from);
    StartStands(ws, cnt, w, start, from);
    ClearAcross(ws, w, start, ret, RunStart(w, start, ret) + cnt - 32 * w);
  }

  lemma MapExhausted(ws: seq<Word>, cnt: nat, start: nat, maxBits: nat)
    requires cnt >= 1 && ScanState(ws, cnt, |ws|, start)
    requires PaddingClear(ws, maxBits)
    ensures IsAnswer(ws, cnt, maxBits, maxBits)
  {
    forall p: nat
      ensures !Candidate(ws, p, cnt)
    {
      if p >= start { assert !ClearRun(ws, p, cnt); }
    }
  }

  /** With clear padding, ffz finds the next clear bit whatever its bit limit. */
  method FfzInWord(ghost ws: seq<Word>, ghost w: nat, ghost maxBits: nat, val: Word, from: nat, bitCnt: nat)
    returns (ret: nat)
    requires PaddingClear(ws, maxBits) && w < |ws| && val == ws[w] && from <= 32
    requires bitCnt == if maxBits - 32 * w >= 32 then 32 else maxBits - 32 * w
    requires val == Zero() ==> from == 0
    ensures ret == NextClear(val, from)
  {
    ret := Ffz(val, from, bitCnt);
    FfzIsNextClear(ws, maxBits, w, from);
    assert val == Zero() ==> !val[0];
    assert val == AllOnes() ==> forall i :: 0 <= i < 32 ==> val[i];
  }

  datatype Outcome = Hit | Carry | Miss

  /** Lines 86-99: does the run that starts at bit `ret`, or was carried in, go on far enough? */
  method TestRun(ghost ws: seq<Word>, ghost w: nat, ghost start: nat, ghost from: nat,
                 val: Word, cnt: nat, ret: nat, contig: nat)
    returns (o: Outcome)
    requires cnt >= 1 && w < |ws| && val == ws[w] && from <= 32 && WordState(ws, cnt, w, start, from)
    requires start + contig == 32 * w
    requires ret == NextClear(val, from) < 32 && !(contig > 0 && ret > 0)
    ensures 32 * w + ret - contig == RunStart(w, start, ret)
    ensures o.Hit? ==> Candidate(ws, RunStart(w, start, ret), cnt)
    ensures o.Hit? ==> NoneBelow(ws, cnt, RunStart(w, start, ret))
    ensures o.Carry? ==> ScanState(ws, cnt, w + 1, RunStart(w, start, ret))
    ensures o.Miss? ==> InWord(ws, cnt, w, ret + 1)
  {
    assert contig < cnt;
    if ret + cnt - contig > 32 {
      MaskTest(val, ret, 32 - ret);
      if And(Shr(val, ret), BitMask(32 - ret)) == Zero() {
        RunCarried(ws, cnt, w, start, from);
        return Carry;
      }
      ghost var q :| ret <= q < 32 && val[q];
      RunBroken(ws, cnt, w, start, from, q);
    } else {
      MaskTest(val, ret, cnt - contig);
      if And(Shr(val, ret), BitMask(cnt - contig)) == Zero() {
        RunFound(ws, cnt, w, start, from);
        return Hit;
      }
      ghost var q :| ret <= q < ret + cnt - contig && val[q];
      RunBroken(ws, cnt, w, start, from, q);
    }
    return Miss;
  }

  /** The inner loop, lines 69-103: one word of the scan.  `start` is where the run that ends
      at the head of the next word begins, or where the run that was found begins. */
  method ScanWord(ghost ws: seq<Word>, ghost w: nat, ghost maxBits: nat, ghost begun: nat,
                  val: Word, cnt: nat, bitCnt: nat, carried: nat)
    returns (found: bool, ret: nat, contig: nat, ghost start: nat)
    requires cnt >= 1 && PaddingClear(ws, maxBits) && w < |ws| && val == ws[w]
    requires bitCnt == if maxBits - 32 * w >= 32 then 32 else maxBits - 32 * w
    requires begun + carried == 32 * w && ScanState(ws, cnt, w, begun)
    ensures !found ==> start + contig == 32 * w + 32 && ScanState(ws, cnt, w + 1, start)
    ensures found ==> start == 32 * w + ret - contig
    ensures found ==> Candidate(ws, start, cnt) && NoneBelow(ws, cnt, start)
  {
    ret, contig, start := 0, carried, begun;
    while true
      invariant ret <= 32 && start + contig == 32 * w
      invariant WordState(ws, cnt, w, start, ret)
      decreases 33 - ret
    {
      ghost var from := ret;
      ret := FfzInWord(ws, w, maxBits, val, ret, bitCnt);
      if ret >= 32 {
        WordExhausted(ws, cnt, w, start, from);
        return false, ret, 0, 32 * (w + 1);
      }
      if contig > 0 && ret > 0 {
        CarryDropped(ws, cnt, w, start);
        contig := 0;
        ret := ret + 1;
      } else {
        var o := TestRun(ws, w, start, from, val, cnt, ret, contig);
        if o.Hit? {
          return true, ret, contig, RunStart(w, start, ret);
        }
        if o.Carry? {
          return false, ret, contig + 32 - ret, RunStart(w, start, ret);
        }
        contig := 0;
        ret := ret + 1;
      }
      start := 32 * w;
    }
  }

  method FindZeroBits(bmap: array<Word>, cnt: nat, maxBits: nat) returns (r: nat)
    requires 1 <= cnt <= maxBits <= U32 - 32
    requires PaddingClear(bmap[..], maxBits)
    ensures IsAnswer(bmap[..], cnt, maxBits, r)
  {
    ghost var ws := bmap[..];
    var remBits, contig, w := maxBits, 0, 0;
    ghost var start := 0;
    while true
      invariant w < |ws| == bmap.Length && ws == bmap[..]
      invariant remBits == maxBits - 32 * w > 0
      invariant contig >= 0 && start >= 0 && start + contig == 32 * w && ScanState(ws, cnt, w, start)
      decreases |ws| - w
    {
      var bitCnt := if remBits >= 32 then 32 else remBits;
      var found, ret;
      found, ret, contig, start := ScanWord(ws, w, maxBits, start, bmap[w], cnt, bitCnt, contig);
      if found {
        return maxBits - remBits + ret - contig;
      }
      remBits := remBits - bitCnt;
      w := w + 1;
      if remBits == 0 { break; }
    }
    MapExhausted(ws, cnt, start, maxBits);
    return maxBits;
  }

  // ----- what the answer promises

  /** No set bit ends just below the word, so nothing is carried into it. */
  lemma {:induction false} NoCarryAfterSetBits(ws: seq<Word>, p: nat)
    requires p <= 32 * |ws| && forall k: nat :: k < p ==> Bit(ws, k)
    ensures !CarryIn(ws, WordOf(p))
  {
    if WordOf(p) > 0 {
      var k := 32 * WordOf(p) - 1;
      assert WordOf(k) == WordOf(p) - 1 && Bit(ws, k);
    }
  }

  /** For one block the answer is the lowest clear bit, or maxBits when every block is taken. */
  lemma SingleBlockIsLowest(ws: seq<Word>, maxBits: nat, r: nat)
    requires PaddingClear(ws, maxBits) && IsAnswer(ws, 1, maxBits, r)
    ensures r <= maxBits
    ensures forall k: nat :: k < r ==> Bit(ws, k)
    ensures r < maxBits ==> !Bit(ws, r)
  {
    LowestClearIsCandidate(ws, maxBits, r, 0);
  }

  lemma {:induction false} LowestClearIsCandidate(ws: seq<Word>, maxBits: nat, r: nat, p: nat)
    requires PaddingClear(ws, maxBits) && IsAnswer(ws, 1, maxBits, r)
    requires p <= r && p <= maxBits && forall k: nat :: k < p ==> Bit(ws, k)
    ensures r <= maxBits && forall k: nat :: k < r ==> Bit(ws, k)
    decreases maxBits - p
  {
    if p < 32 * |ws| && !Bit(ws, p) {
      NoCarryAfterSetBits(ws, p);
      assert ClearRun(ws, p, 1);
      assert Candidate(ws, p, 1);
    } else if p < maxBits {
      assert p != r;
      LowestClearIsCandidate(ws, maxBits, r, p + 1);
    }
  }

  /** The answer's run lies inside the map. */
  ghost predicate FitsMap(cnt: nat, maxBits: nat, r: nat) {
    r < maxBits ==> r + cnt <= maxBits
  }

  ghost function TailWord(lo: nat, w: nat): Word { seq(32, j => 32 * w + j < lo) }

  /** The map whose blocks lo .. maxBits-1 are free and whose other blocks are taken. */
  ghost function TailFree(maxBits: nat, lo: nat): (ws: seq<Word>)
    requires lo <= maxBits
    ensures |ws| == (maxBits + 31) / 32
    ensures forall i: nat :: i < 32 * |ws| ==> (Bit(ws, i) <==> i < lo)
  {
    seq((maxBits + 31) / 32, w requires w >= 0 => TailWord(lo, w))
  }

  lemma FitsWhenWordsFull(ws: seq<Word>, cnt: nat, maxBits: nat, r: nat)
    requires 1 <= cnt && PaddingClear(ws, maxBits) && IsAnswer(ws, cnt, maxBits, r)
    requires maxBits % 32 == 0 || cnt == 1
    ensures FitsMap(cnt, maxBits, r)
  {}

  /** The search can run past a partial last word, and does so for some map, unless the map
      fills its words or a single block is asked for. */
  lemma FitsEveryMapIff(cnt: nat, maxBits: nat)
    requires 1 <= cnt <= maxBits
    ensures (forall ws, r: nat :: PaddingClear(ws, maxBits) && IsAnswer(ws, cnt, maxBits, r) ==> FitsMap(cnt, maxBits, r))
            <==> (maxBits % 32 == 0 || cnt == 1)
  {
    if maxBits % 32 == 0 || cnt == 1 {
      forall ws, r: nat | PaddingClear(ws, maxBits) && IsAnswer(ws, cnt, maxBits, r)
        ensures FitsMap(cnt, maxBits, r)
      {
        FitsWhenWordsFull(ws, cnt, maxBits, r);
      }
    } else {
      var lo := maxBits - cnt + 1;
      var ws := TailFree(maxBits, lo);
      assert PaddingClear(ws, maxBits);
      assert ClearRun(ws, lo, cnt);
      NoCarryAfterSetBits(ws, lo);
      assert Candidate(ws, lo, cnt);
      forall p: nat | p < lo
        ensures !Candidate(ws, p, cnt)
      {
        Blocked(ws, cnt, p, p);
      }
      assert IsAnswer(ws, cnt, maxBits, lo);
      assert lo < maxBits < lo + cnt;
    }
  }

  /** Blocks 1 .. k are taken and no other. */
  ghost predicate TakenFrom1(ws: seq<Word>, k: nat) {
    forall i: nat :: i < 32 * |ws| ==> (Bit(ws, i) <==> 1 <= i <= k)
  }

  lemma TailCandidate(ws: seq<Word>, n: nat, cnt: nat)
    requires PaddingClear(ws, n) && n % 32 != 0 && 1 < cnt < n && TakenFrom1(ws, n - cnt)
    ensures Candidate(ws, n - cnt + 1, cnt)
  {
    var lo := n - cnt + 1;
    var w := WordOf(lo);
    assert ClearRun(ws, lo, cnt);
    if w > 0 {
      var k := 32 * w - 1;
      assert WordOf(k) == w - 1 && Bit(ws, k);
    }
  }

  /** With block 0 free, the next n - cnt taken and the rest free, as many blocks are free as are
      asked for, and the answer still runs one past a partial last word. */
  lemma TailAnswer(ws: seq<Word>, n: nat, cnt: nat)
    requires PaddingClear(ws, n) && n % 32 != 0 && 1 < cnt < n && TakenFrom1(ws, n - cnt)
    ensures IsAnswer(ws, cnt, n, n - cnt + 1)
  {
    TailCandidate(ws, n, cnt);
    forall p: nat | p < n - cnt + 1
      ensures !Candidate(ws, p, cnt)
    {
      Blocked(ws, cnt, p, if p == 0 then 1 else p);
    }
  }

  /** Two neighbouring clear bits are never both passed over. */
  lemma SkippedOnce(ws: seq<Word>, p: nat)
    requires p + 1 < 32 * |ws|
    ensures !(Skipped(ws, p) && Skipped(ws, p + 1))
  {
    assert WordOf(p + 1) == WordOf(p) || p + 1 == 32 * WordOf(p + 1);
  }

  /** What the search misses is at most one block long: a run with one block to spare is
      always found, at its first or its second block at the latest. */
  lemma LongerRunIsFound(ws: seq<Word>, cnt: nat, maxBits: nat, r: nat, p: nat)
    requires cnt >= 1 && IsAnswer(ws, cnt, maxBits, r) && ClearRun(ws, p, cnt + 1)
    ensures Candidate(ws, r, cnt) && r <= p + 1
  {
    assert ClearRun(ws, p, cnt) && ClearRun(ws, p + 1, cnt);
    SkippedOnce(ws, p);
    assert Candidate(ws, p, cnt) || Candidate(ws, p + 1, cnt);
  }

  /** A pair of free blocks that the search does miss: bit 31 carries in, bit 32 is taken,
      bits 33 and 34 are free. */
  lemma PairMissed()
    ensures exists ws: seq<Word> ::
              PaddingClear(ws, 64) && ClearRun(ws, 33, 2) && IsAnswer(ws, 2, 64, 64)
  {
    var a: Word := seq(32, i => i != 31);
    var b: Word := seq(32, i => i != 1 && i != 2);
    var ws := [a, b];
    assert forall k: nat :: k < 64 ==> (Bit(ws, k) <==> k != 31 && k != 33 && k != 34);
    NextClearIs(b, 0, 1);
    assert CarryIn(ws, 1);
    assert Skipped(ws, 33);
    forall p: nat
      ensures !Candidate(ws, p, 2)
    {
      if p < 63 && p != 33 { assert Bit(ws, p) || Bit(ws, p + 1); }
    }
    assert PaddingClear(ws, 64) && ClearRun(ws, 33, 2) && IsAnswer(ws, 2, 64, 64);
  }

  /** Free are block 31 and the cnt blocks from 33 on; every other block below n is taken. */
  ghost predicate CarryTrap(ws: seq<Word>, n: nat, cnt: nat) {
    forall i: nat :: i < 32 * |ws| ==> (Bit(ws, i) <==> i < n && i != 31 && !(33 <= i < 33 + cnt))
  }

  /** Then the run at 33 is passed over, and no other run of cnt > 1 blocks starts below n - cnt. */
  lemma TrapMisses(ws: seq<Word>, n: nat, cnt: nat, p: nat)
    requires PaddingClear(ws, n) && cnt > 1 && n >= cnt + 33 && CarryTrap(ws, n, cnt)
    requires p <= 33 || p + cnt <= n
    ensures !Candidate(ws, p, cnt)
  {
    if p == 33 {
      assert Bit(ws, 32) && !Bit(ws, 33) && !Bit(ws, 31);
      assert WordOf(31) == 0 && WordOf(32) == 1 && WordOf(33) == 1;
      NextClearIs(ws[1], 0, 1);
      assert CarryIn(ws, 1);
    } else if p == 31 {
      Blocked(ws, cnt, p, 32);
    } else if p < 33 || p >= 33 + cnt {
      Blocked(ws, cnt, p, p);
    } else {
      Blocked(ws, cnt, p, 33 + cnt);
    }
  }

  ghost function TrapWord(n: nat, cnt: nat, w: nat): Word {
    seq(32, j requires j >= 0 => 32 * w + j < n && 32 * w + j != 31 && !(33 <= 32 * w + j < 33 + cnt))
  }

  ghost function Trap(n: nat, cnt: nat): (ws: seq<Word>)
    ensures PaddingClear(ws, n) && CarryTrap(ws, n, cnt)
  {
    seq((n + 31) / 32, w requires w >= 0 => TrapWord(n, cnt, w))
  }

  /** A run that is passed over starts behind block 32. */
  lemma PassedOverBehind32(ws: seq<Word>, p: nat, cnt: nat)
    requires cnt >= 1 && ClearRun(ws, p, cnt) && !Candidate(ws, p, cnt)
    ensures p >= 33
  {}

  /** In every map of n blocks the answer is no later than any run of cnt free blocks, if and only if
      one block is asked for or the map leaves no room for such a run behind block 32. */
  lemma FoundInEveryMapIff(cnt: nat, n: nat)
    requires 1 <= cnt <= n
    ensures (forall ws, r: nat, p: nat ::
               PaddingClear(ws, n) && IsAnswer(ws, cnt, n, r) && ClearRun(ws, p, cnt) && p + cnt <= n ==> r <= p)
       <==> (cnt == 1 || n <= cnt + 32)
  {
    if cnt == 1 || n <= cnt + 32 {
      forall ws, r: nat, p: nat | PaddingClear(ws, n) && IsAnswer(ws, cnt, n, r) && ClearRun(ws, p, cnt) && p + cnt <= n
        ensures r <= p
      {
        if cnt == 1 {
          assert !Bit(ws, p);
          SingleBlockIsLowest(ws, n, r);
        } else if !Candidate(ws, p, cnt) {
          PassedOverBehind32(ws, p, cnt);
        }
      }
    } else {
      var ws := Trap(n, cnt);
      var r := Search(ws, cnt, n, 0);
      AnswerIsSearch(ws, cnt, n, r);
      if r <= 33 { TrapMisses(ws, n, cnt, r); }
      assert ClearRun(ws, 33, cnt) && 33 + cnt <= n;
    }
  }

  /** A refusal in spite of cnt free neighbours inside the map takes more than one block asked for
      and room for a run behind block 32 that is followed by a taken block or by the end of the
      last word. */
  predicate MayMiss(n: nat, cnt: nat) { cnt > 1 && n >= cnt + if n % 32 == 0 then 33 else 34 }

  lemma RefusedOnlyIf(ws: seq<Word>, cnt: nat, n: nat, r: nat, p: nat)
    requires cnt >= 1 && PaddingClear(ws, n) && IsAnswer(ws, cnt, n, r) && r >= n
    requires ClearRun(ws, p, cnt) && p + cnt <= n
    ensures MayMiss(n, cnt)
  {
    PassedOverBehind32(ws, p, cnt);
    if cnt == 1 {
      assert !Bit(ws, p);
      SingleBlockIsLowest(ws, n, r);
    } else if ClearRun(ws, p, cnt + 1) {
      LongerRunIsFound(ws, cnt, n, r, p);
    }
  }

  lemma TrapRefuses(ws: seq<Word>, cnt: nat, n: nat)
    requires PaddingClear(ws, n) && MayMiss(n, cnt) && CarryTrap(ws, n, cnt)
    ensures Search(ws, cnt, n, 0) >= n
  {
    var r := Search(ws, cnt, n, 0);
    AnswerIsSearch(ws, cnt, n, r);
    if r < n {
      if r > 33 && r + cnt > n { Blocked(ws, cnt, r, if r >= 33 + cnt then r else 33 + cnt); }
      TrapMisses(ws, n, cnt, r);
    }
  }

  // ----- update_bit_map

  /** Bits start .. start+cnt-1 become v, every other bit keeps its value. */
  ghost predicate Updated(before: seq<Word>, after: seq<Word>, start: nat, cnt: nat, v: bool) {
    && |after| == |before|
    && forall i: nat :: i < 32 * |before| ==> Bit(after, i) == if start <= i < start + cnt then v else Bit(before, i)
  }

  /** One turn of the loop: bits s .. s+bits-1 of word m are written. */
  lemma WordUpdated(before: seq<Word>, cur: seq<Word>, start: nat, cnt: nat, m: nat, s: nat, bits: nat, v: bool, word: Word)
    requires Updated(before, cur, start, cnt, v) && m < |cur|
    requires 1 <= bits && s + bits <= 32 && start + cnt == 32 * m + s
    requires word == if v then Or(cur[m], Shl(BitMask(bits), s)) else And(cur[m], Not(Shl(BitMask(bits), s)))
    ensures Updated(before, cur[m := word], start, cnt + bits, v)
  {
    forall j | 0 <= j < 32
      ensures word[j] == if s <= j < s + bits then v else cur[m][j]
    {}
    forall i: nat | i < 32 * |before|
      ensures Bit(cur[m := word], i) == if start <= i < start + cnt + bits then v else Bit(before, i)
    {
      if WordOf(i) == m {
        assert Bit(cur, i) == cur[m][i - 32 * m];
      } else {
        assert Bit(cur[m := word], i) == Bit(cur, i);
      }
    }
  }

  method UpdateBitMap(bmap: array<Word>, start: nat, cnt: nat, isSet: bool)
    requires start + cnt <= 32 * bmap.Length
    modifies bmap
    ensures Updated(old(bmap[..]), bmap[..], start, cnt, isSet)
  {
    var temp: nat, m: nat, s: nat := cnt, WordOf(start), start % 32;
    while temp > 0
      invariant temp <= cnt && s < 32
      invariant temp > 0 ==> start + (cnt - temp) == 32 * m + s
      invariant Updated(old(bmap[..]), bmap[..], start, cnt - temp, isSet)
    {
      var bits: nat := if temp + s > 32 then 32 - s else temp;
      ghost var cur := bmap[..];
      if isSet {
        bmap[m] := Or(bmap[m], Shl(BitMask(bits), s));
      } else {
        bmap[m] := And(bmap[m], Not(Shl(BitMask(bits), s)));
      }
      WordUpdated(old(bmap[..]), cur, start, cnt - temp, m, s, bits, isSet, bmap[m]);
      assert bmap[..] == cur[m := bmap[m]];
      s := 0;
      temp := temp - bits;
      if temp > 0 { m := m + 1; }
    }
  }

  method SetBitMap(bmap: array<Word>, start: nat, cnt: nat)
    requires start + cnt <= 32 * bmap.Length
    modifies bmap
    ensures Updated(old(bmap[..]), bmap[..], start, cnt, true)
  {
    UpdateBitMap(bmap, start, cnt, true);
  }

  method ClearBitMap(bmap: array<Word>, start: nat, cnt: nat)
    requires start + cnt <= 32 * bmap.Length
    modifies bmap
    ensures Updated(old(bmap[..]), bmap[..], start, cnt, false)
  {
    UpdateBitMap(bmap, start, cnt, false);
  }

  /** Two maps with the same bits are the same words. */
  lemma SameBits(a: seq<Word>, b: seq<Word>)
    requires |a| == |b| && forall i: nat :: i < 32 * |a| ==> Bit(a, i) == Bit(b, i)
    ensures a == b
  {
    forall w: nat | w < |a|
      ensures a[w] == b[w]
    {
      forall j: nat | j < 32
        ensures a[w][j] == b[w][j]
      {
        var i := 32 * w + j;
        assert WordOf(i) == w && Bit(a, i) == Bit(b, i);
      }
    }
  }

  /** Setting a clear range and clearing it again gives back the very same words. */
  lemma ClearUndoesSet(a: seq<Word>, b: seq<Word>, c: seq<Word>, start: nat, cnt: nat)
    requires ClearRun(a, start, cnt) && Updated(a, b, start, cnt, true) && Updated(b, c, start, cnt, false)
    ensures c == a
  {
    SameBits(a, c);
  }

  /** The words after update_bit_map, as a value. */
  ghost function SetRange(ws: seq<Word>, start: nat, cnt: nat, v: bool): (r: seq<Word>)
    ensures Updated(ws, r, start, cnt, v)
  {
    seq(|ws|, w requires 0 <= w < |ws| => SetInWord(ws[w], w, start, cnt, v))
  }

  ghost function SetInWord(word: Word, w: nat, start: nat, cnt: nat, v: bool): Word {
    seq(32, j requires 0 <= j < 32 => if start <= 32 * w + j < start + cnt then v else word[j])
  }

  lemma UpdatedIsSetRange(before: seq<Word>, after: seq<Word>, start: nat, cnt: nat, v: bool)
    requires Updated(before, after, start, cnt, v)
    ensures after == SetRange(before, start, cnt, v)
  {
    SameBits(after, SetRange(before, start, cnt, v));
  }

  /** The answer of the search, as a value. */
  ghost function Search(ws: seq<Word>, cnt: nat, maxBits: nat, from: nat): (r: nat)
    requires cnt >= 1
    ensures r != maxBits ==> Candidate(ws, r, cnt) && from <= r
    ensures Candidate(ws, r, cnt) ==> forall p: nat :: from <= p < r ==> !Candidate(ws, p, cnt)
    ensures !Candidate(ws, r, cnt) ==> forall p: nat :: from <= p ==> !Candidate(ws, p, cnt)
    decreases 32 * |ws| - from
  {
    if from >= 32 * |ws| then maxBits
    else if Candidate(ws, from, cnt) then from
    else Search(ws, cnt, maxBits, from + 1)
  }

  lemma AnswerIsSearch(ws: seq<Word>, cnt: nat, maxBits: nat, r: nat)
    requires cnt >= 1
    ensures IsAnswer(ws, cnt, maxBits, Search(ws, cnt, maxBits, 0))
    ensures IsAnswer(ws, cnt, maxBits, r) ==> r == Search(ws, cnt, maxBits, 0)
  {}

  // ----- how many blocks are taken

  ghost function SetBits(ws: seq<Word>): set<nat> { set i: nat | i < 32 * |ws| && Bit(ws, i) }

  ghost function Range(start: nat, cnt: nat): (r: set<nat>)
    ensures forall i: nat :: i in r <==> start <= i < start + cnt
    ensures |r| == cnt
  {
    if cnt == 0 then {} else Range(start, cnt - 1) + {start + cnt - 1}
  }

  lemma SetCountsUp(ws: seq<Word>, start: nat, cnt: nat)
    requires ClearRun(ws, start, cnt)
    ensures |SetBits(SetRange(ws, start, cnt, true))| == |SetBits(ws)| + cnt
  {
    assert SetBits(SetRange(ws, start, cnt, true)) == SetBits(ws) + Range(start, cnt);
    assert SetBits(ws) !! Range(start, cnt);
  }

  /** Clearing a range frees as many blocks as it names exactly when all of them were taken. */
  lemma ClearCountsDown(ws: seq<Word>, start: nat, cnt: nat)
    requires start + cnt <= 32 * |ws|
    ensures |SetBits(SetRange(ws, start, cnt, false))| == |SetBits(ws)| - cnt
            <==> Range(start, cnt) <= SetBits(ws)
  {
    var before, named := SetBits(ws), Range(start, cnt);
    var after := SetBits(SetRange(ws, start, cnt, false));
    assert after == before - named;
    var hit := before * named;
    assert before == after + hit;
    SubsetSize(hit, named);
  }

  lemma {:induction false} SubsetSize(a: set<nat>, b: set<nat>)
    requires a <= b
    ensures |a| <= |b| && (|a| == |b| <==> a == b)
  {
    if a != {} {
      var x :| x in a;
      SubsetSize(a - {x}, b - {x});
    }
  }
}
