/** One chunk of the user memory manager (umm/files/umm.c, umm.h): a piece of DMA memory cut
    into equal blocks that a packed bitmap hands out. */
module Umm {
  import opened BitOps
  import opened Lists

  // ----- block arithmetic

  lemma MulMono(a: nat, b: nat, m: nat)
    requires a <= b
    ensures a * m <= b * m
  {}

  lemma MulSum(a: int, b: int, m: int)
    ensures (a + b) * m == a * m + b * m
  {}

  /** The least number of b-byte blocks that hold n bytes. */
  function Blocks(n: nat, b: nat): (r: nat)
    requires b > 0
    ensures n > 0 ==> r > 0
  {
    if n == 0 then 0 else if n <= b then 1 else 1 + Blocks(n - b, b)
  }

  lemma {:induction false} BlocksBounds(n: nat, b: nat)
    requires b > 0
    ensures n <= Blocks(n, b) * b
    ensures n > 0 ==> (Blocks(n, b) - 1) * b < n
  {
    if n > b {
      BlocksBounds(n - b, b);
      MulSum(1, Blocks(n - b, b), b);
      MulSum(1, Blocks(n - b, b) - 1, b);
    }
  }

  /** SIZE_TO_BLOCKS computes it by one division. */
  lemma SizeToBlocks(n: nat, b: nat)
    requires b > 0
    ensures Blocks(n, b) == (n + b - 1) / b
  {
    var q := (n + b - 1) / b;
    assert n + b - 1 == q * b + (n + b - 1) % b;
    BlocksUnique(n, b, q);
  }

  lemma BlocksUnique(n: nat, b: nat, r: nat)
    requires b > 0 && n <= r * b && (r > 0 ==> (r - 1) * b < n)
    ensures Blocks(n, b) == r
  {
    var q := Blocks(n, b);
    BlocksBounds(n, b);
    if q < r { MulMono(q, r - 1, b); }
    if r < q { MulMono(r, q - 1, b); }
  }

  /** get_blk_num rounds up, which is harmless at the start of a block. */
  lemma BlocksOfMultiple(k: nat, b: nat)
    requires b > 0
    ensures Blocks(k * b, b) == k
  {
    BlocksUnique(k * b, b, k);
  }

  /** xib_umem_alloc_chunk, lines 418-420: the complement of the page mask is a 32-bit value,
      so rounding an unaligned size also drops its high half. */
  function PageRound(total: nat, page: nat): nat
    requires page > 0
  {
    if total % page == 0 then total else (total % U32) / page * page + page
  }

  /** Rounding gives whole pages. */
  lemma PageRoundWhole(total: nat, page: nat)
    requires page > 0
    ensures PageRound(total, page) % page == 0
  {
    if total % page != 0 {
      var q := (total % U32) / page;
      MulSum(q, 1, page);
      MultipleHasNoRest(q + 1, page);
    }
  }

  /** Rounding gives at least the size asked for exactly when the size is aligned or below 4 GiB. */
  lemma PageRoundCoversIff(total: nat, page: nat, k: nat)
    requires page > 0 && U32 == k * page
    ensures PageRound(total, page) >= total <==> (total % page == 0 || total < U32)
    ensures total < U32 ==> PageRound(total, page) < total + page
  {
    if total % page != 0 {
      var q := (total % U32) / page;
      assert q * page <= total % U32 < (q + 1) * page;
      if total >= U32 {
        if k < q + 1 { MulMono(k, q, page); }
        MulMono(q + 1, k, page);
        MultipleHasNoRest(k, page);
        assert total != U32;
      }
    }
  }

  lemma MultipleHasNoRest(k: nat, page: nat)
    requires page > 0
    ensures (k * page) % page == 0
  {
    var n := k * page;
    var q := n / page;
    assert n == q * page + n % page;
    if q < k { MulMono(q + 1, k, page); }
    if k < q { MulMono(k + 1, q, page); }
  }

  // ----- one chunk

  /** A live allocation: cnt blocks from blk on, asked for as len bytes. */
  datatype Extent = Extent(blk: nat, cnt: nat, len: nat)

  /** XMEM_INVALID_VIRT_ADD is NoMemory; a zero size is answered with -EINVAL instead. */
  datatype AllocResult = Address(va: nat) | NoMemory | BadSize

  /** xib_umem_chunk, with the set of live allocations as a history. */
  datatype Chunk = Chunk(size: nat, blkSize: nat, basePa: nat, baseVa: nat, maxBlks: nat,
                         freeBlks: int, freeMem: int, bmap: seq<Word>, live: set<Extent>) {

    ghost predicate Geometry() {
      && size > 0 && blkSize > 0
      && maxBlks == Blocks(size, blkSize) <= U32 - 32
      && PaddingClear(bmap, maxBlks)
    }

    ghost predicate Taken(e: Extent) {
      && e.len > 0 && blkSize > 0 && e.cnt == Blocks(e.len, blkSize)
      && e.blk + e.cnt <= maxBlks && maxBlks <= 32 * |bmap|
      && forall i: nat :: e.blk <= i < e.blk + e.cnt ==> Bit(bmap, i)
    }

    /** The live allocations own disjoint blocks, and those blocks are exactly the set bits. */
    ghost predicate Partition() {
      && (forall e <- live :: Taken(e))
      && (forall e, f :: e in live && f in live && e != f ==> Apart(e, f))
      && (forall i: nat :: i < 32 * |bmap| && Bit(bmap, i) ==> Owned(i))
    }

    ghost predicate Owned(i: nat) { exists e <- live :: e.blk <= i < e.blk + e.cnt }

    ghost predicate Counted() {
      && freeBlks == maxBlks - |SetBits(bmap)|
      && freeMem == size - |SetBits(bmap)| * blkSize
    }

    ghost predicate Inv() { Geometry() && Partition() && Counted() }

    /** The 32-bit block count that the source computes for a byte count. */
    function BlkCnt(len: nat): nat
      requires blkSize > 0
    {
      Blocks(len, blkSize) % U32
    }

    predicate HasMem(cnt: nat) { cnt <= maxBlks && freeBlks >= cnt }

    predicate InUse() { freeBlks != maxBlks }

    /** Mark the blocks of e as taken, as reserve_mem_blocks does. */
    ghost function Reserve(e: Extent): Chunk {
      this.(bmap := SetRange(bmap, e.blk, e.cnt, true), freeBlks := freeBlks - e.cnt,
            freeMem := freeMem - e.cnt * blkSize, live := live + {e})
    }

    /** xib_umem_alloc_mem. */
    ghost function AllocMem(len: nat): (Chunk, AllocResult)
      requires blkSize > 0 && (len > 0 ==> BlkCnt(len) >= 1)
    {
      if len == 0 then (this, BadSize)
      else if !HasMem(BlkCnt(len)) then (this, NoMemory)
      else
        var r := Slot(len);
        if r >= maxBlks then (this, NoMemory)
        else (Reserve(Extent(r, BlkCnt(len), len)), Address(baseVa + r * blkSize))
    }

    /** Where the bitmap search puts len bytes. */
    ghost function Slot(len: nat): nat
      requires blkSize > 0 && BlkCnt(len) >= 1
    {
      Search(bmap, BlkCnt(len), maxBlks, 0)
    }

    /** The search handed out blocks beyond the last block of the chunk. */
    ghost predicate Overrun(len: nat)
      requires blkSize > 0 && BlkCnt(len) >= 1
    {
      HasMem(BlkCnt(len)) && Slot(len) < maxBlks < Slot(len) + BlkCnt(len)
    }

    /** is_vaddr_within_range, whose size parameter is 32 bits wide. */
    predicate InRange(va: nat, len: nat) { baseVa <= va && va + len % U32 <= baseVa + size }

    function BlkNum(va: nat): nat
      requires blkSize > 0 && baseVa <= va
    {
      Blocks(va - baseVa, blkSize) % U32
    }

    /** The block behind the last one that xib_umem_free_mem clears. */
    function FreeEnd(va: nat, len: nat): nat
      requires blkSize > 0 && baseVa <= va
    {
      BlkNum(va) + BlkCnt(len)
    }

    /** The address of block k. */
    function StartOf(k: nat): nat { baseVa + k * blkSize }

    /** xib_umem_free_mem after its range check; the history forgets what those blocks held. */
    ghost function FreeBlocks(blk: nat, cnt: nat): Chunk {
      this.(bmap := SetRange(bmap, blk, cnt, false), freeBlks := freeBlks + cnt,
            freeMem := freeMem + cnt * blkSize,
            live := set e | e in live && !(e.blk == blk && e.cnt == cnt))
    }

    /** xib_umem_get_phy_addr; line 142 also accepts the address one past the end. */
    function PhyAddr(va: nat): Option<nat> {
      if baseVa <= va <= baseVa + size then Some(va - baseVa + basePa) else None
    }

    /** Where a live allocation lies in physical and in virtual memory. */
    function Pa(e: Extent): nat { basePa + e.blk * blkSize }
    function Va(e: Extent): nat { StartOf(e.blk) }
  }

  predicate Apart(e: Extent, f: Extent) { e.blk + e.cnt <= f.blk || f.blk + f.cnt <= e.blk }

  /** update_umem_table, lines 195-213. */
  ghost function NewChunk(size: nat, blkSize: nat, pa: nat, va: nat): Chunk
    requires blkSize > 0
  {
    var n := Blocks(size, blkSize);
    Chunk(size, blkSize, pa, va, n, n, size, seq((n + 31) / 32, _ => Zero()), {})
  }

  lemma NewChunkInv(size: nat, blkSize: nat, pa: nat, va: nat)
    requires size > 0 && blkSize > 0 && Blocks(size, blkSize) <= U32 - 32
    ensures NewChunk(size, blkSize, pa, va).Inv()
  {
    assert SetBits(NewChunk(size, blkSize, pa, va).bmap) == {};
  }

  // ----- what allocation keeps

  /** Taking a run of free blocks that lies inside the map keeps the books. */
  lemma ReserveKeepsInv(c: Chunk, e: Extent)
    requires c.Inv() && e.len > 0 && e.cnt == Blocks(e.len, c.blkSize)
    requires ClearRun(c.bmap, e.blk, e.cnt) && e.blk + e.cnt <= c.maxBlks
    ensures c.Reserve(e).Inv()
  {
    SetCountsUp(c.bmap, e.blk, e.cnt);
    ReservePartition(c, e);
    MulSum(|SetBits(c.bmap)|, e.cnt, c.blkSize);
  }

  lemma ClearIsApart(c: Chunk, e: Extent, f: Extent)
    requires c.Taken(f) && ClearRun(c.bmap, e.blk, e.cnt) && e.cnt > 0
    ensures Apart(e, f)
  {
    var i := if e.blk <= f.blk then f.blk else e.blk;
    assert i < e.blk + e.cnt ==> i < 32 * |c.bmap| && !Bit(c.bmap, i);
  }

  lemma ReservePartition(c: Chunk, e: Extent)
    requires c.Geometry() && c.Partition() && e.len > 0 && e.cnt == Blocks(e.len, c.blkSize)
    requires ClearRun(c.bmap, e.blk, e.cnt) && e.blk + e.cnt <= c.maxBlks
    ensures c.Reserve(e).Partition()
  {
    var d := c.Reserve(e);
    forall f | f in c.live
      ensures Apart(e, f) && d.Taken(f)
    {
      assert c.Taken(f);
      ClearIsApart(c, e, f);
    }
    forall i: nat | i < 32 * |d.bmap| && Bit(d.bmap, i)
      ensures d.Owned(i)
    {
      if e.blk <= i < e.blk + e.cnt {
        assert e in d.live;
      } else {
        assert c.Owned(i);
        var f :| f in c.live && f.blk <= i < f.blk + f.cnt;
        assert f in d.live;
      }
    }
  }

  lemma BlkCntExact(c: Chunk, len: nat)
    requires c.blkSize > 0 && 0 < len && Blocks(len, c.blkSize) < U32
    ensures c.BlkCnt(len) == Blocks(len, c.blkSize) >= 1
  {}

  lemma OverrunBreaks(c: Chunk, e: Extent)
    requires e.blk + e.cnt > c.maxBlks
    ensures !c.Reserve(e).Inv()
  {
    assert e in c.Reserve(e).live && !c.Reserve(e).Taken(e);
  }

  lemma ReserveKeepsInvIff(c: Chunk, e: Extent)
    requires c.Inv() && e.len > 0 && e.cnt == Blocks(e.len, c.blkSize) && ClearRun(c.bmap, e.blk, e.cnt)
    ensures c.Reserve(e).Inv() <==> e.blk + e.cnt <= c.maxBlks
  {
    if e.blk + e.cnt <= c.maxBlks {
      ReserveKeepsInv(c, e);
    } else {
      OverrunBreaks(c, e);
    }
  }

  /** The block count, cut to 32 bits, covers the bytes asked for if and only if nothing was cut. */
  lemma BlkCntCoversIff(c: Chunk, len: nat)
    requires c.blkSize > 0
    ensures c.BlkCnt(len) * c.blkSize >= len <==> Blocks(len, c.blkSize) < U32
  {
    var k, b := Blocks(len, c.blkSize), c.blkSize;
    var cnt := c.BlkCnt(len);
    BlocksBounds(len, b);
    if k >= U32 {
      assert cnt <= k - 1;
      MulMono(cnt, k - 1, b);
    } else {
      assert cnt == k;
    }
  }

  lemma ShortBreaks(c: Chunk, e: Extent)
    requires c.blkSize > 0 && e.cnt != Blocks(e.len, c.blkSize)
    ensures !c.Reserve(e).Inv()
  {
    assert e in c.Reserve(e).live && !c.Reserve(e).Taken(e);
  }

  lemma AllocExactIff(c: Chunk, len: nat)
    requires c.Inv() && 0 < len && Blocks(len, c.blkSize) < U32
    ensures c.BlkCnt(len) >= 1 && (c.AllocMem(len).0.Inv() <==> !c.Overrun(len))
  {
    BlkCntExact(c, len);
    var cnt, r := c.BlkCnt(len), c.Slot(len);
    if c.HasMem(cnt) && r < c.maxBlks {
      assert c.AllocMem(len).0 == c.Reserve(Extent(r, cnt, len));
      ReserveKeepsInvIff(c, Extent(r, cnt, len));
    } else {
      assert c.AllocMem(len).0 == c;
    }
  }

  lemma AllocShort(c: Chunk, len: nat)
    requires c.Inv() && Blocks(len, c.blkSize) >= U32 && c.BlkCnt(len) >= 1
    ensures if c.AllocMem(len).1.Address? then !c.AllocMem(len).0.Inv() else c.AllocMem(len).0 == c && !c.Overrun(len)
  {
    if c.AllocMem(len).1.Address? {
      ShortBreaks(c, Extent(c.Slot(len), c.BlkCnt(len), len));
    }
  }

  /** What a successful call that does not overrun does: e is a run of free blocks inside the chunk
      that holds the bytes asked for, and its address is the answer. */
  ghost predicate HandsOut(c: Chunk, len: nat, d: Chunk, va: nat, e: Extent) {
    && c.blkSize > 0 && e.len == len && e.cnt == Blocks(len, c.blkSize)
    && e.blk + e.cnt <= c.maxBlks && ClearRun(c.bmap, e.blk, e.cnt)
    && d == c.Reserve(e) && va == c.Va(e)
  }

  lemma AllocHandsOut(c: Chunk, len: nat) returns (d: Chunk, va: nat, e: Extent)
    requires c.Inv() && 0 < len && Blocks(len, c.blkSize) < U32 && c.BlkCnt(len) >= 1
    requires !c.Overrun(len) && c.AllocMem(len).1.Address?
    ensures c.AllocMem(len) == (d, Address(va)) && HandsOut(c, len, d, va, e)
  {
    BlkCntExact(c, len);
    e := Extent(c.Slot(len), c.BlkCnt(len), len);
    AnswerIsSearch(c.bmap, e.cnt, c.maxBlks, e.blk);
    d, va := c.AllocMem(len).0, c.AllocMem(len).1.va;
  }

  /** The address handed out is that of a new allocation ... */
  lemma HandedOutIsNew(c: Chunk, len: nat, d: Chunk, va: nat, e: Extent)
    requires c.Inv() && 0 < len && HandsOut(c, len, d, va, e)
    ensures d.Inv() && e !in c.live && d.live == c.live + {e} && va == d.Va(e)
  {
    assert !c.Taken(e) by { assert !Bit(c.bmap, e.blk); }
    ReserveKeepsInv(c, e);
  }

  /** ... at whose bytes no other one lives ... */
  lemma HandedOutIsApart(c: Chunk, len: nat, d: Chunk, va: nat, e: Extent, f: Extent)
    requires c.Inv() && 0 < len && HandsOut(c, len, d, va, e) && f in c.live
    ensures BytesApart(va, len, d.Va(f), f.len)
  {
    assert c.Taken(f);
    ClearIsApart(c, e, f);
    BlocksApartBytes(c, e, f);
  }

  /** ... which its address and size name ... */
  lemma HandedOutIsNamed(c: Chunk, len: nat, d: Chunk, va: nat, e: Extent)
    requires c.Geometry() && 0 < len && HandsOut(c, len, d, va, e)
    ensures d.blkSize > 0 && d.baseVa <= va && d.BlkNum(va) == e.blk && d.BlkCnt(len) == e.cnt
  {
    BlkNumOfBlock(c, e.blk);
  }

  /** ... so that giving back exactly those undoes the call. */
  lemma HandedOutUndone(c: Chunk, len: nat, d: Chunk, va: nat, e: Extent)
    requires c.Inv() && 0 < len && HandsOut(c, len, d, va, e)
    ensures d.blkSize > 0 && d.baseVa <= va && d.BlkNum(va) == e.blk && d.BlkCnt(len) == e.cnt
    ensures d.FreeBlocks(d.BlkNum(va), d.BlkCnt(len)) == c
  {
    HandedOutIsNamed(c, len, d, va, e);
    FreeUndoesAlloc(c, e);
  }

  predicate BytesApart(a: nat, m: nat, b: nat, n: nat) { a + m <= b || b + n <= a }

  /** The address of a block leads back to it. */
  lemma BlkNumOfBlock(c: Chunk, k: nat)
    requires c.blkSize > 0 && k < U32
    ensures c.baseVa <= c.StartOf(k) && c.BlkNum(c.StartOf(k)) == k
  {
    BlocksOfMultiple(k, c.blkSize);
  }

  lemma BlocksApartBytes(c: Chunk, e: Extent, f: Extent)
    requires c.blkSize > 0 && Apart(e, f)
    requires e.cnt == Blocks(e.len, c.blkSize) && f.cnt == Blocks(f.len, c.blkSize)
    ensures BytesApart(c.Va(e), e.len, c.Va(f), f.len)
  {
    BlocksBounds(e.len, c.blkSize);
    BlocksBounds(f.len, c.blkSize);
    MulSum(e.blk, e.cnt, c.blkSize);
    MulSum(f.blk, f.cnt, c.blkSize);
    if e.blk + e.cnt <= f.blk {
      MulMono(e.blk + e.cnt, f.blk, c.blkSize);
    } else {
      MulMono(f.blk + f.cnt, e.blk, c.blkSize);
    }
  }

  /** The other answers: a zero size is a bad size; otherwise the call is refused if and only if fewer
      blocks are clear than asked for, or the search finds no place below the last block. A refused
      call changes nothing. */
  lemma AllocRefusals(c: Chunk, len: nat)
    requires c.Inv() && (len > 0 ==> c.BlkCnt(len) >= 1)
    ensures c.AllocMem(len).1.BadSize? <==> len == 0
    ensures len > 0 ==> (c.AllocMem(len).1.NoMemory? <==>
              || |SetBits(c.bmap)| + c.BlkCnt(len) > c.maxBlks
              || forall r: nat :: r < c.maxBlks ==> !Candidate(c.bmap, r, c.BlkCnt(len)))
    ensures !c.AllocMem(len).1.Address? ==> c.AllocMem(len).0 == c
  {
    if len > 0 { AnswerIsSearch(c.bmap, c.BlkCnt(len), c.maxBlks, c.Slot(len)); }
  }

  /** An allocation of any size keeps the books if and only if the search did not run past the map
      and what was handed out is not short because its block count was cut. */
  lemma AllocKeepsInvIff(c: Chunk, len: nat)
    requires c.Inv() && 0 < len && c.BlkCnt(len) >= 1
    ensures c.AllocMem(len).0.Inv() <==>
              !c.Overrun(len) && (c.AllocMem(len).1.Address? ==> Blocks(len, c.blkSize) < U32)
  {
    if Blocks(len, c.blkSize) < U32 {
      AllocExactIff(c, len);
    } else {
      AllocShort(c, len);
    }
  }

  /** Of n blocks, cnt are asked for: the last word of the map is partial, and more than one block
      but not all of them are wanted. */
  predicate MayOverrun(n: nat, cnt: nat) { n % 32 != 0 && 1 < cnt < n }

  /** Otherwise an allocation never overruns. */
  lemma NoOverrun(c: Chunk, len: nat)
    requires c.Inv() && c.BlkCnt(len) >= 1 && !MayOverrun(c.maxBlks, c.BlkCnt(len))
    ensures !c.Overrun(len)
  {
    var cnt, r := c.BlkCnt(len), c.Slot(len);
    AnswerIsSearch(c.bmap, cnt, c.maxBlks, r);
    if c.maxBlks % 32 == 0 || cnt == 1 {
      FitsWhenWordsFull(c.bmap, cnt, c.maxBlks, r);
    } else if c.HasMem(cnt) {
      assert |SetBits(c.bmap)| == 0 && SetBits(c.bmap) == {};
      assert forall i: nat :: i < 32 * |c.bmap| ==> (Bit(c.bmap, i) <==> i in SetBits(c.bmap));
      assert Candidate(c.bmap, 0, cnt);
    }
  }

  /** Then the search for cnt blocks finds the cnt - 1 at the end and one past them. */
  lemma TailOverruns(c: Chunk, cnt: nat, len: nat)
    requires c.Inv() && MayOverrun(c.maxBlks, cnt) && TakenFrom1(c.bmap, c.maxBlks - cnt)
    requires 0 < len && Blocks(len, c.blkSize) == cnt
    ensures c.BlkCnt(len) >= 1 && c.Overrun(len)
  {
    BlkCntExact(c, len);
    assert SetBits(c.bmap) == Range(1, c.maxBlks - cnt);
    TailAnswer(c.bmap, c.maxBlks, cnt);
    AnswerIsSearch(c.bmap, cnt, c.maxBlks, c.maxBlks - cnt + 1);
  }

  /** An allocation that the bitmap search puts at blk. */
  lemma AllocAt(c: Chunk, cnt: nat, len: nat, blk: nat)
    requires c.Inv() && cnt >= 1 && 0 < len && Blocks(len, c.blkSize) == cnt < U32 && c.HasMem(cnt)
    requires Candidate(c.bmap, blk, cnt) && blk + cnt <= c.maxBlks && forall p: nat :: p < blk ==> !Candidate(c.bmap, p, cnt)
    ensures c.BlkCnt(len) == cnt && c.AllocMem(len).0 == c.Reserve(Extent(blk, cnt, len)) && c.AllocMem(len).0.Inv()
  {
    BlkCntExact(c, len);
    assert IsAnswer(c.bmap, cnt, c.maxBlks, blk);
    AnswerIsSearch(c.bmap, cnt, c.maxBlks, blk);
    ReserveKeepsInv(c, Extent(blk, cnt, len));
  }

  /** In an unused chunk the first block is taken ... */
  lemma OneTaken(c: Chunk) returns (c1: Chunk)
    requires c.Inv() && SetBits(c.bmap) == {} && c.maxBlks >= 1
    ensures c.BlkCnt(c.blkSize) == 1 && c1 == c.AllocMem(c.blkSize).0
    ensures c1.Inv() && c1.maxBlks == c.maxBlks && c1.blkSize == c.blkSize && c1.freeBlks == c.maxBlks - 1
    ensures Extent(0, 1, c.blkSize) in c1.live && SetBits(c1.bmap) == {0}
  {
    assert forall i: nat :: i < 32 * |c.bmap| ==> (Bit(c.bmap, i) <==> i in SetBits(c.bmap));
    BlocksOfMultiple(1, c.blkSize);
    assert Candidate(c.bmap, 0, 1);
    AllocAt(c, 1, c.blkSize, 0);
    c1 := c.Reserve(Extent(0, 1, c.blkSize));
  }

  /** ... then the next k ... */
  lemma MoreTaken(c1: Chunk, k: nat, len: nat) returns (c2: Chunk)
    requires c1.Inv() && SetBits(c1.bmap) == {0} && 1 <= k < c1.maxBlks && c1.freeBlks == c1.maxBlks - 1
    requires len > 0 && Blocks(len, c1.blkSize) == k
    ensures c1.BlkCnt(len) == k && c2 == c1.AllocMem(len).0
    ensures c2.Inv() && c2.maxBlks == c1.maxBlks && c2.blkSize == c1.blkSize && c1.live <= c2.live
    ensures forall i: nat :: i < 32 * |c2.bmap| ==> (Bit(c2.bmap, i) <==> i <= k)
  {
    assert forall i: nat :: i < 32 * |c1.bmap| ==> (Bit(c1.bmap, i) <==> i in SetBits(c1.bmap));
    assert Candidate(c1.bmap, 1, k) && !Candidate(c1.bmap, 0, k);
    AllocAt(c1, k, len, 1);
    c2 := c1.Reserve(Extent(1, k, len));
  }

  /** ... and the first is given back. */
  lemma FirstGivenBack(c2: Chunk, k: nat) returns (d: Chunk)
    requires c2.Inv() && Extent(0, 1, c2.blkSize) in c2.live
    requires forall i: nat :: i < 32 * |c2.bmap| ==> (Bit(c2.bmap, i) <==> i <= k)
    ensures d == c2.FreeBlocks(0, 1) && d.Inv() && d.maxBlks == c2.maxBlks && d.blkSize == c2.blkSize
    ensures TakenFrom1(d.bmap, k)
  {
    FreeKeepsInv(c2, Extent(0, 1, c2.blkSize));
    d := c2.FreeBlocks(0, 1);
  }

  /** xib_umem_alloc_mem twice, then xib_umem_free_mem of the first block. */
  ghost predicate ThreeCalls(c: Chunk, len1: nat, len2: nat, d: Chunk) {
    && c.blkSize > 0 && c.BlkCnt(len1) >= 1
    && var c1 := c.AllocMem(len1).0;
       c1.blkSize > 0 && c1.BlkCnt(len2) >= 1 && d == c1.AllocMem(len2).0.FreeBlocks(0, 1)
  }

  /** Three calls on a new chunk lead to one that overruns. */
  lemma OverrunReached(n: nat, b: nat, cnt: nat) returns (d: Chunk)
    requires b > 0 && n <= U32 - 32 && MayOverrun(n, cnt)
    ensures ThreeCalls(NewChunk(n * b, b, 0, 0), b, (n - cnt) * b, d)
    ensures Overruns(d, n, b, cnt)
  {
    var k := n - cnt;
    MulMono(1, n, b);
    BlocksOfMultiple(n, b);
    NewChunkInv(n * b, b, 0, 0);
    var c := NewChunk(n * b, b, 0, 0);
    assert SetBits(c.bmap) == {};
    var c1 := OneTaken(c);
    MulMono(1, k, b);
    BlocksOfMultiple(k, b);
    var c2 := MoreTaken(c1, k, k * b);
    d := FirstGivenBack(c2, k);
    MulMono(1, cnt, b);
    BlocksOfMultiple(cnt, b);
    TailOverruns(d, cnt, cnt * b);
  }

  /** The chunk overruns when cnt of its n blocks, of b bytes each, are asked for. */
  ghost predicate Overruns(c: Chunk, n: nat, b: nat, cnt: nat) {
    && c.Inv() && c.maxBlks == n && c.blkSize == b
    && exists len: nat :: 0 < len && Blocks(len, b) == cnt < U32 && c.Overrun(len)
  }

  /** Some chunk of n blocks, whatever their size, overruns when cnt are asked for, if and only if
      that is a request of more than one block but not all, of a map whose last word is partial. */
  lemma OverrunPossibleIff(n: nat, b: nat, cnt: nat)
    requires b > 0 && 1 <= n <= U32 - 32
    ensures (exists c :: Overruns(c, n, b, cnt)) <==> MayOverrun(n, cnt)
  {
    if MayOverrun(n, cnt) {
      var d := OverrunReached(n, b, cnt);
      assert Overruns(d, n, b, cnt);
    }
    forall c | Overruns(c, n, b, cnt)
      ensures MayOverrun(n, cnt)
    {
      var len: nat :| 0 < len && Blocks(len, b) == cnt < U32 && c.Overrun(len);
      BlkCntExact(c, len);
      if !MayOverrun(n, cnt) { NoOverrun(c, len); }
    }
  }

  /** Free neighbours are counted as free. */
  lemma FreeRunCounts(c: Chunk, p: nat, cnt: nat)
    requires c.Inv() && ClearRun(c.bmap, p, cnt) && p + cnt <= c.maxBlks
    ensures c.HasMem(cnt)
  {
    SetCountsUp(c.bmap, p, cnt);
    assert SetBits(SetRange(c.bmap, p, cnt, true)) <= Range(0, c.maxBlks);
    SubsetSize(SetBits(SetRange(c.bmap, p, cnt, true)), Range(0, c.maxBlks));
  }

  /** The chunk refuses cnt of its n blocks although that many neighbours are free. */
  ghost predicate Misses(c: Chunk, n: nat, b: nat, cnt: nat) {
    && c.Inv() && c.maxBlks == n && c.blkSize == b
    && (exists p: nat :: p + cnt <= n && ClearRun(c.bmap, p, cnt))
    && exists len: nat :: 0 < len && Blocks(len, b) == cnt < U32 && c.AllocMem(len).1.NoMemory?
  }

  lemma MissOnlyIf(c: Chunk, n: nat, b: nat, cnt: nat)
    requires Misses(c, n, b, cnt)
    ensures MayMiss(n, cnt)
  {
    var p: nat :| p + cnt <= n && ClearRun(c.bmap, p, cnt);
    var len: nat :| 0 < len && Blocks(len, b) == cnt < U32 && c.AllocMem(len).1.NoMemory?;
    BlkCntExact(c, len);
    FreeRunCounts(c, p, cnt);
    AnswerIsSearch(c.bmap, cnt, n, c.Slot(len));
    RefusedOnlyIf(c.bmap, cnt, n, c.Slot(len), p);
  }

  /** Take blocks lo .. lo+k-1 of a chunk in which they are free. */
  lemma Take(c: Chunk, lo: nat, k: nat) returns (d: Chunk)
    requires c.Inv() && lo + k <= c.maxBlks && ClearRun(c.bmap, lo, k)
    ensures d.Inv() && d.maxBlks == c.maxBlks && d.blkSize == c.blkSize && |d.bmap| == |c.bmap|
    ensures forall i: nat :: i < 32 * |d.bmap| ==> (Bit(d.bmap, i) <==> Bit(c.bmap, i) || lo <= i < lo + k)
  {
    if k == 0 { return c; }
    MulMono(1, k, c.blkSize);
    BlocksOfMultiple(k, c.blkSize);
    ReserveKeepsInv(c, Extent(lo, k, k * c.blkSize));
    d := c.Reserve(Extent(lo, k, k * c.blkSize));
  }

  lemma TrapChunk(n: nat, b: nat, cnt: nat) returns (d: Chunk)
    requires b > 0 && n <= U32 - 32 && MayMiss(n, cnt)
    ensures d.Inv() && d.maxBlks == n && d.blkSize == b && CarryTrap(d.bmap, n, cnt)
  {
    MulMono(1, n, b);
    BlocksOfMultiple(n, b);
    NewChunkInv(n * b, b, 0, 0);
    var c := NewChunk(n * b, b, 0, 0);
    assert forall i: nat :: i < 32 * |c.bmap| ==> !Bit(c.bmap, i);
    var c1 := Take(c, 0, 31);
    var c2 := Take(c1, 32, 1);
    d := Take(c2, 33 + cnt, n - 33 - cnt);
  }

  /** Some chunk of n blocks, whatever their size, refuses cnt of them although that many neighbours
      are free, if and only if more than one is asked for and n >= cnt + 33, or cnt + 34 when the
      last word of the map is partial. */
  lemma MissPossibleIff(n: nat, b: nat, cnt: nat)
    requires b > 0 && 1 <= n <= U32 - 32
    ensures (exists c :: Misses(c, n, b, cnt)) <==> MayMiss(n, cnt)
  {
    if MayMiss(n, cnt) {
      var d := TrapChunk(n, b, cnt);
      var len := cnt * b;
      MulMono(1, cnt, b);
      BlocksOfMultiple(cnt, b);
      BlkCntExact(d, len);
      TrapRefuses(d.bmap, cnt, n);
      assert 33 + cnt <= n && ClearRun(d.bmap, 33, cnt);
      assert d.AllocMem(len).1.NoMemory?;
      assert Misses(d, n, b, cnt);
    }
    forall c | Misses(c, n, b, cnt)
      ensures MayMiss(n, cnt)
    {
      MissOnlyIf(c, n, b, cnt);
    }
  }

  // ----- what freeing keeps

  /** A call of xib_umem_free_mem that clears at least one block keeps the books if and only if
      it names the blocks of one live allocation. */
  lemma FreeKeepsInvIff(c: Chunk, blk: nat, cnt: nat)
    requires c.Inv() && cnt > 0 && blk + cnt <= 32 * |c.bmap|
    ensures c.FreeBlocks(blk, cnt).Inv() <==> exists e <- c.live :: e.blk == blk && e.cnt == cnt
  {
    if e :| e in c.live && e.blk == blk && e.cnt == cnt {
      FreeKeepsInv(c, e);
    } else {
      FreeOfOthersBreaks(c, blk, cnt);
    }
  }

  lemma BlocksSum(m: nat, n: nat, b: nat)
    requires b > 0
    ensures Blocks(m, b) + Blocks(n, b) <= Blocks(m + n, b) + 1
  {
    var r, s, t := Blocks(m, b), Blocks(n, b), Blocks(m + n, b);
    BlocksBounds(m, b);
    BlocksBounds(n, b);
    BlocksBounds(m + n, b);
    if r + s > t + 1 {
      MulSum(r - 1, s - 1, b);
      MulMono(t, r + s - 2, b);
    }
  }

  /** Block numbers of n bytes at offset o in a chunk of `size` bytes. */
  lemma ReachBounds(o: nat, n: nat, size: nat, b: nat)
    requires b > 0 && n > 0 && o + n <= size
    ensures Blocks(o, b) <= Blocks(size, b) && Blocks(n, b) <= Blocks(size, b)
    ensures Blocks(o, b) + Blocks(n, b) <= Blocks(size, b) + 1
  {
    BlocksSum(o, n, b);
    BlocksGrow(o + n, size, b);
    BlocksGrow(o, size, b);
    BlocksGrow(n, size, b);
  }

  /** For sizes below 2^32 the numbers the source computes are not cut, and the range check lets a
      call reach at most one block past the last. */
  lemma ReachInChunk(c: Chunk, va: nat, len: nat)
    requires c.Geometry() && len < U32 && c.InRange(va, len)
    ensures c.BlkNum(va) == Blocks(va - c.baseVa, c.blkSize) && c.BlkCnt(len) == Blocks(len, c.blkSize)
    ensures c.FreeEnd(va, len) <= c.maxBlks + 1
  {
    if len > 0 {
      ReachBounds(va - c.baseVa, len, c.size, c.blkSize);
    } else {
      BlocksGrow(va - c.baseVa, c.size, c.blkSize);
    }
  }

  /** That block is outside the map if and only if the map fills its words. */
  lemma FreeLeavesMapIff(c: Chunk, va: nat, len: nat)
    requires c.Geometry() && len < U32 && c.InRange(va, len)
    ensures c.FreeEnd(va, len) > 32 * |c.bmap| <==> c.FreeEnd(va, len) == c.maxBlks + 1 && c.maxBlks % 32 == 0
  {
    ReachInChunk(c, va, len);
  }

  /** From the start of a block such a call stays inside. */
  lemma AlignedReach(c: Chunk, k: nat, len: nat)
    requires c.Geometry() && len < U32 && c.InRange(c.baseVa + k * c.blkSize, len)
    ensures c.FreeEnd(c.baseVa + k * c.blkSize, len) <= c.maxBlks
  {
    var o := k * c.blkSize;
    ReachInChunk(c, c.baseVa + o, len);
    BlocksOfMultiple(k, c.blkSize);
    BlocksGrow(o + len, c.size, c.blkSize);
    if len > 0 { BlocksAfter(k, len, c.blkSize); }
  }

  /** With blocks of a 64th of the high part, the high part alone is 64 blocks and the low part at
      most as many. */
  lemma LongBlocks(len: nat, r: nat, b: nat)
    requires b >= 0x400_0000 && r < U32 && len == 64 * b + r
    ensures Blocks(len, b) == 64 + Blocks(r, b) && Blocks(r, b) <= 64 && Blocks(if r == 0 then 1 else r, b) <= 64
  {
    BlocksOfMultiple(64, b);
    BlocksGrow(r, 64 * b, b);
    if r > 0 { BlocksAfter(64, r, b); }
  }

  /** The range check looks at the low 32 bits of the size only, the block count at all of it: for
      every size of 2^32 bytes and more there is a chunk on which a free at its very start passes
      the check and clears blocks outside the map. */
  lemma LongFreeOvershoots(len: nat) returns (c: Chunk)
    requires len >= U32
    ensures c.Inv() && c.InRange(c.baseVa, len)
    ensures c.FreeEnd(c.baseVa, len) > c.maxBlks + 1 && c.FreeEnd(c.baseVa, len) > 32 * |c.bmap|
  {
    var q, r := len / U32, len % U32;
    var b, size := q * 0x400_0000, if r == 0 then 1 else r;
    LongBlocks(len, r, b);
    NewChunkInv(size, b, 0, 0);
    c := NewChunk(size, b, 0, 0);
    LongReach(c, len, r);
  }

  lemma LongReach(c: Chunk, len: nat, r: nat)
    requires c.Geometry() && Blocks(len, c.blkSize) == 64 + Blocks(r, c.blkSize) && c.maxBlks <= 64
    requires c.maxBlks == Blocks(if r == 0 then 1 else r, c.blkSize) && (r == 0 ==> c.maxBlks == 1)
    ensures c.FreeEnd(c.baseVa, len) > c.maxBlks + 1 && c.FreeEnd(c.baseVa, len) > 32 * |c.bmap|
  {
    assert c.BlkNum(c.baseVa) == 0;
    assert r == 0 || Blocks(r, c.blkSize) == c.maxBlks >= 1;
  }

  /** So: in every chunk that keeps its books, every free that passes the range check reaches at
      most one block past the last, if and only if its size is below 2^32. */
  lemma FreeReachIff(len: nat)
    ensures (forall c: Chunk, va: nat :: c.Inv() && c.InRange(va, len) ==> c.FreeEnd(va, len) <= c.maxBlks + 1) <==> len < U32
  {
    if len < U32 {
      forall c: Chunk, va: nat | c.Inv() && c.InRange(va, len)
        ensures c.FreeEnd(va, len) <= c.maxBlks + 1
      {
        ReachInChunk(c, va, len);
      }
    } else {
      var c := LongFreeOvershoots(len);
    }
  }

  /** At the start of a block it stays inside the chunk, if and only if its size is below 2^32. */
  lemma AlignedFreeStaysIff(len: nat)
    ensures (forall c: Chunk, k: nat :: c.Inv() && c.InRange(c.StartOf(k), len) ==> c.FreeEnd(c.StartOf(k), len) <= c.maxBlks)
       <==> len < U32
  {
    if len < U32 {
      forall c: Chunk, k: nat | c.Inv() && c.InRange(c.StartOf(k), len)
        ensures c.FreeEnd(c.StartOf(k), len) <= c.maxBlks
      {
        AlignedReach(c, k, len);
      }
    } else {
      var c := LongFreeOvershoots(len);
      assert c.StartOf(0) == c.baseVa;
    }
  }

  lemma {:induction false} BlocksGrow(m: nat, n: nat, b: nat)
    requires b > 0 && m <= n
    ensures Blocks(m, b) <= Blocks(n, b)
  {
    BlocksBounds(m, b);
    BlocksBounds(n, b);
    if Blocks(n, b) < Blocks(m, b) { MulMono(Blocks(n, b), Blocks(m, b) - 1, b); }
  }

  /** Whole blocks in front just add up. */
  lemma BlocksAfter(k: nat, len: nat, b: nat)
    requires b > 0 && len > 0
    ensures Blocks(k * b + len, b) == k + Blocks(len, b)
  {
    BlocksBounds(len, b);
    MulSum(k, Blocks(len, b), b);
    MulSum(k, Blocks(len, b) - 1, b);
    BlocksUnique(k * b + len, b, k + Blocks(len, b));
  }

  lemma FreeKeepsInv(c: Chunk, e: Extent)
    requires c.Inv() && e in c.live
    ensures c.FreeBlocks(e.blk, e.cnt).Inv()
  {
    assert c.Taken(e);
    ClearCountsDown(c.bmap, e.blk, e.cnt);
    assert Range(e.blk, e.cnt) <= SetBits(c.bmap);
    FreeKeepsPartition(c, e);
    FreeKeepsCount(c, e.blk, e.cnt);
  }

  lemma FreeKeepsCount(c: Chunk, blk: nat, cnt: nat)
    requires c.Counted() && |SetBits(c.FreeBlocks(blk, cnt).bmap)| == |SetBits(c.bmap)| - cnt
    ensures c.FreeBlocks(blk, cnt).Counted()
  {
    var n := |SetBits(c.FreeBlocks(blk, cnt).bmap)|;
    assert |SetBits(c.bmap)| == n + cnt;
    MulSum(n, cnt, c.blkSize);
  }

  lemma FreeOfOthersBreaks(c: Chunk, blk: nat, cnt: nat)
    requires c.Inv() && cnt > 0 && blk + cnt <= 32 * |c.bmap|
    requires forall e <- c.live :: !(e.blk == blk && e.cnt == cnt)
    ensures !c.FreeBlocks(blk, cnt).Inv()
  {
    var d := c.FreeBlocks(blk, cnt);
    assert d.live == c.live;
    ClearCountsDown(c.bmap, blk, cnt);
    assert d.Counted() ==> blk in Range(blk, cnt) && blk in SetBits(c.bmap);
    if c.Owned(blk) {
      var f :| f in c.live && f.blk <= blk < f.blk + f.cnt;
      assert !Bit(d.bmap, blk);
      assert !d.Taken(f);
    }
  }

  lemma FreeKeepsPartition(c: Chunk, e: Extent)
    requires c.Geometry() && c.Partition() && e in c.live
    ensures c.FreeBlocks(e.blk, e.cnt).Partition() && PaddingClear(c.FreeBlocks(e.blk, e.cnt).bmap, c.maxBlks)
    ensures c.FreeBlocks(e.blk, e.cnt).live == c.live - {e}
  {
    var d := c.FreeBlocks(e.blk, e.cnt);
    assert c.Taken(e);
    assert d.live == c.live - {e} by {
      forall f | f in c.live && f.blk == e.blk && f.cnt == e.cnt
        ensures f == e
      {
        assert c.Taken(f) && (f != e ==> Apart(e, f));
      }
    }
    forall f | f in d.live
      ensures d.Taken(f)
    {
      assert c.Taken(f) && Apart(e, f);
    }
    forall i: nat | i < 32 * |d.bmap| && Bit(d.bmap, i)
      ensures d.Owned(i)
    {
      assert c.Owned(i);
      var f :| f in c.live && f.blk <= i < f.blk + f.cnt;
      assert f != e && f in d.live;
    }
  }

  /** Allocating and freeing again gives back the chunk, words and counters included. */
  lemma FreeUndoesAlloc(c: Chunk, e: Extent)
    requires c.Inv() && e.len > 0 && e.cnt == Blocks(e.len, c.blkSize)
    requires ClearRun(c.bmap, e.blk, e.cnt) && e.blk + e.cnt <= c.maxBlks
    ensures c.Reserve(e).FreeBlocks(e.blk, e.cnt) == c
  {
    var d := c.Reserve(e);
    ReserveKeepsInv(c, e);
    FreeKeepsPartition(d, e);
    ClearUndoesSet(c.bmap, d.bmap, d.FreeBlocks(e.blk, e.cnt).bmap, e.blk, e.cnt);
    assert !c.Taken(e) by { assert !Bit(c.bmap, e.blk); }
  }

  /** A chunk counts as unused exactly when none of its blocks is live. */
  lemma UnusedIffNothingLive(c: Chunk)
    requires c.Inv()
    ensures !c.InUse() <==> c.live == {}
  {
    if c.live != {} {
      var e :| e in c.live;
      assert c.Taken(e) && Bit(c.bmap, e.blk) && e.blk in SetBits(c.bmap);
    } else {
      assert forall i: nat :: i < 32 * |c.bmap| ==> !Bit(c.bmap, i);
      assert SetBits(c.bmap) == {};
    }
  }

  // ----- the library's own code

  class UmemChunk {
    var size: nat
    var blkSize: nat
    var basePa: nat
    var baseVa: nat
    var maxBlks: nat
    var freeBlks: int
    var freeMem: int
    var bmap: array<Word>
    ghost var live: set<Extent>

    ghost function State(): Chunk
      reads this, bmap
    {
      Chunk(size, blkSize, basePa, baseVa, maxBlks, freeBlks, freeMem, bmap[..], live)
    }

    /** update_umem_table, lines 195-213 and 232. */
    constructor (size: nat, blkSize: nat, pa: nat, va: nat)
      requires blkSize > 0
      ensures State() == NewChunk(size, blkSize, pa, va) && fresh(bmap)
    {
      this.size, this.blkSize, basePa, baseVa := size, blkSize, pa, va;
      SizeToBlocks(size, blkSize);
      var n := (size + blkSize - 1) / blkSize;
      maxBlks, freeBlks, freeMem, live := n, n, size, {};
      bmap := new Word[(n + 31) / 32](_ => Zero());
    }

    /** reserve_mem_blocks. */
    method ReserveMemBlocks(cnt: nat, ghost len: nat) returns (bit: nat)
      requires 1 <= cnt <= maxBlks <= U32 - 32 && PaddingClear(bmap[..], maxBlks)
      modifies this, bmap
      ensures bmap == old(bmap) && bit == Search(old(bmap[..]), cnt, maxBlks, 0)
      ensures State() == if bit < maxBlks then old(State()).Reserve(Extent(bit, cnt, len)) else old(State())
    {
      bit := FindZeroBits(bmap, cnt, maxBlks);
      AnswerIsSearch(bmap[..], cnt, maxBlks, bit);
      if bit < maxBlks {
        SetBitMap(bmap, bit, cnt);
        UpdatedIsSetRange(old(bmap[..]), bmap[..], bit, cnt, true);
        freeMem := freeMem - cnt * blkSize;
        freeBlks := freeBlks - cnt;
        live := live + {Extent(bit, cnt, len)};
      }
    }

    /** xib_umem_alloc_mem. */
    method AllocMem(len: nat) returns (res: AllocResult)
      requires State().Geometry() && (len > 0 ==> State().BlkCnt(len) >= 1)
      modifies this, bmap
      ensures State() == old(State()).AllocMem(len).0 && res == old(State()).AllocMem(len).1
      ensures bmap == old(bmap)
    {
      if len == 0 { return BadSize; }
      SizeToBlocks(len, blkSize);
      var cnt := (len + blkSize - 1) / blkSize % U32;
      if cnt > maxBlks || freeBlks < cnt { return NoMemory; }
      var blk := ReserveMemBlocks(cnt, len);
      if blk >= maxBlks { return NoMemory; }
      return Address(baseVa + blk * blkSize);
    }

    /** xib_umem_free_mem. */
    method FreeMem(va: nat, len: nat) returns (ok: bool)
      requires blkSize > 0
      requires State().InRange(va, len) ==> State().BlkNum(va) + State().BlkCnt(len) <= 32 * bmap.Length
      modifies this, bmap
      ensures ok == old(State()).InRange(va, len) && bmap == old(bmap)
      ensures State() == if ok then old(State()).FreeBlocks(old(State()).BlkNum(va), old(State()).BlkCnt(len)) else old(State())
    {
      if !(va >= baseVa && baseVa + size >= va + len % U32) { return false; }
      SizeToBlocks(len, blkSize);
      SizeToBlocks(va - baseVa, blkSize);
      var cnt := (len + blkSize - 1) / blkSize % U32;
      var blk := (va - baseVa + blkSize - 1) / blkSize % U32;
      ClearBitMap(bmap, blk, cnt);
      UpdatedIsSetRange(old(bmap[..]), bmap[..], blk, cnt, false);
      freeMem := freeMem + cnt * blkSize;
      freeBlks := freeBlks + cnt;
      live := set e | e in live && !(e.blk == blk && e.cnt == cnt);
      return true;
    }
  }
}
