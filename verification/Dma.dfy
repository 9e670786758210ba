/** The two memory managers together: chunks come from the kernel region, blocks come from
    chunks, and kernel callers take chunks of their own (umm.c over xib_kmm.c). */
module Dma {
  import opened Lists
  import opened BitOps
  import Kmm
  import Umm

  const PAGE_SIZE := 4096

  datatype World = World(kernel: Kmm.Region, chunks: map<nat, Umm.Chunk>, clients: set<nat>) {

    /** The kernel knows this chunk under the same id, address and size. */
    ghost predicate Backed(id: nat)
      requires id in chunks
    {
      Kmm.Chunk(chunks[id].basePa, chunks[id].size, id) in kernel.chunks
    }

    ghost predicate Known(id: nat) { exists c <- kernel.chunks :: c.id == id }

    ghost predicate VaApart(a: nat, b: nat)
      requires a in chunks && b in chunks
    {
      || chunks[a].baseVa + chunks[a].size <= chunks[b].baseVa
      || chunks[b].baseVa + chunks[b].size <= chunks[a].baseVa
    }

    /** Where chunks lie: the kernel's list is in order and knows every id, and no two chunks
        share virtual addresses. */
    ghost predicate Placed() {
      && kernel.Valid() && kernel.UniqueIds()
      && clients !! chunks.Keys && (forall id <- clients :: Known(id))
      && (forall id <- chunks :: Backed(id))
      && (forall a, b :: a in chunks && b in chunks && a != b ==> VaApart(a, b))
    }

    /** What chunks hold: every bitmap keeps its books, and no last block sticks out. */
    ghost predicate Filled() {
      forall id <- chunks :: chunks[id].Inv() && WholeBlocks(chunks[id])
    }

    ghost predicate Inv() { Placed() && Filled() }
  }

  /** The blocks fill the chunk: its last block does not stick out. */
  ghost predicate WholeBlocks(c: Umm.Chunk) { c.maxBlks * c.blkSize == c.size }

  /** xib_umem_alloc_chunk, lines 418-423. */
  function RoundedTotal(total: nat): nat { Umm.PageRound(total, PAGE_SIZE) }
  function RoundedBlock(blk: nat, total: nat): nat {
    if total % PAGE_SIZE != 0 && total == blk then RoundedTotal(total) else blk
  }

  datatype Op =
    | NewChunk(blk: nat, total: nat, va: nat)  // xib_umem_alloc_chunk; va is mmap's choice
    | DropChunk(id: nat)                       // xib_umem_free_chunk
    | Take(id: nat, len: nat)                  // xib_umem_alloc_mem
    | Give(id: nat, e: Umm.Extent)             // xib_umem_free_mem of a live allocation
    | ClientAlloc(n: nat)                      // xib_kmm_alloc_mem
    | ClientFree(id: nat)                      // xib_kmm_free_mem

  ghost function Step(front: Kmm.Front, w: World, op: Op): World {
    match op
    case NewChunk(blk, total, va) =>
      if blk == 0 || total == 0 then w
      else
        var (r, c) := w.kernel.Alloc(front, RoundedTotal(total));
        if c.None? || RoundedBlock(blk, total) == 0 then w
        else w.(kernel := r, chunks := w.chunks[c.value.id :=
                Umm.NewChunk(c.value.size, RoundedBlock(blk, total), c.value.start, va)])
    case DropChunk(id) =>
      if id !in w.chunks || w.chunks[id].InUse() then w
      else w.(kernel := w.kernel.Free(id).0, chunks := w.chunks - {id})
    case Take(id, len) =>
      if id !in w.chunks || w.chunks[id].blkSize == 0 || (len > 0 && w.chunks[id].BlkCnt(len) == 0) then w
      else w.(chunks := w.chunks[id := w.chunks[id].AllocMem(len).0])
    case Give(id, e) =>
      if id !in w.chunks || w.chunks[id].blkSize == 0 then w
      else
        var c := w.chunks[id];
        if !c.InRange(c.Va(e), e.len) then w
        else w.(chunks := w.chunks[id := c.FreeBlocks(c.BlkNum(c.Va(e)), c.BlkCnt(e.len))])
    case ClientAlloc(n) =>
      var (r, c) := w.kernel.Alloc(front, n);
      if c.None? then w else w.(kernel := r, clients := w.clients + {c.value.id})
    case ClientFree(id) =>
      w.(kernel := w.kernel.Free(id).0, clients := w.clients - {id})
  }

  /** The kernel can place n bytes without the as-written front placement, under a fresh id. */
  ghost predicate KernelSafe(front: Kmm.Front, r: Kmm.Region, n: nat) {
    !r.FrontHit(front, n) && forall c <- r.chunks :: c.id != r.NextId()
  }

  /** What the callers owe: block sizes that divide the rounded chunk size, from chunks with a
      partial last word of blocks only requests of one block or of all, and frees of what they hold. */
  ghost predicate Safe(front: Kmm.Front, w: World, op: Op) {
    match op
    case NewChunk(blk, total, va) =>
      blk > 0 && total > 0 ==>
        var size, b := RoundedTotal(total), RoundedBlock(blk, total);
        && KernelSafe(front, w.kernel, size)
        && size % b == 0 && Umm.Blocks(size, b) <= U32 - 32
        && forall id <- w.chunks :: w.chunks[id].baseVa + w.chunks[id].size <= va || va + size <= w.chunks[id].baseVa
    case DropChunk(id) => true
    case Take(id, len) =>
      id in w.chunks && len > 0 ==>
        var c := w.chunks[id];
        c.blkSize > 0 && Umm.Blocks(len, c.blkSize) < U32 && !Umm.MayOverrun(c.maxBlks, Umm.Blocks(len, c.blkSize))
    case Give(id, e) => id in w.chunks && e in w.chunks[id].live
    case ClientAlloc(n) => KernelSafe(front, w.kernel, n)
    case ClientFree(id) => id in w.clients
  }

  // ----- the kernel list under allocation and free

  lemma KernelAlloc(front: Kmm.Front, r: Kmm.Region, n: nat)
    requires r.Valid() && r.UniqueIds() && KernelSafe(front, r, n) && r.Alloc(front, n).1.Some?
    ensures var (r', c) := r.Alloc(front, n);
            && r'.Valid() && r'.UniqueIds() && c.value in r'.chunks
            && c.value.id == r.NextId() && c.value.size == n
            && forall x <- r.chunks :: x in r'.chunks
  {
    Kmm.AllocKeepsValidIff(r, front, n);
    Kmm.AllocKeepsUniqueIdsIff(r, front, n);
    Kmm.AllocKeepsOthers(r, front, n);
  }

  lemma KernelFree(r: Kmm.Region, id: nat)
    requires r.Valid() && r.UniqueIds()
    ensures var r' := r.Free(id).0;
            r'.Valid() && r'.UniqueIds() && forall x <- r.chunks :: x.id != id ==> x in r'.chunks
  {
    Kmm.FreeKeepsValid(r, id);
    Kmm.FreeKeepsOthers(r, id);
  }

  // ----- arithmetic of whole blocks

  lemma DividesFills(size: nat, b: nat)
    requires b > 0 && size % b == 0
    ensures Umm.Blocks(size, b) * b == size
  {
    assert size == size / b * b;
    Umm.BlocksOfMultiple(size / b, b);
  }

  lemma RoundedBlockPositive(blk: nat, total: nat)
    requires blk > 0 && total > 0
    ensures RoundedTotal(total) > 0 && RoundedBlock(blk, total) > 0
  {}

  /** A live allocation lies inside its chunk. */
  lemma ExtentInChunk(c: Umm.Chunk, e: Umm.Extent)
    requires c.Inv() && WholeBlocks(c) && e in c.live
    ensures e.blk * c.blkSize + e.len <= (e.blk + e.cnt) * c.blkSize <= c.size
    ensures e.cnt > 0
  {
    assert c.Taken(e);
    Umm.BlocksBounds(e.len, c.blkSize);
    Umm.MulSum(e.blk, e.cnt, c.blkSize);
    Umm.MulMono(e.blk + e.cnt, c.maxBlks, c.blkSize);
  }

  /** len bytes from block blk on, if the chunk has that many blocks, end inside the chunk. */
  ghost predicate EndsInside(size: nat, b: nat, blk: nat, len: nat)
    requires b > 0
  {
    len > 0 && blk + Umm.Blocks(len, b) <= Umm.Blocks(size, b) ==> blk * b + len <= size
  }

  /** Every request ends inside its chunk if and only if the block size divides the chunk size. */
  lemma EndsInsideIff(size: nat, b: nat)
    requires size > 0 && b > 0
    ensures (forall blk: nat, len: nat :: EndsInside(size, b, blk, len)) <==> Umm.Blocks(size, b) * b == size
  {
    var n := Umm.Blocks(size, b);
    if n * b == size {
      forall blk: nat, len: nat
        ensures EndsInside(size, b, blk, len)
      {
        if len > 0 && blk + Umm.Blocks(len, b) <= n { WholeBlocksEndInside(n, b, blk, len); }
      }
    } else {
      Umm.BlocksBounds(size, b);
      Umm.MulSum(n - 1, 1, b);
      assert !EndsInside(size, b, n - 1, b);
    }
  }

  lemma WholeBlocksEndInside(n: nat, b: nat, blk: nat, len: nat)
    requires b > 0 && blk + Umm.Blocks(len, b) <= n
    ensures blk * b + len <= n * b
  {
    Umm.BlocksBounds(len, b);
    Umm.MulSum(blk, Umm.Blocks(len, b), b);
    Umm.MulMono(blk + Umm.Blocks(len, b), n, b);
  }

  /** Freeing by address reaches exactly the blocks of the allocation. */
  lemma FreeNamesItsBlocks(c: Umm.Chunk, e: Umm.Extent)
    requires c.Inv() && WholeBlocks(c) && e in c.live
    ensures c.InRange(c.Va(e), e.len) && c.BlkNum(c.Va(e)) == e.blk && c.BlkCnt(e.len) == e.cnt
  {
    assert c.Taken(e);
    ExtentInChunk(c, e);
    Umm.BlkNumOfBlock(c, e.blk);
  }

  // ----- every step keeps the invariant

  /** A chunk under a new id joins the others. */
  lemma ChunkAdded(w: World, r: Kmm.Region, id: nat, c: Umm.Chunk)
    requires w.Placed() && r.Valid() && r.UniqueIds() && (forall x <- w.kernel.chunks :: x in r.chunks && x.id != id)
    requires Kmm.Chunk(c.basePa, c.size, id) in r.chunks
    requires forall a <- w.chunks :: w.chunks[a].baseVa + w.chunks[a].size <= c.baseVa
                                     || c.baseVa + c.size <= w.chunks[a].baseVa
    ensures w.(kernel := r, chunks := w.chunks[id := c]).Placed()
  {
    var w' := w.(kernel := r, chunks := w.chunks[id := c]);
    assert forall a <- w.chunks :: w.Backed(a) && a != id;
    forall a | a in w.clients
      ensures a != id && w'.Known(a)
    {
      assert w.Known(a);
    }
    forall a, b | a in w'.chunks && b in w'.chunks && a != b
      ensures w'.VaApart(a, b)
    {
      if a != id && b != id { assert w.VaApart(a, b); }
    }
  }

  /** A chunk's bitmap, counters and live set change; its place in memory does not. */
  lemma ChunkChanged(w: World, id: nat, c: Umm.Chunk)
    requires w.Inv() && id in w.chunks && SamePlace(c, w.chunks[id]) && c.Inv()
    ensures w.(chunks := w.chunks[id := c]).Inv()
  {
    PlaceKept(w, id, c);
  }

  predicate SamePlace(c: Umm.Chunk, d: Umm.Chunk) {
    c == d.(freeBlks := c.freeBlks, freeMem := c.freeMem, bmap := c.bmap, live := c.live)
  }

  lemma PlaceKept(w: World, id: nat, c: Umm.Chunk)
    requires w.Placed() && id in w.chunks && SamePlace(c, w.chunks[id])
    ensures w.(chunks := w.chunks[id := c]).Placed()
  {
    var w' := w.(chunks := w.chunks[id := c]);
    assert forall a <- w'.chunks :: w.Backed(a);
    assert forall a <- w.clients :: w.Known(a) && w'.Known(a);
    forall a, b | a in w'.chunks && b in w'.chunks && a != b
      ensures w'.VaApart(a, b)
    {
      assert w.VaApart(a, b);
    }
  }

  /** The kernel's list changes but keeps what chunks and clients hold. */
  lemma KernelChanged(w: World, r: Kmm.Region, chunks: map<nat, Umm.Chunk>, clients: set<nat>)
    requires w.Placed() && r.Valid() && r.UniqueIds()
    requires chunks.Keys <= w.chunks.Keys && (forall a <- chunks :: chunks[a] == w.chunks[a])
    requires clients !! chunks.Keys && (forall a <- clients :: World(r, chunks, clients).Known(a))
    requires forall x <- w.kernel.chunks :: x.id in chunks ==> x in r.chunks
    ensures World(r, chunks, clients).Placed()
  {
    var w' := World(r, chunks, clients);
    assert forall a <- chunks :: w.Backed(a);
    forall a, b | a in chunks && b in chunks && a != b
      ensures w'.VaApart(a, b)
    {
      assert w.VaApart(a, b);
    }
  }

  /** The kernel forgets an id that no remaining chunk or client uses. */
  lemma IdDropped(w: World, id: nat, chunks: map<nat, Umm.Chunk>, clients: set<nat>)
    requires w.Placed() && chunks == w.chunks - {id} && clients == w.clients - {id}
    ensures World(w.kernel.Free(id).0, chunks, clients).Placed()
  {
    var r := w.kernel.Free(id).0;
    KernelFree(w.kernel, id);
    forall a | a in clients
      ensures World(r, chunks, clients).Known(a)
    {
      assert w.Known(a);
    }
    KernelChanged(w, r, chunks, clients);
  }

  lemma NewChunkFilled(w: World, r: Kmm.Region, id: nat, size: nat, b: nat, pa: nat, va: nat)
    requires w.Filled() && size > 0 && b > 0 && size % b == 0 && Umm.Blocks(size, b) <= U32 - 32
    ensures w.(kernel := r, chunks := w.chunks[id := Umm.NewChunk(size, b, pa, va)]).Filled()
  {
    Umm.NewChunkInv(size, b, pa, va);
    DividesFills(size, b);
  }

  lemma NewChunkKeepsInv(front: Kmm.Front, w: World, blk: nat, total: nat, va: nat)
    requires w.Inv() && Safe(front, w, NewChunk(blk, total, va))
    ensures Step(front, w, NewChunk(blk, total, va)).Inv()
  {
    if blk == 0 || total == 0 { return; }
    RoundedBlockPositive(blk, total);
    var size, b := RoundedTotal(total), RoundedBlock(blk, total);
    var (r, k) := w.kernel.Alloc(front, size);
    if k.Some? {
      KernelAlloc(front, w.kernel, size);
      ChunkAdded(w, r, k.value.id, Umm.NewChunk(size, b, k.value.start, va));
      NewChunkFilled(w, r, k.value.id, size, b, k.value.start, va);
    }
  }

  lemma ClientAdded(w: World, r: Kmm.Region, id: nat)
    requires w.Placed() && r.Valid() && r.UniqueIds() && (forall x <- w.kernel.chunks :: x in r.chunks && x.id != id)
    requires exists x <- r.chunks :: x.id == id
    ensures World(r, w.chunks, w.clients + {id}).Placed()
  {
    var clients := w.clients + {id};
    assert forall a <- w.chunks :: w.Backed(a) && a != id;
    forall a | a in clients
      ensures World(r, w.chunks, clients).Known(a)
    {
      if a != id { assert w.Known(a); }
    }
    KernelChanged(w, r, w.chunks, clients);
  }

  lemma ClientAllocKeepsInv(front: Kmm.Front, w: World, n: nat)
    requires w.Inv() && Safe(front, w, ClientAlloc(n))
    ensures Step(front, w, ClientAlloc(n)).Inv()
  {
    if w.kernel.Alloc(front, n).1.Some? {
      KernelAlloc(front, w.kernel, n);
      ClientAdded(w, w.kernel.Alloc(front, n).0, w.kernel.Alloc(front, n).1.value.id);
    }
  }

  /** A request that cannot overrun keeps the chunk's books and its place. */
  lemma AllocInside(c: Umm.Chunk, len: nat)
    requires c.Inv() && 0 < len && Umm.Blocks(len, c.blkSize) < U32
    requires !Umm.MayOverrun(c.maxBlks, Umm.Blocks(len, c.blkSize))
    ensures c.BlkCnt(len) >= 1 && c.AllocMem(len).0.Inv()
    ensures var d := c.AllocMem(len).0;
            d == c.(bmap := d.bmap, freeBlks := d.freeBlks, freeMem := d.freeMem, live := d.live)
  {
    Umm.BlkCntExact(c, len);
    Umm.NoOverrun(c, len);
    Umm.AllocKeepsInvIff(c, len);
  }

  lemma TakeKeepsInv(front: Kmm.Front, w: World, id: nat, len: nat)
    requires w.Inv() && Safe(front, w, Take(id, len))
    ensures Step(front, w, Take(id, len)).Inv()
  {
    if id !in w.chunks { return; }
    var c := w.chunks[id];
    if len == 0 {
      assert w.chunks[id := c] == w.chunks;
    } else {
      AllocInside(c, len);
      ChunkChanged(w, id, c.AllocMem(len).0);
    }
  }

  lemma GiveKeepsInv(front: Kmm.Front, w: World, id: nat, e: Umm.Extent)
    requires w.Inv() && Safe(front, w, Give(id, e))
    ensures Step(front, w, Give(id, e)).Inv()
  {
    var c := w.chunks[id];
    FreeNamesItsBlocks(c, e);
    Umm.FreeKeepsInv(c, e);
    ChunkChanged(w, id, c.FreeBlocks(e.blk, e.cnt));
  }

  lemma DropKeepsInv(front: Kmm.Front, w: World, id: nat)
    requires w.Inv()
    ensures Step(front, w, DropChunk(id)).Inv()
  {
    if id in w.chunks && !w.chunks[id].InUse() {
      assert w.clients == w.clients - {id};
      IdDropped(w, id, w.chunks - {id}, w.clients);
    }
  }

  lemma ClientFreeKeepsInv(front: Kmm.Front, w: World, id: nat)
    requires w.Inv() && id in w.clients
    ensures Step(front, w, ClientFree(id)).Inv()
  {
    assert w.chunks == w.chunks - {id};
    IdDropped(w, id, w.chunks, w.clients - {id});
  }

  /** Every safe call keeps chunks placed and filled. */
  lemma StepKeepsInv(front: Kmm.Front, w: World, op: Op)
    requires w.Inv() && Safe(front, w, op)
    ensures Step(front, w, op).Inv()
  {
    match op
    case NewChunk(blk, total, va) => NewChunkKeepsInv(front, w, blk, total, va);
    case DropChunk(id) => DropKeepsInv(front, w, id);
    case Take(id, len) => TakeKeepsInv(front, w, id, len);
    case Give(id, e) => GiveKeepsInv(front, w, id, e);
    case ClientAlloc(n) => ClientAllocKeepsInv(front, w, n);
    case ClientFree(id) => ClientFreeKeepsInv(front, w, id);
  }

  // ----- whole runs

  /** Every call of the run keeps to what its caller owes in the state it is made in. */
  ghost predicate SafeRun(front: Kmm.Front, w: World, ops: seq<Op>)
    decreases |ops|
  {
    ops != [] ==> Safe(front, w, ops[0]) && SafeRun(front, Step(front, w, ops[0]), ops[1..])
  }

  ghost function Run(front: Kmm.Front, w: World, ops: seq<Op>): World
    decreases |ops|
  {
    if ops == [] then w else Run(front, Step(front, w, ops[0]), ops[1..])
  }

  lemma {:induction false} RunKeepsInv(front: Kmm.Front, w: World, ops: seq<Op>)
    requires w.Inv() && SafeRun(front, w, ops)
    ensures Run(front, w, ops).Inv()
    decreases |ops|
  {
    if ops != [] {
      StepKeepsInv(front, w, ops[0]);
      RunKeepsInv(front, Step(front, w, ops[0]), ops[1..]);
    }
  }

  function Boot(memType: nat, base: nat, size: nat): World { World(Kmm.Fresh(memType, base, size), map[], {}) }

  // ----- what the invariant is for

  lemma ChunkInRegion(w: World, id: nat)
    requires w.Placed() && id in w.chunks
    ensures w.kernel.base <= w.chunks[id].basePa && w.chunks[id].basePa + w.chunks[id].size <= w.kernel.End()
  {
    assert w.Backed(id);
  }

  /** Blocks of one chunk: disjoint block ranges are disjoint byte ranges. */
  lemma ApartInChunk(c: Umm.Chunk, e: Umm.Extent, f: Umm.Extent)
    requires c.Inv() && WholeBlocks(c) && e in c.live && f in c.live && e != f
    ensures e.blk * c.blkSize + e.len <= f.blk * c.blkSize || f.blk * c.blkSize + f.len <= e.blk * c.blkSize
  {
    ExtentInChunk(c, e);
    ExtentInChunk(c, f);
    assert Umm.Apart(e, f);
    if e.blk + e.cnt <= f.blk {
      Umm.MulMono(e.blk + e.cnt, f.blk, c.blkSize);
    } else {
      Umm.MulMono(f.blk + f.cnt, e.blk, c.blkSize);
    }
  }

  lemma KernelChunksApart(w: World, a: nat, b: nat)
    requires w.Placed() && a in w.chunks && b in w.chunks && a != b
    ensures var c, d := w.chunks[a], w.chunks[b];
            c.basePa + c.size <= d.basePa || d.basePa + d.size <= c.basePa
  {
    assert w.Backed(a) && w.Backed(b);
    var i :| 0 <= i < |w.kernel.chunks| && w.kernel.chunks[i] == Kmm.Chunk(w.chunks[a].basePa, w.chunks[a].size, a);
    var j :| 0 <= j < |w.kernel.chunks| && w.kernel.chunks[j] == Kmm.Chunk(w.chunks[b].basePa, w.chunks[b].size, b);
    assert i != j;
  }

  /** Offsets of a live allocation inside its chunk. */
  lemma LiveOffsets(w: World, id: nat, e: Umm.Extent)
    requires w.Filled() && id in w.chunks && e in w.chunks[id].live
    ensures 0 <= e.blk * w.chunks[id].blkSize && e.blk * w.chunks[id].blkSize + e.len <= w.chunks[id].size
  {
    ExtentInChunk(w.chunks[id], e);
  }

  /** A live allocation lies inside its chunk and inside the region. */
  lemma LiveInRegion(w: World, id: nat, e: Umm.Extent)
    requires w.Inv() && id in w.chunks && e in w.chunks[id].live
    ensures var c := w.chunks[id];
            && w.kernel.base <= c.basePa <= c.Pa(e)
            && c.Pa(e) + e.len <= c.basePa + c.size <= w.kernel.End()
  {
    LiveOffsets(w, id, e);
    ChunkInRegion(w, id);
  }

  /** Two live allocations share no byte of physical memory. */
  lemma LiveApart(w: World, a: nat, e: Umm.Extent, b: nat, f: Umm.Extent)
    requires w.Inv() && a in w.chunks && b in w.chunks && e in w.chunks[a].live && f in w.chunks[b].live
    requires a != b || e != f
    ensures var c, d := w.chunks[a], w.chunks[b];
            c.Pa(e) + e.len <= d.Pa(f) || d.Pa(f) + f.len <= c.Pa(e)
  {
    if a == b {
      ApartInChunk(w.chunks[a], e, f);
    } else {
      LiveOffsets(w, a, e);
      LiveOffsets(w, b, f);
      KernelChunksApart(w, a, b);
    }
  }

  /** xib_umem_get_phy_addr gives every byte of a live allocation its own physical address, inside
      the region. */
  lemma LivePhyAddr(w: World, id: nat, e: Umm.Extent, i: nat)
    requires w.Inv() && id in w.chunks && e in w.chunks[id].live && i < e.len
    ensures var c := w.chunks[id];
            && c.PhyAddr(c.Va(e) + i) == Some(c.Pa(e) + i)
            && w.kernel.base <= c.Pa(e) + i < w.kernel.End()
  {
    LiveInRegion(w, id, e);
  }

  /** It answers for an address outside the chunk with one outside the chunk, if at all: that happens
      only one past the end, which line 142 lets through. */
  lemma PhyAddrInChunkIff(c: Umm.Chunk, va: nat)
    ensures c.PhyAddr(va).Some? <==> c.baseVa <= va <= c.baseVa + c.size
    ensures c.PhyAddr(va).Some? ==>
              (c.basePa <= c.PhyAddr(va).value < c.basePa + c.size <==> va < c.baseVa + c.size)
  {}

  /** Different live bytes have different virtual and different physical addresses: byte i of e
      and byte j of f share one if and only if they are the same byte. */
  lemma VaToPaInjective(w: World, a: nat, e: Umm.Extent, i: nat, b: nat, f: Umm.Extent, j: nat)
    requires w.Inv() && a in w.chunks && b in w.chunks && e in w.chunks[a].live && f in w.chunks[b].live
    requires i < e.len && j < f.len
    ensures var va, vb := w.chunks[a].Va(e) + i, w.chunks[b].Va(f) + j;
            && w.chunks[a].PhyAddr(va) == Some(w.chunks[a].Pa(e) + i)
            && w.chunks[b].PhyAddr(vb) == Some(w.chunks[b].Pa(f) + j)
            && (w.chunks[a].PhyAddr(va) == w.chunks[b].PhyAddr(vb) <==> va == vb)
            && (va == vb <==> a == b && e == f && i == j)
  {
    LivePhyAddr(w, a, e, i);
    LivePhyAddr(w, b, f, j);
    LiveOffsets(w, a, e);
    LiveOffsets(w, b, f);
    if a != b {
      assert w.VaApart(a, b);
      KernelChunksApart(w, a, b);
    } else if e != f {
      ApartInChunk(w.chunks[a], e, f);
    }
  }

  /** So, over every run of safe calls from a fresh region, the bytes of live user memory, as the
      library translates their addresses, lie in the region and in no other live allocation. */
  lemma RunLiveApart(front: Kmm.Front, memType: nat, base: nat, size: nat, ops: seq<Op>, w: World,
                     a: nat, e: Umm.Extent, i: nat, b: nat, f: Umm.Extent)
    requires SafeRun(front, Boot(memType, base, size), ops) && w == Run(front, Boot(memType, base, size), ops)
    requires a in w.chunks && b in w.chunks && e in w.chunks[a].live && f in w.chunks[b].live
    requires (a != b || e != f) && i < e.len
    ensures var pa := w.chunks[a].PhyAddr(w.chunks[a].Va(e) + i);
            && pa.Some? && base <= pa.value < base + size
            && !(w.chunks[b].Pa(f) <= pa.value < w.chunks[b].Pa(f) + f.len)
  {
    RunKeepsInv(front, Boot(memType, base, size), ops);
    RunKeepsRegion(front, Boot(memType, base, size), ops);
    LiveApart(w, a, e, b, f);
    LivePhyAddr(w, a, e, i);
  }

  // ----- what a caller of xib_umem_alloc_mem gets

  /** e is what a successful call of xib_umem_alloc_mem added to chunk id, at address va. */
  ghost predicate Took(front: Kmm.Front, w: World, id: nat, len: nat, va: nat, e: Umm.Extent) {
    && id in w.chunks && len > 0
    && var c := w.chunks[id];
       && c.Inv() && c.BlkCnt(len) >= 1 && c.AllocMem(len).1 == Umm.Address(va)
       && Umm.HandsOut(c, len, c.AllocMem(len).0, va, e)
       && Step(front, w, Take(id, len)) == w.(chunks := w.chunks[id := c.AllocMem(len).0])
  }

  lemma TakeAnswers(front: Kmm.Front, w: World, id: nat, len: nat) returns (va: nat, e: Umm.Extent)
    requires w.Inv() && Safe(front, w, Take(id, len)) && id in w.chunks && len > 0
    requires w.chunks[id].BlkCnt(len) >= 1 && w.chunks[id].AllocMem(len).1.Address?
    ensures Took(front, w, id, len, va, e)
  {
    var c := w.chunks[id];
    Umm.NoOverrun(c, len);
    var d;
    d, va, e := Umm.AllocHandsOut(c, len);
  }

  /** The caller gets len bytes at va that no other live allocation, in this chunk or another, has at
      any address, virtual or physical. */
  lemma TakenApart(front: Kmm.Front, w: World, id: nat, len: nat, va: nat, e: Umm.Extent, b: nat, f: Umm.Extent)
    requires w.Inv() && Safe(front, w, Take(id, len)) && Took(front, w, id, len, va, e)
    requires b in w.chunks && f in w.chunks[b].live
    ensures var w' := Step(front, w, Take(id, len));
            && w'.Inv() && e in w'.chunks[id].live && va == w'.chunks[id].Va(e) && e.len == len
            && f in w'.chunks[b].live && (b != id || e != f)
            && Umm.BytesApart(va, len, w'.chunks[b].Va(f), f.len)
            && Umm.BytesApart(w'.chunks[id].Pa(e), len, w'.chunks[b].Pa(f), f.len)
  {
    TakeKeepsInv(front, w, id, len);
    var c, w' := w.chunks[id], Step(front, w, Take(id, len));
    Umm.HandedOutIsNew(c, len, c.AllocMem(len).0, va, e);
    LiveApart(w', id, e, b, f);
    if b == id {
      Umm.HandedOutIsApart(c, len, c.AllocMem(len).0, va, e, f);
    } else {
      assert w'.VaApart(id, b);
      LiveOffsets(w', id, e);
      LiveOffsets(w', b, f);
    }
  }

  lemma GiveIs(front: Kmm.Front, w: World, id: nat, e: Umm.Extent)
    requires w.Filled() && id in w.chunks && e in w.chunks[id].live
    ensures Step(front, w, Give(id, e)) == w.(chunks := w.chunks[id := w.chunks[id].FreeBlocks(e.blk, e.cnt)])
  {
    FreeNamesItsBlocks(w.chunks[id], e);
  }

  lemma TookFilled(front: Kmm.Front, w: World, id: nat, len: nat, va: nat, e: Umm.Extent, w': World)
    requires w.Inv() && Safe(front, w, Take(id, len)) && Took(front, w, id, len, va, e) && w' == Step(front, w, Take(id, len))
    ensures w'.Filled() && w' == w.(chunks := w.chunks[id := w'.chunks[id]]) && e in w'.chunks[id].live
    ensures w'.chunks[id].FreeBlocks(e.blk, e.cnt) == w.chunks[id]
  {
    TakeKeepsInv(front, w, id, len);
    var c := w.chunks[id];
    Umm.HandedOutIsNew(c, len, c.AllocMem(len).0, va, e);
    Umm.HandedOutUndone(c, len, c.AllocMem(len).0, va, e);
  }

  /** Giving it back undoes the call. */
  lemma GiveUndoesTake(front: Kmm.Front, w: World, id: nat, len: nat, va: nat, e: Umm.Extent)
    requires w.Inv() && Safe(front, w, Take(id, len)) && Took(front, w, id, len, va, e)
    ensures Step(front, Step(front, w, Take(id, len)), Give(id, e)) == w
  {
    var w' := Step(front, w, Take(id, len));
    TookFilled(front, w, id, len, va, e, w');
    GiveIs(front, w', id, e);
    assert w'.chunks[id := w.chunks[id]] == w.chunks;
  }

  // ----- nothing is kept back, nothing is lost

  /** Every chunk of the kernel belongs to the library or to a client. */
  ghost predicate Tight(w: World) { forall c <- w.kernel.chunks :: c.id in w.chunks || c.id in w.clients }

  lemma StepKeepsTight(front: Kmm.Front, w: World, op: Op)
    requires w.Placed() && Tight(w)
    ensures Tight(Step(front, w, op))
  {
    match op
    case NewChunk(blk, total, va) =>
      var n := RoundedTotal(total);
      if w.kernel.Alloc(front, n).1.Some? { Kmm.AllocAdds(w.kernel, front, n); }
    case DropChunk(id) => Kmm.FreeRemoves(w.kernel, id);
    case Take(id, len) =>
    case Give(id, e) =>
    case ClientAlloc(n) =>
      if w.kernel.Alloc(front, n).1.Some? { Kmm.AllocAdds(w.kernel, front, n); }
    case ClientFree(id) => Kmm.FreeRemoves(w.kernel, id);
  }

  /** Over every run of safe calls from a fresh region, no chunk of the kernel is without an owner: what
      was dropped or freed has gone back. */
  lemma {:induction false} RunKeepsTight(front: Kmm.Front, w: World, ops: seq<Op>)
    requires w.Inv() && Tight(w) && SafeRun(front, w, ops)
    ensures Tight(Run(front, w, ops))
    decreases |ops|
  {
    if ops != [] {
      StepKeepsInv(front, w, ops[0]);
      StepKeepsTight(front, w, ops[0]);
      RunKeepsTight(front, Step(front, w, ops[0]), ops[1..]);
    }
  }

  lemma BootTight(front: Kmm.Front, memType: nat, base: nat, size: nat, ops: seq<Op>)
    requires SafeRun(front, Boot(memType, base, size), ops)
    ensures Tight(Run(front, Boot(memType, base, size), ops))
  {
    RunKeepsTight(front, Boot(memType, base, size), ops);
  }

  /** The kernel has a gap of n bytes. */
  ghost predicate HasGap(r: Kmm.Region, n: nat) { exists i :: 0 <= i <= |r.chunks| && r.Fits(i, n) }

  lemma NewChunkIs(front: Kmm.Front, w: World, blk: nat, total: nat, va: nat, c: Kmm.Chunk)
    requires blk > 0 && total > 0 && w.kernel.Alloc(front, RoundedTotal(total)).1 == Some(c)
    ensures RoundedBlock(blk, total) > 0
    ensures Step(front, w, NewChunk(blk, total, va))
         == w.(kernel := w.kernel.Alloc(front, RoundedTotal(total)).0,
               chunks := w.chunks[c.id := Umm.NewChunk(c.size, RoundedBlock(blk, total), c.start, va)])
  {
    RoundedBlockPositive(blk, total);
  }

  lemma IdUnused(front: Kmm.Front, w: World, n: nat)
    requires w.Placed() && KernelSafe(front, w.kernel, n)
    ensures w.kernel.NextId() !in w.chunks && w.kernel.NextId() !in w.clients
  {
    assert forall id <- w.chunks :: w.Backed(id);
    assert forall id <- w.clients :: w.Known(id);
  }

  /** A chunk asked for is there afterwards, empty, with the sizes asked for, at the address that mmap
      chose, if and only if the kernel has a gap for it; otherwise nothing changed. */
  lemma NewChunkServedIff(front: Kmm.Front, w: World, blk: nat, total: nat, va: nat, w': World)
    requires w.Inv() && blk > 0 && total > 0 && Safe(front, w, NewChunk(blk, total, va))
    requires w' == Step(front, w, NewChunk(blk, total, va))
    ensures var id := w.kernel.NextId();
            if HasGap(w.kernel, RoundedTotal(total)) then
              && id !in w.chunks && w'.chunks.Keys == w.chunks.Keys + {id} && w'.clients == w.clients
              && (forall x <- w.chunks :: w'.chunks[x] == w.chunks[x])
              && var c := w'.chunks[id];
                 c.size == RoundedTotal(total) && c.blkSize == RoundedBlock(blk, total) && c.baseVa == va && c.live == {}
            else w' == w
  {
    var n := RoundedTotal(total);
    Kmm.RefusedIffNoGap(w.kernel, front, n);
    if w.kernel.Alloc(front, n).1.Some? {
      NewChunkIs(front, w, blk, total, va, w.kernel.Alloc(front, n).1.value);
      IdUnused(front, w, n);
    }
  }

  /** The same for the kernel's other clients. */
  lemma ClientServedIff(front: Kmm.Front, w: World, n: nat)
    requires w.Inv() && Safe(front, w, ClientAlloc(n))
    ensures var w' := Step(front, w, ClientAlloc(n));
            if HasGap(w.kernel, n) then
              w'.chunks == w.chunks && w'.clients == w.clients + {w.kernel.NextId()} && w.kernel.NextId() !in w.clients
            else w' == w
  {
    Kmm.RefusedIffNoGap(w.kernel, front, n);
    IdUnused(front, w, n);
  }

  // ----- sizes of new chunks

  /** A chunk asked for as one block, whatever its size, is one block; otherwise the block size is the
      caller's. */
  lemma RoundedBlockIs(blk: nat, total: nat)
    requires blk > 0 && total > 0
    ensures blk == total < U32 ==> Umm.Blocks(RoundedTotal(total), RoundedBlock(blk, total)) == 1
    ensures blk != total ==> RoundedBlock(blk, total) == blk
    ensures RoundedTotal(total) % PAGE_SIZE == 0
  {
    Umm.PageRoundWhole(total, PAGE_SIZE);
  }

  lemma {:induction false} RunKeepsRegion(front: Kmm.Front, w: World, ops: seq<Op>)
    ensures Run(front, w, ops).kernel.base == w.kernel.base && Run(front, w, ops).kernel.size == w.kernel.size
    decreases |ops|
  {
    if ops != [] { RunKeepsRegion(front, Step(front, w, ops[0]), ops[1..]); }
  }

  /** A chunk goes away only when nothing in it is live. */
  lemma DropOnlyUnused(front: Kmm.Front, w: World, id: nat)
    requires w.Inv() && id in w.chunks
    ensures id !in Step(front, w, DropChunk(id)).chunks <==> w.chunks[id].live == {}
  {
    Umm.UnusedIffNothingLive(w.chunks[id]);
  }
}
