# Verified models of an RDMA (ERNIC) software stack

Dafny models of the parts of the stack that carry state: the two-level DMA memory manager, the
BRAM and external-DDR allocator of the driver, the send, receive and notification rings of the verbs
layer, the rping protocol between the host client and the board server, connection set-up by three
threads, and the hardware-handshake contexts over the register file.

`dafny verify dfyconfig.toml` checks everything.

| file | models |
|---|---|
| `BitOps.dfy` | the packed 32-bit bitmap and its search |
| `Kmm.dfy` | the kernel memory manager: first fit over a sorted chunk list |
| `Umm.dfy`, `ChunkList.dfy` | the user memory manager: blocks inside a chunk, and the linked list of chunks |
| `Lookup.dfy` | chunk ids from the kernel to the list of the library |
| `Dma.dfy` | both managers together |
| `FreeList.dfy` | the BRAM/EDDR free list with splitting and coalescing |
| `Rings.dfy` | counters that go round a ring: slots 0..max-1, doorbells 0, 1, ..., max, 1, ... |
| `SendQueue.dfy` | posting sends, hardware completions, polling, bounce buffers |
| `Scatter.dfy`, `Notices.dfy`, `RecvQueue.dfy` | scatter lists, immediate and invalidate notices, the receive queue |
| `Rping.dfy` | the ping/pong protocol |
| `Connect.dfy` | connection set-up |
| `HwHandshake.dfy` | handshake contexts and queue-pair registers |

How the models are built:

- Where the source updates state in loops, a class holds its fields and its methods carry out the
  loops; each method is proved against a function or predicate on values, and the properties are
  proved about those. Protocols and interleavings are state machines; every critical section, and
  every turn of a loop that shares data with another lock or with the hardware, is a step of its own.
- Rings and queues are related to the history of what really happened (everything posted,
  completed, arrived, polled), which no method can read.
- Two lines are kept in two versions, `AsWritten` and `Repaired`, because the code does something
  else than it evidently means: `xib_kmm.c:279` places a chunk that fits into the front gap at the
  first chunk's own address, and `mem.c:131` adds the freed size, not the lower block's own, when it
  looks for a lower neighbour. Both versions are compared with the invariant, as an if-and-only-if.
- Where the code meets a property only under a condition, the lemma states the exact condition
  (names ending in `Iff`), and a concrete family of inputs shows the failure.

What the surroundings owe, in each state machine's `Allowed`, `Owed` or `Safe`: callers keep at most
max_wr - 1 entries of a ring unpolled; the hardware completes requests in order and writes a notice
per packet into a free descriptor; the peer sends only to posted receives; receive buffers that are
in use do not overlap; the connection manager announces each connection once and acknowledges it at
most once, after it was accepted; block sizes divide chunk sizes, and chunks with a partial last word
of blocks are asked for one block or for all; a free names a live allocation and its recorded size.

Differences between code and documentation or evident intent that the proofs brought out:

- `find_zero_bits` can answer past a partial last word, although as many blocks are free as were asked
  for (`Umm.OverrunReached`), and can miss a run right after a failed carry (`Umm.MissPossibleIff`).
- A free at an address inside a block can clear one block too many, one past a map that fills its words
  (`Umm.FreeLeavesMapIff`); a free of 2^32 bytes and more is range-checked by its low 32 bits only
  (`Umm.LongFreeOvershoots`).
- An allocation of 2^32 blocks and more gets as many as the low 32 bits say (`Umm.BlkCntCoversIff`).
- A free that the BRAM allocator refuses may already have lengthened a free block
  (`FreeList.RefusedYetChanged`).
- Callers of the BRAM allocator give back the length they asked for, not the size they were given
  (`FreeList.UnroundedFreeBreaks`).
- Page rounding at `umm.c:418-420` is right only for aligned sizes or sizes below 2^32.
- `xib_umem_alloc_mem` answers a zero size with -EINVAL cast to an address, not with the
  invalid-address constant (`Umm.AllocResult`).
- A `count` of 0 means "for ever" to the rping client and one round to the server (`Rping.RunEnds`).
- A receive completion that is polled before its notice was handled lacks its immediate data, which
  then lies in wait for the packet one lap later (`RecvQueue.LateNoticeRun`, `RecvQueue.LateIsMisreported`).
- Committing another queue pair into an occupied context slot leaves the old one in handshake mode
  even after a reset (`HwHandshake.LostSurvivesReset`).
- `setup_qps` leaves the software override off even if it was on before.

## Model

| member | source | states |
|---|---|---|
| `BitOps.Ctz` | code/meta-user/recipes-apps/umm/files/bit_ops.c:20-32 | counts the clear bits from `from` on, up to a limit that wraps at 2^32; a count below the limit ends at a set bit |
| `BitOps.Ffz` | code/meta-user/recipes-apps/umm/files/bit_ops.c:41-57 | the next clear bit of a word, cut at the bit limit, with the all-zero and all-ones shortcuts and their answers |
| `BitOps.FindZeroBits` | code/meta-user/recipes-apps/umm/files/bit_ops.c:59-108 | terminates; the answer is the lowest start of a run of `cnt` clear bits, across any number of words, that lines 80-83 do not pass over, or `maxBits` when there is none |
| `BitOps.SingleBlockIsLowest` | code/meta-user/recipes-apps/umm/files/bit_ops.c:59-108 | for one block the answer is exactly the lowest clear bit, or `maxBits`, for every `maxBits` |
| `BitOps.FitsEveryMapIff` | code/meta-user/recipes-apps/umm/files/bit_ops.c:59-108 | the answer lies inside the map for every map, if and only if the map fills its words or one block is asked for |
| `BitOps.LongerRunIsFound` | code/meta-user/recipes-apps/umm/files/bit_ops.c:76-103 | what is passed over is at most one start: a run with one block to spare is always found, at most one block late |
| `BitOps.FoundInEveryMapIff` | code/meta-user/recipes-apps/umm/files/bit_ops.c:59-108 | in every map of n blocks the answer is no later than any run of cnt free blocks, if and only if cnt is 1 or n <= cnt + 32 |
| `BitOps.PairMissed` | code/meta-user/recipes-apps/umm/files/bit_ops.c:80-83 | a map of 64 blocks with two free neighbours for which the search for two answers "none" |
| `BitOps.UpdateBitMap` | code/meta-user/recipes-apps/umm/files/bit_ops.c:110-139 | sets or clears exactly bits start to start+cnt-1, across any number of words, and no other |
| `BitOps.ClearUndoesSet` | code/meta-user/recipes-apps/umm/files/bit_ops.c:141-149 | clearing a range that was clear before it was set gives back the very same words |
| `BitOps.ClearCountsDown` | code/meta-user/recipes-apps/umm/files/bit_ops.c:146-149 | clearing cnt bits lowers the number of set bits by cnt if and only if all of them were set |
| `Kmm.AvailableIsTheGaps` | code/meta-user/recipes-modules/xib-kmm/files/xib_kmm.c:224-311 | available_size equals the sum of the gaps between the chunks |
| `Kmm.RefusedIffNoGap` | code/meta-user/recipes-modules/xib-kmm/files/xib_kmm.c:246-303 | a request is refused exactly when no gap is large enough, although the code first compares with available_size |
| `Kmm.FirstFitIsLowestFit` | code/meta-user/recipes-modules/xib-kmm/files/xib_kmm.c:263-302 | with line 279 repaired, the chunk handed out is at the lowest address of the whole region where that many bytes are free, and a refusal means that there is no such address |
| `Kmm.AllocKeepsValidIff` | code/meta-user/recipes-modules/xib-kmm/files/xib_kmm.c:224-311 | allocation keeps the list sorted, disjoint, in region and accounted for, if and only if it does not take the front gap as line 279 has it |
| `Kmm.FreeKeepsValid` | code/meta-user/recipes-modules/xib-kmm/files/xib_kmm.c:313-352 | freeing any id, known or not, keeps that invariant |
| `Kmm.FreeRemoves` | code/meta-user/recipes-modules/xib-kmm/files/xib_kmm.c:313-352 | exactly the chunk with the id is gone, and the call says whether there was one |
| `Kmm.CloseKeepsValid` | code/meta-user/recipes-modules/xib-kmm/files/xib_kmm.c:422-444 | so does the last close, which leaves the whole region available |
| `Kmm.FreeUndoesAlloc` | code/meta-user/recipes-modules/xib-kmm/files/xib_kmm.c:224-352 | freeing the id just issued restores the region but for the id counter |
| `Kmm.RunValidIff` | code/meta-user/recipes-modules/xib-kmm/files/xib_kmm.c:224-352 | over every run of allocations, frees and closes: every state is valid if and only if no call takes the front gap as written |
| `Kmm.RepairedRunsAreValid` | code/meta-user/recipes-modules/xib-kmm/files/xib_kmm.c:263-302 | with line 279 repaired every run from a fresh region is valid |
| `Kmm.FrontGapOverlap` | code/meta-user/recipes-modules/xib-kmm/files/xib_kmm.c:278-280 | for every region and size: allocate twice, free the first, allocate again, and two live chunks with different ids are the same bytes |
| `Kmm.AllocKeepsUniqueIdsIff` | code/meta-user/recipes-modules/xib-kmm/files/xib_kmm.c:305-307 | ids stay unique if and only if the wrapped 24-bit counter has not come round to a live chunk |
| `Kmm.IdCarriesType` | code/meta-user/recipes-modules/xib-kmm/files/xib_kmm.c:305-307 | an id carries its memory type, however often the counter has wrapped |
| `Kmm.RunKeepsIds` | code/meta-user/recipes-modules/xib-kmm/files/xib_kmm.c:305-307 | over every run whose successful allocations bring the ids issued to fewer than 2^24, however many calls it makes, an id names one chunk |
| `Kmm.Node.constructor` | code/meta-user/recipes-modules/xib-kmm/files/xib_kmm.c:466-510 | a fresh region: no chunks, everything available |
| `Kmm.Node.FindGap` | code/meta-user/recipes-modules/xib-kmm/files/xib_kmm.c:263-302 | the walk over the list finds the first gap that fits, and where the chunk goes |
| `Kmm.Node.AllocMem` | code/meta-user/recipes-modules/xib-kmm/files/xib_kmm.c:224-311 | the list, available_size and max_chunk afterwards, and the chunk handed out |
| `Kmm.Node.FreeMem` | code/meta-user/recipes-modules/xib-kmm/files/xib_kmm.c:313-352 | the first chunk with the id is unlinked and its size returned; an unknown id changes nothing |
| `Kmm.Node.Close` | code/meta-user/recipes-modules/xib-kmm/files/xib_kmm.c:422-444 | the loop returns every chunk |
| `Umm.SizeToBlocks` | code/meta-user/recipes-apps/umm/files/umm.h:59 | the macro computes the least number of blocks that hold the bytes |
| `Umm.PageRoundCoversIff` | code/meta-user/recipes-apps/umm/files/umm.c:418-420 | page rounding covers the size asked for, if and only if the size is aligned or below 2^32 |
| `Umm.PageRoundWhole` | code/meta-user/recipes-apps/umm/files/umm.c:418-420 | and gives whole pages |
| `Umm.NewChunkInv` | code/meta-user/recipes-apps/umm/files/umm.c:182-244 | a new chunk keeps the books: counters, bitmap and live allocations agree |
| `Umm.BlkCntCoversIff` | code/meta-user/recipes-apps/umm/files/umm.c:294 | the block count, cut to 32 bits, covers the bytes asked for if and only if they are fewer than 2^32 blocks |
| `Umm.AllocKeepsInvIff` | code/meta-user/recipes-apps/umm/files/umm.c:276-313 | an allocation of any size keeps live allocations disjoint, inside the chunk, equal to the set bits and counted, if and only if the search did not run past the map and what was handed out is not short because its block count was cut |
| `Umm.AllocHandsOut` | code/meta-user/recipes-apps/umm/files/umm.c:300-309 | a successful call that does not overrun takes a run of free blocks that holds the bytes, and answers with its address |
| `Umm.HandedOutIsApart` | code/meta-user/recipes-apps/umm/files/umm.c:300-309 | no other live allocation has any of the bytes at the address handed out |
| `Umm.HandedOutUndone` | code/meta-user/recipes-apps/umm/files/umm.c:276-344 | giving back exactly that address and size restores the chunk |
| `Umm.AllocRefusals` | code/meta-user/recipes-apps/umm/files/umm.c:276-313 | a zero size is a bad size; otherwise refused if and only if too few blocks are clear or the search finds no place; a refused call changes nothing |
| `Umm.OverrunPossibleIff` | code/meta-user/recipes-apps/umm/files/umm.c:261-313 | for n blocks of any size and a request of cnt: some chunk that keeps its books overruns, if and only if n is no multiple of 32 and 1 < cnt < n |
| `Umm.OverrunReached` | code/meta-user/recipes-apps/umm/files/umm.c:261-344 | three calls on a new chunk lead to one that does: take one block, take n - cnt, give the first back; then ask for cnt |
| `Umm.NoOverrun` | code/meta-user/recipes-apps/umm/files/umm.c:261-313 | otherwise no allocation from a chunk that keeps its books overruns |
| `Umm.MissPossibleIff` | code/meta-user/recipes-apps/umm/files/umm.c:261-313 | some chunk of n blocks that keeps its books refuses cnt of them although that many neighbours are free, if and only if cnt > 1 and n >= cnt + 33, or cnt + 34 when n is no multiple of 32 |
| `Umm.FreeKeepsInvIff` | code/meta-user/recipes-apps/umm/files/umm.c:315-344 | a free that clears something keeps the books if and only if it names the blocks of one live allocation |
| `Umm.FreeReachIff` | code/meta-user/recipes-apps/umm/files/umm.c:326-338 | over all chunks that keep their books and all addresses: a free that passes the range check reaches at most one block past the last, if and only if its size is below 2^32 |
| `Umm.FreeLeavesMapIff` | code/meta-user/recipes-apps/umm/files/umm.c:326-338 | for those sizes the block past the last is outside the map if and only if the map fills its words |
| `Umm.LongFreeOvershoots` | code/meta-user/recipes-apps/umm/files/umm.h:150-156 | for every size of 2^32 and more, a chunk on which a free at its start passes the range check, which compares the low 32 bits, and clears blocks outside the map |
| `Umm.AlignedFreeStaysIff` | code/meta-user/recipes-apps/umm/files/umm.h:145-156 | a free from the start of a block stays inside the chunk, over all chunks, if and only if its size is below 2^32 |
| `Umm.FreeUndoesAlloc` | code/meta-user/recipes-apps/umm/files/umm.c:261-344 | allocating and freeing gives back the chunk, words and counters included |
| `Umm.UnusedIffNothingLive` | code/meta-user/recipes-apps/umm/files/umm.h:163-166 | is_chunk_in_use is false exactly when no block of the chunk is live |
| `Umm.UmemChunk.constructor` | code/meta-user/recipes-apps/umm/files/umm.c:195-232 | the chunk as update_umem_table fills it in |
| `Umm.UmemChunk.ReserveMemBlocks` | code/meta-user/recipes-apps/umm/files/umm.c:261-274 | the answer of the bitmap search, and the bitmap and counters after it |
| `Umm.UmemChunk.AllocMem` | code/meta-user/recipes-apps/umm/files/umm.c:276-313 | the address or the error, and the whole chunk afterwards |
| `Umm.UmemChunk.FreeMem` | code/meta-user/recipes-apps/umm/files/umm.c:315-344 | the range check, and the whole chunk afterwards |
| `ChunkList.List.Append` | code/meta-user/recipes-apps/umm/files/umm.c:234-240 | head and tail pointers spell out the old sequence with the chunk at its end |
| `ChunkList.List.Find` | code/meta-user/recipes-apps/umm/files/umm.c:246-259 | the first node with the id, or null when there is none |
| `ChunkList.List.Delete` | code/meta-user/recipes-apps/umm/files/umm.c:53-102 | exactly the first node with the id leaves; order, head and tail stay right |
| `Lookup.LookupFinds` | code/meta-user/recipes-apps/umm/files/umm.c:246-259 | over every run that issues fewer than 2^24 ids, looking up the id of a chunk in the linked list finds the node of that very chunk, which the kernel still holds |
| `Lookup.LookupSucceedsIff` | code/meta-user/recipes-apps/umm/files/umm.c:246-259 | the lookup succeeds for exactly the ids that the kernel has issued, not taken back, and not given to another user |
| `Dma.StepKeepsInv` | code/meta-user/recipes-apps/umm/files/umm.c:129-344 | every call of either manager that keeps to its conditions leaves chunks backed by the kernel list and blocks inside chunks |
| `Dma.RunKeepsInv` | code/meta-user/recipes-apps/umm/files/umm.c:129-442 | so does every run of calls of both managers |
| `Dma.LiveInRegion` | code/meta-user/recipes-apps/umm/files/umm.c:276-313 | a live allocation lies inside its chunk and inside the region |
| `Dma.LivePhyAddr` | code/meta-user/recipes-apps/umm/files/umm.c:129-149 | the translation of byte i of a live allocation is byte i of its physical memory, inside the region |
| `Dma.PhyAddrInChunkIff` | code/meta-user/recipes-apps/umm/files/umm.c:142-147 | an address is translated if and only if it is in the chunk or one past its end, and the answer is in the chunk if and only if it is not that one |
| `Dma.RunLiveApart` | code/meta-user/recipes-apps/umm/files/umm.c:129-344 | over every run from a fresh region, the translated address of every byte of a live allocation lies in the region and in no other live allocation |
| `Dma.TakeAnswers` | code/meta-user/recipes-apps/umm/files/umm.c:276-313 | what a successful call in a safe run hands out |
| `Dma.TakenApart` | code/meta-user/recipes-apps/umm/files/umm.c:276-313 | the caller gets bytes that no live allocation of any chunk has, at virtual or physical addresses |
| `Dma.GiveUndoesTake` | code/meta-user/recipes-apps/umm/files/umm.c:276-344 | giving them back restores the world |
| `Dma.NewChunkServedIff` | code/meta-user/recipes-apps/umm/files/umm.c:384-442 | a chunk asked for is there, empty, with the sizes asked for, if and only if the kernel has a gap for it |
| `Dma.ClientServedIff` | code/meta-user/recipes-modules/xib-kmm/files/xib_kmm.c:395-419 | the same for the kernel's other clients |
| `Dma.BootTight` | code/meta-user/recipes-apps/umm/files/umm.c:151-180 | over every run no chunk of the kernel is without an owner: what was dropped or freed has gone back |
| `Dma.RoundedBlockIs` | code/meta-user/recipes-apps/umm/files/umm.c:418-423 | a chunk asked for as one block is one block after rounding; otherwise the block size is the caller's |
| `Dma.VaToPaInjective` | code/meta-user/recipes-apps/umm/files/umm.c:129-149 | different live bytes have different virtual addresses and different translations |
| `Dma.DropOnlyUnused` | code/meta-user/recipes-apps/umm/files/umm.c:151-180 | freeing a chunk succeeds only when no block in it is live |
| `Dma.EndsInsideIff` | code/meta-user/recipes-apps/umm/files/umm.c:195-213 | every request that the block count admits ends inside the chunk, if and only if the block size divides the chunk size |
| `Dma.FreeNamesItsBlocks` | code/meta-user/recipes-apps/umm/files/umm.h:145-156 | the address and size of a live allocation pass the range check and name exactly its blocks |
| `FreeList.ReleaseIff` | code/meta-user/recipes-modules/xib-module/files/mem.c:96-199 | giving bytes back keeps the free list sorted (and coalesced) with exactly those bytes added, if and only if line 131 neither misfires nor overlooks the lower neighbour |
| `FreeList.ReleaseTotal` | code/meta-user/recipes-modules/xib-module/files/mem.c:96-199 | whatever line 131 does, the byte total of the list is right |
| `FreeList.CarveTakes` | code/meta-user/recipes-modules/xib-module/files/mem.c:225-262 | the block taken comes out of the list whole, and nothing else does |
| `FreeList.CarveRefusesIff` | code/meta-user/recipes-modules/xib-module/files/mem.c:225-262 | a request is refused exactly when every free block is too small |
| `FreeList.CarveCuts` | code/meta-user/recipes-modules/xib-module/files/mem.c:225-243 | the first large enough block is cut at its front when a whole unit is left over |
| `FreeList.CarveWhole` | code/meta-user/recipes-modules/xib-module/files/mem.c:244-250 | and taken whole otherwise |
| `FreeList.RoundUpIs` | code/meta-user/recipes-modules/xib-module/files/mem.c:218 | the size becomes the least multiple of 256 that covers it, or 0 when that does not fit a u32 |
| `FreeList.NewRegionRounded` | code/meta-user/recipes-modules/xib-module/files/mem.c:78-266 | in every run of owed calls on an aligned region every free and allocated block starts at a multiple of 256 and is one long |
| `FreeList.AllocKeepsInvIff` | code/meta-user/recipes-modules/xib-module/files/mem.c:211-266 | free and allocated blocks partition the region after an allocation, if and only if no empty block was recorded, which happens exactly when the rounded size is zero and the first free block is large |
| `FreeList.AllocEnough` | code/meta-user/recipes-modules/xib-module/files/mem.c:218-250 | what is handed out covers the request |
| `FreeList.FreeKeepsInvIff` | code/meta-user/recipes-modules/xib-module/files/mem.c:145-199 | giving an allocation back keeps the partition if and only if the size is the recorded one and line 131 is not at fault |
| `FreeList.FreeAccepted` | code/meta-user/recipes-modules/xib-module/files/mem.c:145-199 | a live allocation, or its first bytes, can always be given back, whatever line 131 does |
| `FreeList.RepairedAcceptedIff` | code/meta-user/recipes-modules/xib-module/files/mem.c:145-199 | with line 131 repaired a free is accepted if and only if it fits the total and its address is not free already |
| `FreeList.RefusedChangesIff` | code/meta-user/recipes-modules/xib-module/files/mem.c:105-117 | a refused free changes the list if and only if the walk has already grown a block below; never on a coalesced list with line 131 repaired |
| `FreeList.RefusedYetChanged` | code/meta-user/recipes-modules/xib-module/files/mem.c:131-135 | as written it does |
| `FreeList.UnknownFreeBreaks` | code/meta-user/recipes-modules/xib-module/files/mem.c:78-94 | giving back an address that is no allocation's leaves the table alone and, if accepted, loses the partition |
| `FreeList.UnroundedFreeBreaks` | code/meta-user/recipes-modules/xib-module/files/mem.c:211-266 | giving back the length asked for, as callers do (mem.c:499-527), when the block handed out is larger: the call is accepted and the partition is lost |
| `FreeList.RepairedFreeKeepsInv` | code/meta-user/recipes-modules/xib-module/files/mem.c:96-199 | with line 131 repaired the recorded size is always accepted and keeps the partition |
| `FreeList.FreeUndoesAllocIff` | code/meta-user/recipes-modules/xib-module/files/mem.c:145-266 | freeing a fresh allocation restores free list, allocation list and counter exactly, if and only if line 131 is not at fault |
| `FreeList.CoalescedIsUnique` | code/meta-user/recipes-modules/xib-module/files/mem.c:96-143 | a coalesced list is determined by the bytes it holds |
| `FreeList.RunInvIff` | code/meta-user/recipes-modules/xib-module/files/mem.c:78-266 | over every run of owed calls: sorted, disjoint, coalesced, a partition of the region, and free_mem the sum of the free blocks in every state, if and only if line 131 is never at fault |
| `FreeList.RepairedRunsKeepInv` | code/meta-user/recipes-modules/xib-module/files/mem.c:268-392 | with line 131 repaired, every such run from a new region |
| `FreeList.MisfireRun` | code/meta-user/recipes-modules/xib-module/files/mem.c:131-135 | from a new region of 4u bytes: take u, u and 2u, give back the first and the last, and line 131 as written has freed the one in between, which is still allocated |
| `FreeList.MemMgr.IsMemOverlapped` | code/meta-user/recipes-modules/xib-module/files/mem.c:96-143 | the loop merges as the list function says, or reports where to insert, or the overlap |
| `FreeList.MemMgr.FreeMemAlloc` | code/meta-user/recipes-modules/xib-module/files/mem.c:145-199 | the whole manager afterwards, and whether the call was accepted |
| `FreeList.MemMgr.FreeAllocTable` | code/meta-user/recipes-modules/xib-module/files/mem.c:78-94 | the record of the address leaves the allocation list |
| `FreeList.MemMgr.AllocMem` | code/meta-user/recipes-modules/xib-module/files/mem.c:211-266 | the whole manager afterwards, and the block or the refusal |
| `Rings.EmptyTestIff` | code/meta-user/recipes-modules/xib-module/files/verbs.c:1109 | comparing two doorbell values tells empty from not, if and only if the ring has not gone a full lap |
| `SendQueue.GuardExact` | code/meta-user/recipes-modules/xib-module/files/verbs.c:1101-1109 | the loop stops exactly when every completion known at the head read has been gone through |
| `SendQueue.FullRingReadsEmpty` | code/meta-user/recipes-modules/xib-module/files/verbs.c:1109 | with max_wr completions waiting, a used ring reads as empty |
| `SendQueue.PollOneLinked` | code/meta-user/recipes-modules/xib-module/files/verbs.c:1110-1204 | one turn reports the oldest unpolled request if it was signaled, and releases its own bounce buffer only |
| `SendQueue.PollEnds` | code/meta-user/recipes-modules/xib-module/files/verbs.c:1101-1205 | a poll ends; it returns at most as many ids as it was asked for, and fewer only with every known completion taken |
| `SendQueue.RunKeepsInv` | code/meta-user/recipes-modules/xib-module/files/verbs.c:1101-1205 | in every interleaving of posts, completions and turns of polls of any size, across every wrap: the ids returned are the signaled posted ids in posting order, and the live bounce buffers are exactly those of the unpolled SENDs |
| `SendQueue.RunDrained` | code/meta-user/recipes-modules/xib-module/files/verbs.c:1101-1205 | from a new queue, once everything is polled, every signaled id was returned once and no buffer is left |
| `SendQueue.SendRing.SendWr` | code/meta-user/recipes-modules/xib-module/files/rnic.c:52-67 | the doorbell after the n-th request is the n-th of 0, 1, ..., max_wr, 1, ..., and the index the slot of the next |
| `SendQueue.SendRing.PostSend` | code/meta-user/recipes-modules/xib-module/files/main.c:1860-2001 | the whole list of requests is queued in order, each with its own buffer |
| `SendQueue.SendRing.PollSend` | code/meta-user/recipes-modules/xib-module/files/verbs.c:1101-1205 | returns the ids of the next signaled completions, at most num_entries, fewer only when no completion is left |
| `Scatter.CopyOut` | code/meta-user/recipes-modules/xib-module/files/verbs.c:1032-1038 | the scatter list holds the packet afterwards, part by part |
| `Scatter.ScatterKeepsList` | code/meta-user/recipes-modules/xib-module/files/verbs.c:1032-1038 | data in other, non-overlapping lists stays |
| `Notices.HandleLands` | code/meta-user/recipes-modules/xib-module/files/axidma.c:168-195 | handling the oldest notice writes the slot of its own packet, which is also that of the packet a lap later |
| `Notices.HandleKeepsBase` | code/meta-user/recipes-modules/xib-module/files/axidma.c:168-195 | the descriptor ring keeps exactly the waiting notices in order, across every wrap |
| `Notices.TakeReportsIff` | code/meta-user/recipes-modules/xib-module/files/verbs.c:1087-1096 | as long as every earlier poll was in time, a completion carries its own packet's record if and only if that packet's notice was handled by then |
| `RecvQueue.RqRecdExactIff` | code/meta-user/recipes-modules/xib-module/files/verbs.c:969-985 | the count is the true number of new packets, if and only if the ring has not gone a full lap since the last pop |
| `RecvQueue.PopLinked` | code/meta-user/recipes-modules/xib-module/files/verbs.c:1018-1046 | packet k is paired with receive request k |
| `RecvQueue.PopData` | code/meta-user/recipes-modules/xib-module/files/verbs.c:1025-1038 | its bytes end up in that request's buffers and no other delivered data is touched |
| `RecvQueue.PollReports` | code/meta-user/recipes-modules/xib-module/files/verbs.c:1077-1099 | a turn reports the next request, while its buffers hold its packet, whether or not its notice was handled |
| `RecvQueue.PollRightIff` | code/meta-user/recipes-modules/xib-module/files/verbs.c:1077-1099 | after timely turns, a turn reports the right record if and only if the notice was handled in time; what it reported is final |
| `RecvQueue.RunKeepsInv` | code/meta-user/recipes-modules/xib-module/files/verbs.c:928-1099 | in every interleaving of posts, packets, notices, their handling and turns of polls: ids in order, and buffers that hold their own packet from the pop to the poll |
| `RecvQueue.RunRightIff` | code/meta-user/recipes-modules/xib-module/files/verbs.c:1077-1099 | in every run all records reported are right, if and only if every poll turn came after its packet's notice was handled |
| `RecvQueue.LateIsMisreported` | code/meta-user/recipes-modules/xib-module/files/axidma.c:172-178 | a notice handled after its packet n was polled is reported for packet n + max_wr, unless its slot is written in between |
| `RecvQueue.EarlyPollRun` | code/meta-user/recipes-modules/xib-module/files/verbs.c:1087-1096 | the failure at its smallest: on a new queue pair of any size, one packet with immediate data, polled too early, is reported without it |
| `RecvQueue.LateNoticeRun` | code/meta-user/recipes-modules/xib-module/files/axidma.c:172-178 | the run goes on: the late notice is handled, a lap of plain packets goes by, and the plain packet max_wr is reported with it |
| `RecvQueue.RunCompletes` | code/meta-user/recipes-modules/xib-module/files/verbs.c:928-1099 | from a new queue pair the k-th completion has the id of the k-th accepted receive and the length of its first entry; and each the record of its own packet, if and only if every poll turn was in time |
| `RecvQueue.PollEnds` | code/meta-user/recipes-modules/xib-module/files/verbs.c:1075-1099 | a poll pops every packet there was when it began, returns at most as many completions as asked for, and fewer only when every popped packet is reported |
| `RecvQueue.PostAcceptsIff` | code/meta-user/recipes-modules/xib-module/files/verbs.c:938-955 | a request is queued if and only if its bytes fit the packet buffer and its entries the slot |
| `RecvQueue.Inc` | code/meta-user/recipes-modules/xib-module/files/ib_verbs.h:233-246 | the three index increments step round the ring |
| `RecvQueue.RecvRing.PostRecv` | code/meta-user/recipes-modules/xib-module/files/verbs.c:928-967 | requests are accepted in order up to the first that is too large, which is reported and leaves the queue as it was |
| `RecvQueue.RecvRing.PopRq` | code/meta-user/recipes-modules/xib-module/files/verbs.c:989-1048 | pops exactly the packets that have arrived |
| `RecvQueue.RecvRing.PollRecv` | code/meta-user/recipes-modules/xib-module/files/verbs.c:1077-1099 | the next completions in order, each with what its slot holds, fewer than num_entries only when no popped packet is left |
| `RecvQueue.HeldIsRight` | code/meta-user/recipes-modules/xib-module/files/verbs.c:1087-1096 | when the notices were handled in time that is their own packets' records |
| `RecvQueue.RecvRing.HandleAll` | code/meta-user/recipes-modules/xib-module/files/axidma.c:154-204 | handles every waiting notice |
| `Rping.StepAt` | code/host_apps/xrping/xrping.c:1087-1158 | every step of any thread or queue pair keeps the protocol at its stage or moves it to the next |
| `Rping.ChecksPass` | code/host_apps/xrping/xrping.c:1118-1150 | neither state check nor the memcmp ever fails; RunSafe says that what is compared was wiped and written back in between |
| `Rping.OneSidedSafe` | code/meta-user/recipes-apps/xrping/files/xrping.c:962-1040 | READ only while the client waits with this ping's data in its buffer; WRITE only while it waits for the answer, with that data |
| `Rping.BatchLosesNothing` | code/host_apps/xrping/xrping.c:328-412 | leaving a batch after one RECV drops no RECV |
| `Rping.DiscardsOnlySends` | code/meta-user/recipes-apps/xrping/files/xrping.c:881-909 | polling discards only the completion of the first SEND, for which the server never waits |
| `Rping.StepData` | code/host_apps/xrping/xrping.c:1097-1152 | each READ fetches and each WRITE stores its own ping's contents, in order; between the wipe and the WRITE every byte at the client is 0x0F; no SEND completion is lost |
| `Rping.RunSafe` | code/meta-user/recipes-apps/xrping/files/xrping.c:921-1063 | throughout every run, for every count, content and interleaving: READ and WRITE only while the client waits, the buffer wiped before the WRITE and compared only after it, contents in order, no failed check, no RECV dropped, no awaited completion discarded |
| `Rping.RunEnds` | code/meta-user/recipes-apps/xrping/files/xrping.c:921-1063 | every run is finite, with a bound linear in the count; one that cannot go on has read and written back every ping and both sides done with exactly `count` rounds, if and only if the count is not 0 |
| `Connect.AcknowledgedKeepsInvIff` | code/meta-user/recipes-apps/xhw-hs-server/files/xhw_hs_server.c:469-493 | an ESTABLISHED event keeps the invariant if and only if its connection, if known, was accepted and not yet set up |
| `Connect.ConnectedKeepsInvIff` | code/meta-user/recipes-apps/xhw-hs-server/files/xhw_hs_server.c:495-527 | a connect request keeps it if and only if its id is new |
| `Connect.StepKeepsInv` | code/meta-user/recipes-apps/xhw-hs-server/files/xhw_hs_server.c:469-711 | each critical section of the three threads keeps it and moves connections forward only |
| `Connect.RunKeepsInv` | code/meta-user/recipes-apps/xhw-hs-server/files/xhw_hs_server.c:469-711 | in every interleaving each connection is accepted, set up and configured exactly once, never moves back, and `connections` counts the entries at or past READY |
| `Connect.RunFromNew` | code/meta-user/recipes-apps/xhw-hs-server/files/xhw_hs_server.c:469-711 | the same from a new server: a ready connection was accepted, acknowledged and set up |
| `Connect.RoundVisits` | code/meta-user/recipes-apps/xhw-hs-server/files/xhw_hs_server.c:599-652 | a round of the establishment thread visits an entry or comes at least one round closer to it |
| `Connect.RunServes` | code/meta-user/recipes-apps/xhw-hs-server/files/xhw_hs_server.c:599-652 | as many rounds as the measure says serve an entry, whatever the other threads do in between, connect requests included |
| `Connect.RunServesAll` | code/meta-user/recipes-apps/xhw-hs-server/files/xhw_hs_server.c:599-652 | 2*ceil(n/3) rounds, n the length of the list in the end, serve everyone who was in it at the start |
| `Connect.ScanIs` | code/meta-user/recipes-apps/xhw-hs-server/files/xhw_hs_server.c:679-709 | a pass of the data thread configures exactly the first Ready entries, as many as there are, as succeed and as are wanted; the one that reaches the number ends in QP_CFG_DONE, the others in INVALID_STATE; it returns if and only if the number was reached or an exchange failed |
| `Connect.HandshakeServer.ConnectRequest` | code/meta-user/recipes-apps/xhw-hs-server/files/xhw_hs_server.c:502-526 | the list afterwards, and when it keeps the invariant |
| `Connect.HandshakeServer.UpdateEntry` | code/meta-user/recipes-apps/xhw-hs-server/files/xhw_hs_server.c:469-493 | the list afterwards, whether the id was found, and when it keeps the invariant |
| `Connect.HandshakeServer.EstablishRound` | code/meta-user/recipes-apps/xhw-hs-server/files/xhw_hs_server.c:600-648 | one locked round: list, cursor and counter afterwards |
| `Connect.HandshakeServer.ServePass` | code/meta-user/recipes-apps/xhw-hs-server/files/xhw_hs_server.c:680-706 | one locked scan of the data thread does exactly that, and keeps the invariant |
| `HwHandshake.NoAliasIff` | code/meta-user/recipes-modules/hw-hs/files/rnic.h:155-216 | as 32-bit offsets: registers of two queue pairs coincide if and only if it is the same register and the numbers agree modulo 2^24; they stay above the globals if and only if the number, so reduced, is below 2^24 - 0x1800; those of a memory region stay below if and only if its index is below 4096 |
| `HwHandshake.NoWrapIff` | code/meta-user/recipes-modules/hw-hs/files/rnic.h:155-216 | the offset does not wrap if and only if the number is below 2^24 - 0x1800 |
| `HwHandshake.SetupQpsExact` | code/meta-user/recipes-modules/hw-hs/files/hw_hs.c:101-164 | the exact value of every queue-pair register afterwards, inside the range and outside it |
| `HwHandshake.SetupQpsRegisters` | code/meta-user/recipes-modules/hw-hs/files/hw_hs.c:111-157 | register by register: pointers zero; the doorbell carries the queue pair's number in handshake mode and the software's address out of it; depth and mode bits; nothing else changes, and no other queue pair |
| `HwHandshake.SetupQpsGlobal` | code/meta-user/recipes-modules/hw-hs/files/hw_hs.c:107-110 | below the queue pairs only the advanced configuration may change, and only its override bit |
| `HwHandshake.AdvConfRestoredIff` | code/meta-user/recipes-modules/hw-hs/files/hw_hs.c:159-162 | it is restored if and only if the override was off |
| `HwHandshake.FieldsKept` | code/meta-user/recipes-modules/hw-hs/files/hw_hs.c:127-155 | only the intended bits of the configuration and depth registers change |
| `HwHandshake.SetupMode` | code/meta-user/recipes-modules/hw-hs/files/hw_hs.c:101-164 | exactly the queue pairs of the range enter or leave handshake mode |
| `HwHandshake.CommitKeepsInvIff` | code/meta-user/recipes-modules/hw-hs/files/hw_hs.c:171-226 | every queue pair in handshake mode is recorded in a valid slot, or was in it before the first call and never committed; a commit keeps this if and only if it does not overwrite the only record of another one |
| `HwHandshake.OwnSlotKeepsInv` | code/meta-user/recipes-modules/hw-hs/files/hw_hs.c:171-226 | it does not when the slot is free or is committed again for its own queue pair |
| `HwHandshake.CommitRegisters` | code/meta-user/recipes-modules/hw-hs/files/hw_hs.c:211-220 | every queue-pair register after a commit: the new ring base and the handshake set-up for the queue pair rebound, nothing for any other |
| `HwHandshake.CommitRebinds` | code/meta-user/recipes-modules/hw-hs/files/hw_hs.c:211-220 | the rebound queue pair is in handshake mode on its new ring, with a depth of at least one |
| `HwHandshake.CommitRecordsSlot` | code/meta-user/recipes-modules/hw-hs/files/hw_hs.c:222-224 | a refused commit changes nothing; an accepted one records its queue pair and leaves the other slots |
| `HwHandshake.AcceptedIff` | code/meta-user/recipes-modules/hw-hs/files/hw_hs.c:177-196 | accepted if and only if the slot exists and a polled sequence number is a whole word of its reply slot, and not the first |
| `HwHandshake.CommitProducer` | code/meta-user/recipes-modules/hw-hs/files/hw_hs.c:211-220 | a config-only commit changes no ERNIC register; a rebinding one resets its own producer index only |
| `HwHandshake.ConfigKeepsInvIff` | code/meta-user/recipes-modules/hw-hs/files/hw_hs.c:252-288 | the same for the convenience path through slot 0 |
| `HwHandshake.ConfigIsRemembered` | code/meta-user/recipes-modules/hw-hs/files/hw_hs.c:286-397 | after a configuration a second reset in a row takes its whole range out of handshake mode |
| `HwHandshake.ResetMode` | code/meta-user/recipes-modules/hw-hs/files/hw_hs.c:375-400 | a queue pair stays in handshake mode across a reset if and only if no valid slot names it (nor, when none is valid, the last round) |
| `HwHandshake.ResetClears` | code/meta-user/recipes-modules/hw-hs/files/hw_hs.c:375-400 | under that invariant, after a reset no queue pair ever committed is in handshake mode, and no slot is valid |
| `HwHandshake.LostSurvivesReset` | code/meta-user/recipes-modules/hw-hs/files/hw_hs.c:222-224 | a queue pair whose record was overwritten stays in handshake mode across a reset |
| `HwHandshake.RunSoundIff` | code/meta-user/recipes-modules/hw-hs/files/hw_hs.c:171-400 | from any register file with no valid slot: the invariant holds in every state of a sequence of commits, configurations and resets, if and only if no call loses a record |
| `HwHandshake.RunResetClears` | code/meta-user/recipes-modules/hw-hs/files/hw_hs.c:375-400 | so a reset in such a sequence leaves in handshake mode no queue pair that any call committed, and none at all if there was none before |
| `HwHandshake.Driver.ProgramOne` | code/meta-user/recipes-modules/hw-hs/files/hw_hs.c:112-156 | the writes in the driver's order have the effect that the register function states |
| `HwHandshake.Driver.ProgramQps` | code/meta-user/recipes-modules/hw-hs/files/hw_hs.c:101-164 | so does the loop over the range |
| `HwHandshake.Driver.QpctxCommit` | code/meta-user/recipes-modules/hw-hs/files/hw_hs.c:171-226 | -EINVAL exactly for a bad slot or reply layout, with nothing changed; otherwise registers and slot as stated |
| `HwHandshake.Driver.Config` | code/meta-user/recipes-modules/hw-hs/files/hw_hs.c:252-288 | a commit into slot 0 with rebind, remembered only if accepted, which the result says |
| `HwHandshake.Driver.ResetEngine` | code/meta-user/recipes-modules/hw-hs/files/hw_hs.c:375-400 | registers and slots after the loop and its fallback |

## Left out

- BitOps.FindZeroBits: is stated for maps whose unused bits are clear, as a new chunk has them, and for at most 2^32 - 32 bits; a map that an overrun has already damaged is not covered.
- Umm.AllocKeepsInvIff: a size whose block count is cut to 0 shifts by the word width in the source, which C leaves undefined; Umm.UmemChunk.AllocMem requires that it is not.
- Umm.UmemChunk.AllocMem: the same sizes.
- Umm.UmemChunk.FreeMem: requires that the blocks to be cleared lie in the map; outside it the source writes past its allocation. LongFreeOvershoots and, below 2^32 bytes, FreeLeavesMapIff say when that happens.
- FreeList.FreeKeepsInvIff: is about sizes that the manager accepts; refusals are in RepairedAcceptedIff and RefusedChangesIff.
- Kmm.RunKeepsIds: gaps are integers; once an as-written placement has made chunks overlap, the source's u64 subtractions (xib_kmm.c:270, 290) wrap and may accept where the model refuses. Ids do not depend on which gap is taken.
- Lookup.LookupFinds: the same for as-written runs past the first overlap.
- SendQueue.RunKeepsInv: covers bounce buffers of SEND opcodes only; the guard of the READ and WRITE buffers is misspelt in the source (`main.c:1906`), so that posting and polling disagree about them.
- RecvQueue.RunKeepsInv: one queue pair; that a SEND with invalidate also unregisters a memory region is not modelled.
- Rping.RunEnds: error completions, timeouts and disconnects are not modelled; READ and WRITE move the whole buffer in one step; polls of an empty queue are not steps.
- Connect.RunKeepsInv: disconnect events, which only count and exit, and the loop exits of the event and establishment threads; leaving those out allows more runs.
- HwHandshake.RunSoundIff: nobody else writes the registers between the calls.
- HwHandshake.Driver.QpctxCommit: the engine's own staging registers only receive copies and are not modelled; the word written for `(qp + 1) >> 32`, an undefined shift in C, is arbitrary; queue-pair numbers whose register offsets wrap (NoWrapIff) are not covered.
- HwHandshake.Driver.ResetEngine: requires that the ERNIC is there; without it the source dereferences NULL.
- The drained-queue (SQD) list of the send queue and its flush completions.
- The receive ring of the GSI queue pair, which resets its index earlier than xib_pop_rq does.
- The interrupt dispatcher xib_irq_event: it only clears bits and schedules handlers.
- QP1 headers, CNP packets, address resolution, the RDMA connection manager and libibverbs: foreign libraries and packet layouts.
- Module probe and remove, device tree, ioctl copying, mmap, page faults, sysfs.
- The board rping client, the host rping server, and the test and demonstration applications.
- Memory barriers and real time: critical sections are sequentially consistent.
