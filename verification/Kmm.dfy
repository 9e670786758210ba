/** The kernel memory manager (xib-kmm/files/xib_kmm.c): a first-fit allocator over the
    sorted chunk list of one memory region. */
module Kmm {
  import opened Lists

  const ID_SPAN := 0x100_0000   // chunk ids keep 24 bits of the per-region counter
  const U32 := 0x1_0000_0000

  datatype Chunk = Chunk(start: nat, size: nat, id: nat) {
    function End(): nat { start + size }
  }

  /** Line 279 puts a chunk that fits in front of the list at the first chunk's own address;
      the gap it was tested against (line 278) begins at the region's base. */
  datatype Front = AsWritten | Repaired

  datatype Region = Region(memType: nat, base: nat, size: nat, chunks: seq<Chunk>, available: int, maxChunk: nat) {
    function End(): nat { base + size }

    /** Gap i lies before chunk i; the last one lies behind every chunk. */
    function GapLo(i: nat): nat
      requires i <= |chunks|
    {
      if i == 0 then base else chunks[i - 1].End()
    }

    function GapHi(i: nat): nat
      requires i <= |chunks|
    {
      if i == |chunks| then End() else chunks[i].start
    }

    predicate Fits(i: nat, n: nat)
      requires i <= |chunks|
    {
      GapHi(i) - GapLo(i) >= n
    }

    /** The first gap at or after i that takes n bytes, or one past the last gap. */
    function FirstFit(i: nat, n: nat): (k: nat)
      requires i <= |chunks| + 1
      ensures i <= k <= |chunks| + 1
      ensures k <= |chunks| ==> Fits(k, n)
      ensures forall j :: i <= j < k ==> !Fits(j, n)
      decreases |chunks| + 1 - i
    {
      if i == |chunks| + 1 || Fits(i, n) then i else FirstFit(i + 1, n)
    }

    /** Chunks are in address order, do not overlap and lie in the region. */
    ghost predicate Packed() {
      && (forall i :: 0 <= i < |chunks| ==> base <= chunks[i].start && chunks[i].End() <= End())
      && (forall i, j :: 0 <= i < j < |chunks| ==> chunks[i].End() <= chunks[j].start)
    }

    ghost predicate Valid() {
      Packed() && available + TotalSize(chunks) == size
    }

    /** The as-written front placement goes wrong: line 278's test passes for a real chunk. */
    predicate FrontHit(front: Front, n: nat) {
      front.AsWritten? && chunks != [] && n > 0 && chunks[0].start - base >= n
    }

    function NextId(): nat { maxChunk % ID_SPAN + memType * ID_SPAN }

    /** The gap that alloc_mem takes, or one past the last gap when it refuses. */
    function GapFor(n: nat): (k: nat)
      ensures k <= |chunks| + 1
    {
      if n > available then |chunks| + 1 else if chunks == [] then 0 else FirstFit(0, n)
    }

    function PlaceAt(front: Front, k: nat): nat
      requires k <= |chunks|
    {
      if k == 0 && chunks != [] && front.AsWritten? then chunks[0].start else GapLo(k)
    }

    function Insert(k: nat, start: nat, n: nat): Region
      requires k <= |chunks|
    {
      this.(chunks := InsertAt(chunks, k, Chunk(start, n, NextId())), available := available - n,
            maxChunk := (maxChunk + 1) % U32)
    }

    /** What alloc_mem leaves behind and hands out. */
    function Alloc(front: Front, n: nat): (Region, Option<Chunk>) {
      var k := GapFor(n);
      if k > |chunks| then (this, None)
      else (Insert(k, PlaceAt(front, k), n), Some(Chunk(PlaceAt(front, k), n, NextId())))
    }

    /** What free_mem leaves behind: the first chunk with this id is gone. */
    function Free(id: nat): (Region, bool) {
      var k := IndexOf(chunks, id);
      if k == |chunks| then (this, false)
      else (this.(chunks := RemoveAt(chunks, k), available := available + chunks[k].size), true)
    }

    /** What the last close leaves behind. */
    function CloseAll(): Region { this.(chunks := [], available := available + TotalSize(chunks)) }

    /** n bytes at address a are in the region and in no chunk. */
    ghost predicate FreeAt(a: nat, n: nat) {
      && base <= a && a + n <= End()
      && forall i :: 0 <= i < |chunks| ==> a + n <= chunks[i].start || chunks[i].End() <= a
    }

    ghost predicate UniqueIds() {
      forall i, j :: 0 <= i < j < |chunks| ==> chunks[i].id != chunks[j].id
    }
  }

  function TotalSize(s: seq<Chunk>): nat {
    if s == [] then 0 else s[0].size + TotalSize(s[1..])
  }

  function IndexOf(s: seq<Chunk>, id: nat): (k: nat)
    ensures k <= |s|
    ensures k < |s| ==> s[k].id == id
    ensures forall j :: 0 <= j < k ==> s[j].id != id
  {
    if s == [] || s[0].id == id then 0 else 1 + IndexOf(s[1..], id)
  }

  lemma {:induction false} InsertedTotal(s: seq<Chunk>, k: nat, c: Chunk)
    requires k <= |s|
    ensures TotalSize(InsertAt(s, k, c)) == TotalSize(s) + c.size
  {
    var t := InsertAt(s, k, c);
    if k == 0 {
      assert t[1..] == s;
    } else {
      InsertedTotal(s[1..], k - 1, c);
      assert t[1..] == InsertAt(s[1..], k - 1, c);
    }
  }

  lemma RemovedTotal(s: seq<Chunk>, k: nat)
    requires k < |s|
    ensures TotalSize(RemoveAt(s, k)) + s[k].size == TotalSize(s)
  {
    InsertUndoesRemove(s, k);
    InsertedTotal(RemoveAt(s, k), k, s[k]);
  }

  // ----- the gaps account for every free byte

  ghost function SumGaps(r: Region, i: nat): int
    requires i <= |r.chunks|
    decreases |r.chunks| - i
  {
    r.GapHi(i) - r.GapLo(i) + if i == |r.chunks| then 0 else SumGaps(r, i + 1)
  }

  lemma {:induction false} GapsAndChunksFillTheRest(r: Region, i: nat)
    requires i <= |r.chunks|
    ensures SumGaps(r, i) + TotalSize(r.chunks[i..]) == r.End() - r.GapLo(i)
    decreases |r.chunks| - i
  {
    if i < |r.chunks| {
      GapsAndChunksFillTheRest(r, i + 1);
      assert r.chunks[i..][1..] == r.chunks[i + 1..];
    }
  }

  /** available_size is exactly what lies in the gaps. */
  lemma AvailableIsTheGaps(r: Region)
    requires r.Valid()
    ensures SumGaps(r, 0) == r.available
  {
    GapsAndChunksFillTheRest(r, 0);
    assert r.chunks[0..] == r.chunks;
  }

  lemma {:induction false} GapAtMostSum(r: Region, i: nat, j: nat)
    requires r.Packed() && i <= j <= |r.chunks|
    ensures r.GapHi(j) - r.GapLo(j) <= SumGaps(r, i)
    decreases |r.chunks| - i
  {
    if i < j {
      GapAtMostSum(r, i + 1, j);
    } else if i < |r.chunks| {
      GapAtMostSum(r, i + 1, i + 1);
    }
  }

  /** A request is refused exactly when no gap is large enough. */
  lemma RefusedIffNoGap(r: Region, front: Front, n: nat)
    requires r.Valid()
    ensures r.Alloc(front, n).1.None? <==> forall i :: 0 <= i <= |r.chunks| ==> !r.Fits(i, n)
  {
    AvailableIsTheGaps(r);
    var k := r.FirstFit(0, n);
    if k <= |r.chunks| {
      GapAtMostSum(r, 0, k);
      assert r.Fits(k, n);
    }
    if r.chunks == [] {
      assert r.Fits(0, n) <==> n <= r.available;
    }
  }

  // ----- first fit is lowest fit

  /** Free bytes lie inside one gap. */
  lemma {:induction false} FreeBytesInOneGap(r: Region, a: nat, n: nat, j: nat) returns (g: nat)
    requires r.Packed() && r.FreeAt(a, n) && j <= |r.chunks|
    requires r.GapLo(j) <= a
    ensures g <= |r.chunks| && r.GapLo(g) <= a && a + n <= r.GapHi(g)
    decreases |r.chunks| - j
  {
    if j == |r.chunks| || a + n <= r.chunks[j].start {
      g := j;
    } else {
      g := FreeBytesInOneGap(r, a, n, j + 1);
    }
  }

  lemma GapOrder(r: Region, i: nat, j: nat)
    requires r.Packed() && i <= j <= |r.chunks|
    ensures r.GapLo(i) <= r.GapLo(j)
  {}

  /** With the front placement repaired, the chunk handed out is the lowest address at which
      the request fits anywhere in the region, and a request is refused only when it fits nowhere. */
  lemma FirstFitIsLowestFit(r: Region, n: nat)
    requires r.Valid()
    ensures var c := r.Alloc(Repaired, n).1;
            if c.Some? then r.FreeAt(c.value.start, n) && forall a: nat :: a < c.value.start ==> !r.FreeAt(a, n)
            else forall a: nat :: !r.FreeAt(a, n)
  {
    var c := r.Alloc(Repaired, n).1;
    RefusedIffNoGap(r, Repaired, n);
    forall a: nat | r.FreeAt(a, n)
      ensures c.Some? && c.value.start <= a
    {
      var g := FreeBytesInOneGap(r, a, n, 0);
      assert r.Fits(g, n);
      if r.chunks != [] { GapOrder(r, r.FirstFit(0, n), g); }
    }
  }

  // ----- what each call keeps

  /** A chunk that lies in gap k may be linked in there. */
  lemma InsertInGap(r: Region, k: nat, start: nat, n: nat)
    requires r.Valid() && k <= |r.chunks| && r.GapLo(k) <= start && start + n <= r.GapHi(k)
    ensures r.Insert(k, start, n).Valid()
  {
    InsertedTotal(r.chunks, k, Chunk(start, n, r.NextId()));
    assert r.base <= start && start + n <= r.End() by {
      if k > 0 { assert r.base <= r.chunks[k - 1].start; }
      if k < |r.chunks| { assert r.chunks[k].End() <= r.End(); }
    }
    InsertOrdered(r, k, start, n);
  }

  lemma InsertOrdered(r: Region, k: nat, start: nat, n: nat)
    requires r.Packed() && k <= |r.chunks| && r.GapLo(k) <= start && start + n <= r.GapHi(k)
    ensures var s := r.Insert(k, start, n).chunks;
            forall i, j :: 0 <= i < j < |s| ==> s[i].End() <= s[j].start
  {
    var s := r.Insert(k, start, n).chunks;
    forall i, j | 0 <= i < j < |s|
      ensures s[i].End() <= s[j].start
    {
      var i', j' := if i > k then i - 1 else i, if j > k then j - 1 else j;
      assert i != k ==> s[i] == r.chunks[i'];
      assert j != k ==> s[j] == r.chunks[j'];
    }
  }

  /** alloc_mem keeps the list sorted, disjoint and in region, and the size accounted for, if
      and only if it does not take the front gap as written. */
  lemma AllocKeepsValidIff(r: Region, front: Front, n: nat)
    requires r.Valid()
    ensures r.Alloc(front, n).0.Valid() <==> !(r.Alloc(front, n).1.Some? && r.FrontHit(front, n))
  {
    var k := r.GapFor(n);
    if k <= |r.chunks| {
      if r.FrontHit(front, n) {
        var s := r.Alloc(front, n).0.chunks;
        assert k == 0 && s[0].End() > s[1].start;
      } else {
        assert r.Fits(k, n);
        InsertInGap(r, k, r.PlaceAt(front, k), n);
      }
    }
  }

  lemma FreeKeepsValid(r: Region, id: nat)
    requires r.Valid()
    ensures r.Free(id).0.Valid()
  {
    var k := IndexOf(r.chunks, id);
    if k < |r.chunks| {
      RemovedTotal(r.chunks, k);
    }
  }

  lemma CloseKeepsValid(r: Region)
    requires r.Valid()
    ensures r.CloseAll().Valid() && r.CloseAll().available == r.size
  {}

  /** Freeing the id that an allocation returned gives back the region it started from, the
      id counter aside, provided that id was not in use already. */
  lemma FreeUndoesAlloc(r: Region, front: Front, n: nat)
    requires r.Alloc(front, n).1.Some?
    requires forall c <- r.chunks :: c.id != r.NextId()
    ensures r.Alloc(front, n).0.Free(r.NextId()).0 == r.(maxChunk := (r.maxChunk + 1) % U32)
  {
    var k := r.GapFor(n);
    var c := Chunk(r.PlaceAt(front, k), n, r.NextId());
    var s := InsertAt(r.chunks, k, c);
    assert IndexOf(s, c.id) == k by {
      assert forall j :: 0 <= j < k ==> s[j] in r.chunks;
      assert s[k].id == c.id;
    }
    RemoveUndoesInsert(r.chunks, k, c);
  }

  /** Chunks stay in the list until their own id is freed. */
  lemma AllocKeepsOthers(r: Region, front: Front, n: nat)
    requires r.Alloc(front, n).1.Some?
    ensures var (r', c) := r.Alloc(front, n);
            c.value in r'.chunks && c.value.id == r.NextId() && forall x <- r.chunks :: x in r'.chunks
  {
    var k, s := r.GapFor(n), r.Alloc(front, n).0.chunks;
    assert s[k] == r.Alloc(front, n).1.value;
    forall x | x in r.chunks
      ensures x in s
    {
      var i :| 0 <= i < |r.chunks| && r.chunks[i] == x;
      assert s[if i < k then i else i + 1] == x;
    }
  }

  lemma FreeKeepsOthers(r: Region, id: nat)
    ensures forall x <- r.chunks :: x.id != id ==> x in r.Free(id).0.chunks
  {
    var k, s := IndexOf(r.chunks, id), r.Free(id).0.chunks;
    forall x | x in r.chunks && x.id != id
      ensures x in s
    {
      var i :| 0 <= i < |r.chunks| && r.chunks[i] == x;
      assert k < |r.chunks| ==> s[if i < k then i else i - 1] == x;
    }
  }

  /** The kernel's list after an allocation: the old chunks and the new one. */
  lemma AllocAdds(r: Region, front: Front, n: nat)
    requires r.Alloc(front, n).1.Some?
    ensures var (r', c) := r.Alloc(front, n); forall x <- r'.chunks :: x in r.chunks || x == c.value
  {
    var k, s := r.GapFor(n), r.Alloc(front, n).0.chunks;
    forall x | x in s
      ensures x in r.chunks || x == r.Alloc(front, n).1.value
    {
      var i :| 0 <= i < |s| && s[i] == x;
      assert i != k ==> x == r.chunks[if i < k then i else i - 1];
    }
  }

  /** And after a free: the old chunks but the one with that id. The call says whether there was one. */
  lemma FreeRemoves(r: Region, id: nat)
    requires r.UniqueIds()
    ensures forall x <- r.Free(id).0.chunks :: x in r.chunks && x.id != id
    ensures r.Free(id).1 <==> exists x <- r.chunks :: x.id == id
  {
    var k, s := IndexOf(r.chunks, id), r.Free(id).0.chunks;
    forall x | x in s
      ensures x in r.chunks && x.id != id
    {
      var i :| 0 <= i < |s| && s[i] == x;
      if k < |r.chunks| {
        var j := if i < k then i else i + 1;
        assert x == r.chunks[j] && j != k;
      }
    }
  }

  // ----- whole runs

  datatype Op = AllocOp(n: nat) | FreeOp(id: nat) | CloseOp

  function Step(front: Front, r: Region, op: Op): Region {
    match op
    case AllocOp(n) => r.Alloc(front, n).0
    case FreeOp(id) => r.Free(id).0
    case CloseOp => r.CloseAll()
  }

  function Run(front: Front, r: Region, ops: seq<Op>): Region
    decreases |ops|
  {
    if ops == [] then r else Run(front, Step(front, r, ops[0]), ops[1..])
  }

  /** The region as add_node creates it. */
  function Fresh(memType: nat, base: nat, size: nat): Region { Region(memType, base, size, [], size, 1) }

  /** Every state the run goes through keeps the invariant. */
  ghost predicate RunValid(front: Front, r: Region, ops: seq<Op>)
    decreases |ops|
  {
    r.Valid() && (ops != [] ==> RunValid(front, Step(front, r, ops[0]), ops[1..]))
  }

  /** Some call of the run takes the front gap as written. */
  predicate RunHitsFront(front: Front, r: Region, ops: seq<Op>)
    decreases |ops|
  {
    ops != [] && (
      || (ops[0].AllocOp? && r.Alloc(front, ops[0].n).1.Some? && r.FrontHit(front, ops[0].n))
      || RunHitsFront(front, Step(front, r, ops[0]), ops[1..]))
  }

  lemma StepKeepsValidIff(front: Front, r: Region, op: Op)
    requires r.Valid()
    ensures Step(front, r, op).Valid() <==>
              !(op.AllocOp? && r.Alloc(front, op.n).1.Some? && r.FrontHit(front, op.n))
  {
    match op
    case AllocOp(n) => AllocKeepsValidIff(r, front, n);
    case FreeOp(id) => FreeKeepsValid(r, id);
    case CloseOp => CloseKeepsValid(r);
  }

  /** The code as written is safe on exactly the runs that never reuse the front gap. */
  lemma {:induction false} RunValidIff(front: Front, r: Region, ops: seq<Op>)
    requires r.Valid()
    ensures RunValid(front, r, ops) <==> !RunHitsFront(front, r, ops)
    decreases |ops|
  {
    if ops != [] {
      StepKeepsValidIff(front, r, ops[0]);
      var next := Step(front, r, ops[0]);
      if next.Valid() { RunValidIff(front, next, ops[1..]); }
    }
  }

  lemma {:induction false} RepairedNeverHits(r: Region, ops: seq<Op>)
    ensures !RunHitsFront(Repaired, r, ops)
    decreases |ops|
  {
    if ops != [] { RepairedNeverHits(Step(Repaired, r, ops[0]), ops[1..]); }
  }

  /** With line 279 repaired, every run from a fresh region keeps the invariant. */
  lemma RepairedRunsAreValid(memType: nat, base: nat, size: nat, ops: seq<Op>)
    ensures RunValid(Repaired, Fresh(memType, base, size), ops)
  {
    RepairedNeverHits(Fresh(memType, base, size), ops);
    RunValidIff(Repaired, Fresh(memType, base, size), ops);
  }

  lemma RunHitsLater(front: Front, r: Region, op: Op, ops: seq<Op>)
    requires RunHitsFront(front, Step(front, r, op), ops)
    ensures RunHitsFront(front, r, [op] + ops)
  {
    assert ([op] + ops)[1..] == ops;
  }

  /** Two chunks of n bytes are taken and the first one is given back. */
  lemma TwoChunksOneFreed(r0: Region, n: nat)
    requires r0 == Fresh(r0.memType, r0.base, r0.size) && 0 < n && 2 * n <= r0.size
    ensures var c1 := Chunk(r0.base, n, 1 + r0.memType * ID_SPAN);
            var c2 := Chunk(r0.base + n, n, 2 + r0.memType * ID_SPAN);
            var r1 := r0.(chunks := [c1], available := r0.size - n, maxChunk := 2);
            var r2 := r0.(chunks := [c1, c2], available := r0.size - 2 * n, maxChunk := 3);
            && Step(AsWritten, r0, AllocOp(n)) == r1
            && Step(AsWritten, r1, AllocOp(n)) == r2
            && Step(AsWritten, r2, FreeOp(c1.id)) == r2.(chunks := [c2], available := r0.size - n)
  {
    var c1 := Chunk(r0.base, n, 1 + r0.memType * ID_SPAN);
    var c2 := Chunk(r0.base + n, n, 2 + r0.memType * ID_SPAN);
    var r1 := r0.(chunks := [c1], available := r0.size - n, maxChunk := 2);
    assert InsertAt([], 0, c1) == [c1];
    FirstFitIs(r1, n, 1);
    assert InsertAt([c1], 1, c2) == [c1, c2];
    assert RemoveAt([c1, c2], 0) == [c2];
  }

  lemma HitAfterThree(front: Front, r: Region, a: Op, b: Op, c: Op, ops: seq<Op>)
    requires r.Valid()
    requires RunHitsFront(front, Step(front, Step(front, Step(front, r, a), b), c), ops)
    ensures !RunValid(front, r, [a] + ([b] + ([c] + ops)))
  {
    RunHitsLater(front, Step(front, Step(front, r, a), b), c, ops);
    RunHitsLater(front, Step(front, r, a), b, [c] + ops);
    RunHitsLater(front, r, a, [b] + ([c] + ops));
    RunValidIff(front, r, [a] + ([b] + ([c] + ops)));
  }

  lemma RunNext(front: Front, r: Region, op: Op, ops: seq<Op>)
    ensures Run(front, r, [op] + ops) == Run(front, Step(front, r, op), ops)
  {
    assert ([op] + ops)[1..] == ops;
  }

  lemma RunFour(front: Front, r: Region, a: Op, b: Op, c: Op, d: Op, r1: Region, r2: Region, r3: Region)
    requires r1 == Step(front, r, a) && r2 == Step(front, r1, b) && r3 == Step(front, r2, c)
    ensures Run(front, r, [a] + ([b] + ([c] + [d]))) == Step(front, r3, d)
  {
    RunNext(front, r, a, [b] + ([c] + [d]));
    RunNext(front, r1, b, [c] + [d]);
    RunNext(front, r2, c, [d]);
    assert [d] == [d] + [];
    RunNext(front, r3, d, []);
  }

  lemma FreedFrontIsHit(r0: Region, n: nat)
    requires r0 == Fresh(r0.memType, r0.base, r0.size) && 0 < n && 2 * n <= r0.size
    ensures var r3 := Step(AsWritten, Step(AsWritten, Step(AsWritten, r0, AllocOp(n)), AllocOp(n)),
                           FreeOp(1 + r0.memType * ID_SPAN));
            && RunHitsFront(AsWritten, r3, [AllocOp(n)])
            && Step(AsWritten, r3, AllocOp(n)).chunks
               == [Chunk(r0.base + n, n, 3 + r0.memType * ID_SPAN), Chunk(r0.base + n, n, 2 + r0.memType * ID_SPAN)]
  {
    TwoChunksOneFreed(r0, n);
    var c2 := Chunk(r0.base + n, n, 2 + r0.memType * ID_SPAN);
    var r3 := r0.(chunks := [c2], available := r0.size - n, maxChunk := 3);
    FirstFitIs(r3, n, 0);
    assert r3.FrontHit(AsWritten, n) && r3.Alloc(AsWritten, n).1.Some?;
    assert InsertAt([c2], 0, Chunk(r0.base + n, n, 3 + r0.memType * ID_SPAN)) == [Chunk(r0.base + n, n, 3 + r0.memType * ID_SPAN), c2];
  }

  /** Asking again for the freed first chunk: as written, the driver hands out the second
      chunk's own bytes, and two live chunks are the same n bytes. */
  lemma FrontGapOverlap(r0: Region, n: nat, free: Op, ops: seq<Op>)
    requires r0 == Fresh(r0.memType, r0.base, r0.size) && 0 < n && 2 * n <= r0.size
    requires free == FreeOp(1 + r0.memType * ID_SPAN) && ops == [AllocOp(n)] + ([AllocOp(n)] + ([free] + [AllocOp(n)]))
    ensures !RunValid(AsWritten, r0, ops)
    ensures var s := Run(AsWritten, r0, ops).chunks;
            |s| == 2 && s[0].id != s[1].id && s[0].start == s[1].start && s[0].size == s[1].size == n
  {
    var r1 := Step(AsWritten, r0, AllocOp(n));
    var r2 := Step(AsWritten, r1, AllocOp(n));
    var r3 := Step(AsWritten, r2, free);
    FreedFrontIsHit(r0, n);
    RunFour(AsWritten, r0, AllocOp(n), AllocOp(n), free, AllocOp(n), r1, r2, r3);
    HitAfterThree(AsWritten, r0, AllocOp(n), AllocOp(n), free, [AllocOp(n)]);
  }

  // ----- chunk ids

  /** An id carries its memory type, however often the counter has come round: ids of different types
      never meet. */
  lemma IdCarriesType(r: Region)
    ensures r.NextId() / ID_SPAN == r.memType && r.NextId() % ID_SPAN == r.maxChunk % ID_SPAN
  {}

  /** Ids stay unique exactly when the wrapped counter has not come round to a live chunk. */
  lemma AllocKeepsUniqueIdsIff(r: Region, front: Front, n: nat)
    requires r.UniqueIds() && r.Alloc(front, n).1.Some?
    ensures r.Alloc(front, n).0.UniqueIds() <==> forall c <- r.chunks :: c.id != r.NextId()
  {
    var k, r' := r.GapFor(n), r.Alloc(front, n).0;
    forall i | 0 <= i < |r.chunks|
      ensures r.chunks[i] == r'.chunks[if i < k then i else i + 1]
    {}
  }

  /** While fewer than 2^24 ids were issued, live ids are unique and below the next one. */
  ghost predicate IdsBehindCounter(r: Region) {
    && 1 <= r.maxChunk <= ID_SPAN && r.UniqueIds()
    && forall i :: 0 <= i < |r.chunks| ==> r.chunks[i].id < r.maxChunk + r.memType * ID_SPAN
  }

  lemma AllocKeepsIds(front: Front, r: Region, n: nat)
    requires IdsBehindCounter(r) && r.maxChunk < ID_SPAN && r.GapFor(n) <= |r.chunks|
    ensures IdsBehindCounter(r.Alloc(front, n).0)
  {
    assert r.NextId() == r.maxChunk + r.memType * ID_SPAN;
    AllocKeepsUniqueIdsIff(r, front, n);
    var k, s := r.GapFor(n), r.Alloc(front, n).0.chunks;
    forall i | 0 <= i < |s|
      ensures s[i].id < r.maxChunk + 1 + r.memType * ID_SPAN
    {
      if i > k { assert s[i] == r.chunks[i - 1]; }
    }
  }

  lemma FreeKeepsIds(r: Region, id: nat)
    requires IdsBehindCounter(r)
    ensures IdsBehindCounter(r.Free(id).0)
  {}

  predicate Issues(front: Front, r: Region, op: Op) { op.AllocOp? && r.Alloc(front, op.n).1.Some? }

  lemma StepKeepsIds(front: Front, r: Region, op: Op)
    requires IdsBehindCounter(r) && (Issues(front, r, op) ==> r.maxChunk < ID_SPAN)
    ensures IdsBehindCounter(Step(front, r, op))
    ensures Step(front, r, op).maxChunk == if Issues(front, r, op) then r.maxChunk + 1 else r.maxChunk
  {
    match op
    case AllocOp(n) =>
      if r.GapFor(n) <= |r.chunks| { AllocKeepsIds(front, r, n); }
    case FreeOp(id) => FreeKeepsIds(r, id);
    case CloseOp =>
  }

  /** The ids that a run issues: one per successful allocation. */
  function Issued(front: Front, r: Region, ops: seq<Op>): nat
    decreases |ops|
  {
    if ops == [] then 0
    else (if Issues(front, r, ops[0]) then 1 else 0) + Issued(front, Step(front, r, ops[0]), ops[1..])
  }

  /** So over any run that brings the ids issued to fewer than 2^24, however many calls it makes,
      an id names one chunk. */
  lemma {:induction false} RunKeepsIds(front: Front, r: Region, ops: seq<Op>)
    requires IdsBehindCounter(r) && r.maxChunk + Issued(front, r, ops) <= ID_SPAN
    ensures IdsBehindCounter(Run(front, r, ops))
    decreases |ops|
  {
    if ops != [] {
      StepKeepsIds(front, r, ops[0]);
      RunKeepsIds(front, Step(front, r, ops[0]), ops[1..]);
    }
  }

  // ----- the driver's own code

  class Node {
    const memType: nat
    const base: nat
    const size: nat
    var chunks: seq<Chunk>
    var available: int
    var maxChunk: nat

    ghost function State(): Region
      reads this
    {
      Region(memType, base, size, chunks, available, maxChunk)
    }

    constructor (memType: nat, base: nat, size: nat)
      ensures State() == Fresh(memType, base, size)
    {
      this.memType, this.base, this.size := memType, base, size;
      chunks, available, maxChunk := [], size, 1;
    }

    /** The walk of lines 263-302 over the chunk list. */
    method FindGap(front: Front, n: nat) returns (k: nat, start: nat)
      requires n <= available
      ensures k == State().GapFor(n)
      ensures k <= |chunks| ==> start == State().PlaceAt(front, k)
    {
      if chunks == [] { return 0, base; }
      k, start := 0, base;
      var prev: Option<Chunk> := None;
      while k < |chunks|
        invariant k <= |chunks|
        invariant prev == if k == 0 then None else Some(chunks[k - 1])
        invariant forall j :: 0 <= j < k ==> !State().Fits(j, n)
      {
        if prev.Some? {
          if chunks[k].start - prev.value.End() >= n {
            FirstFitIs(State(), n, k);
            return k, prev.value.End();
          }
        } else if chunks[k].start - base >= n {
          FirstFitIs(State(), n, k);
          return k, if front.AsWritten? then chunks[k].start else base;
        }
        prev := Some(chunks[k]);
        k := k + 1;
      }
      if base + size - prev.value.End() >= n {
        FirstFitIs(State(), n, k);
        return k, prev.value.End();
      }
      FirstFitIs(State(), n, k + 1);
      return k + 1, start;
    }

    /** alloc_mem, lines 246-310. */
    method AllocMem(front: Front, n: nat) returns (c: Option<Chunk>)
      modifies this
      ensures State() == old(State()).Alloc(front, n).0 && c == old(State()).Alloc(front, n).1
    {
      if n > available { return None; }
      var k, start := FindGap(front, n);
      if k > |chunks| { return None; }
      var id := maxChunk % ID_SPAN + memType * ID_SPAN;
      var chunk := Chunk(start, n, id);
      chunks := InsertAt(chunks, k, chunk);
      maxChunk := (maxChunk + 1) % U32;
      available := available - n;
      return Some(chunk);
    }

    /** free_mem, lines 333-351. */
    method FreeMem(id: nat) returns (found: bool)
      modifies this
      ensures State() == old(State()).Free(id).0 && found == old(State()).Free(id).1
    {
      var i := 0;
      while i < |chunks|
        invariant 0 <= i <= |chunks| && State() == old(State())
        invariant forall j :: 0 <= j < i ==> chunks[j].id != id
      {
        if chunks[i].id == id {
          assert IndexOf(chunks, id) == i;
          available := available + chunks[i].size;
          chunks := RemoveAt(chunks, i);
          return true;
        }
        i := i + 1;
      }
      return false;
    }

    /** xib_close for the last opener, lines 435-439. */
    method Close()
      modifies this
      ensures State() == old(State()).CloseAll()
    {
      while chunks != []
        invariant available + TotalSize(chunks) == old(available) + TotalSize(old(chunks))
        invariant maxChunk == old(maxChunk)
        decreases |chunks|
      {
        available := available + chunks[0].size;
        chunks := chunks[1..];
      }
    }
  }

  lemma FirstFitIs(r: Region, n: nat, k: nat)
    requires k <= |r.chunks| + 1 && (k <= |r.chunks| ==> r.Fits(k, n))
    requires forall j :: 0 <= j < k ==> !r.Fits(j, n)
    ensures r.FirstFit(0, n) == k
  {}
}
