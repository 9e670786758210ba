/** The BRAM and external-DDR allocator of the driver (xib-module/files/mem.c): a sorted free
    list that is split on allocation and coalesced on free, beside a table of allocations. */
module FreeList {
  import opened Lists

  const ALLOC_UNIT := 4096   // BRAM_ALLOC_UNIT
  const ROUNDING := 256
  const U32 := 0x1_0000_0000

  datatype Block = Block(addr: nat, size: nat) {
    function End(): nat { addr + size }
    predicate Has(x: nat) { addr <= x < End() }
  }

  /** Line 131 compares the freed address with `iter->phy_addr + size`; the lower neighbour
      ends at `iter->phy_addr + iter->blk_size`. */
  datatype Adjacency = AsWritten | Repaired

  predicate LooksAdjacent(adj: Adjacency, h: Block, addr: nat, size: nat) {
    addr == if adj.AsWritten? then h.addr + size else h.End()
  }

  // ----- giving a block back to the free list

  /** Overlap is -EFAULT from line 107; the list may have been changed before it was noticed. */
  datatype Outcome = Overlap(list: seq<Block>) | Done(list: seq<Block>) {
    function Push(h: Block): Outcome {
      match this
      case Overlap(l) => Overlap([h] + l)
      case Done(l) => Done([h] + l)
    }
  }

  /** The block h has just absorbed the freed bytes: lines 105-117 for the entry after it. */
  function AbsorbNext(h: Block, rest: seq<Block>, addr: nat): Outcome {
    if rest == [] then Done([h])
    else if rest[0].Has(addr) then Overlap([h] + rest)
    else if h.End() == rest[0].addr then Done([Block(h.addr, h.size + rest[0].size)] + rest[1..])
    else Done([h] + rest)
  }

  /** The free list after free_mem_alloc has put size bytes at addr back. */
  function Release(adj: Adjacency, s: seq<Block>, addr: nat, size: nat): Outcome {
    if s == [] then Done([Block(addr, size)])
    else
      var h, rest := s[0], s[1..];
      if h.Has(addr) then Overlap(s)
      else if addr < h.addr then
        if addr + size == h.addr then AbsorbNext(Block(addr, h.size + size), rest, addr)
        else Done([Block(addr, size)] + s)
      else if LooksAdjacent(adj, h, addr, size) then AbsorbNext(Block(h.addr, h.size + size), rest, addr)
      else Release(adj, rest, addr, size).Push(h)
  }

  function Total(s: seq<Block>): nat {
    if s == [] then 0 else s[0].size + Total(s[1..])
  }

  predicate Holds(s: seq<Block>, x: nat) { s != [] && (s[0].Has(x) || Holds(s[1..], x)) }

  /** In address order inside [lo, hi), no block empty, at least gap bytes between neighbours.
      Gap 0 is sorted and disjoint, gap 1 is also fully coalesced. */
  predicate Spaced(s: seq<Block>, lo: nat, hi: nat, gap: nat)
    decreases |s|
  {
    s != [] ==>
      && s[0].size > 0 && lo <= s[0].addr && s[0].End() <= hi
      && Spaced(s[1..], s[0].End() + gap, hi, gap)
  }

  /** Whatever happens to the list, the byte count is right. */
  lemma {:induction false} ReleaseTotal(adj: Adjacency, s: seq<Block>, addr: nat, size: nat)
    ensures Release(adj, s, addr, size).Done? ==> Total(Release(adj, s, addr, size).list) == Total(s) + size
  {
    if s != [] {
      var h, rest := s[0], s[1..];
      if !h.Has(addr) && addr >= h.addr && !LooksAdjacent(adj, h, addr, size) {
        ReleaseTotal(adj, rest, addr, size);
        var o := Release(adj, rest, addr, size);
        assert ([h] + o.list)[1..] == o.list;
      } else if !h.Has(addr) {
        ReleaseHeadTotal(adj, s, addr, size);
      }
    }
  }

  lemma ReleaseHeadTotal(adj: Adjacency, s: seq<Block>, addr: nat, size: nat)
    requires s != [] && !s[0].Has(addr) && (addr < s[0].addr || LooksAdjacent(adj, s[0], addr, size))
    ensures Release(adj, s, addr, size).Done? ==> Total(Release(adj, s, addr, size).list) == Total(s) + size
  {
    var h, rest := s[0], s[1..];
    if addr < h.addr && addr + size != h.addr {
      assert ([Block(addr, size)] + s)[1..] == s;
    } else {
      var g := if addr < h.addr then Block(addr, h.size + size) else Block(h.addr, h.size + size);
      AbsorbTotal(g, rest, addr);
    }
  }

  lemma AbsorbTotal(h: Block, rest: seq<Block>, addr: nat)
    ensures AbsorbNext(h, rest, addr).Done? ==> Total(AbsorbNext(h, rest, addr).list) == h.size + Total(rest)
  {
    assert ([h] + rest)[1..] == rest;
    if rest != [] {
      assert ([Block(h.addr, h.size + rest[0].size)] + rest[1..])[1..] == rest[1..];
    }
  }

  /** No block of the list shares a byte with [addr, addr+size). */
  predicate Outside(s: seq<Block>, addr: nat, size: nat) {
    s != [] ==> (s[0].End() <= addr || addr + size <= s[0].addr) && Outside(s[1..], addr, size)
  }

  /** Line 131 takes a lower block that does not reach the freed one for its neighbour. */
  predicate Misfire(adj: Adjacency, s: seq<Block>, addr: nat, size: nat) {
    s != [] && ((s[0].End() < addr && LooksAdjacent(adj, s[0], addr, size)) || Misfire(adj, s[1..], addr, size))
  }

  /** Line 131 overlooks the real lower neighbour. */
  predicate Missed(adj: Adjacency, s: seq<Block>, addr: nat, size: nat) {
    s != [] && ((s[0].End() == addr && !LooksAdjacent(adj, s[0], addr, size)) || Missed(adj, s[1..], addr, size))
  }

  /** What line 131 must not do: misfire, and on a coalesced list also not overlook a neighbour. */
  predicate Faulty(adj: Adjacency, s: seq<Block>, addr: nat, size: nat, gap: nat) {
    Misfire(adj, s, addr, size) || (gap > 0 && Missed(adj, s, addr, size))
  }

  lemma {:induction false} RepairedIsNeverFaulty(s: seq<Block>, addr: nat, size: nat, gap: nat)
    ensures !Faulty(Repaired, s, addr, size, gap)
  {
    if s != [] { RepairedIsNeverFaulty(s[1..], addr, size, gap); }
  }

  // ----- what the free list becomes

  predicate Freed(x: nat, addr: nat, size: nat) { addr <= x < addr + size }

  /** l is the list s with exactly the freed bytes added, still in order. */
  ghost predicate Gained(l: seq<Block>, s: seq<Block>, addr: nat, size: nat, lo: nat, hi: nat, gap: nat) {
    Spaced(l, lo, hi, gap) && forall x: nat :: Holds(l, x) <==> Holds(s, x) || Freed(x, addr, size)
  }

  lemma {:induction false} HoldsAbove(s: seq<Block>, lo: nat, hi: nat, gap: nat, x: nat)
    requires Spaced(s, lo, hi, gap) && Holds(s, x)
    ensures lo <= x < hi
    decreases |s|
  {
    if !s[0].Has(x) { HoldsAbove(s[1..], s[0].End() + gap, hi, gap, x); }
  }

  lemma {:induction false} OutsideMeansNotHeld(s: seq<Block>, addr: nat, size: nat, x: nat)
    requires Outside(s, addr, size) && Freed(x, addr, size)
    ensures !Holds(s, x)
  {
    if s != [] { OutsideMeansNotHeld(s[1..], addr, size, x); }
  }

  lemma ConsHolds(h: Block, l: seq<Block>, x: nat)
    ensures Holds([h] + l, x) <==> h.Has(x) || Holds(l, x)
  {
    assert ([h] + l)[1..] == l;
  }

  lemma ConsSpaced(h: Block, l: seq<Block>, lo: nat, hi: nat, gap: nat)
    ensures Spaced([h] + l, lo, hi, gap) <==>
              h.size > 0 && lo <= h.addr && h.End() <= hi && Spaced(l, h.End() + gap, hi, gap)
  {
    assert ([h] + l)[1..] == l;
  }

  /** Absorbing the entry after a grown block keeps order and adds no byte. */
  lemma AbsorbGood(h: Block, rest: seq<Block>, addr: nat, lo: nat, hi: nat, gap: nat)
    requires gap <= 1 && h.size > 0 && lo <= h.addr && h.End() <= hi && Spaced(rest, h.End(), hi, gap)
    requires h.Has(addr)
    ensures AbsorbNext(h, rest, addr).Done? && Spaced(AbsorbNext(h, rest, addr).list, lo, hi, gap)
    ensures forall x: nat :: Holds(AbsorbNext(h, rest, addr).list, x) <==> h.Has(x) || Holds(rest, x)
  {
    if rest != [] {
      var g := Block(h.addr, h.size + rest[0].size);
      ConsSpaced(h, rest, lo, hi, gap);
      ConsSpaced(g, rest[1..], lo, hi, gap);
      assert rest == [rest[0]] + rest[1..];
      forall x: nat
        ensures Holds(AbsorbNext(h, rest, addr).list, x) <==> h.Has(x) || Holds(rest, x)
      {
        ConsHolds(h, rest, x);
        ConsHolds(g, rest[1..], x);
      }
    }
  }

  /** Unless line 131 is at fault, free_mem_alloc adds exactly the freed bytes, keeps the list
      in order, and on a coalesced list leaves no two blocks touching. */
  lemma {:induction false} ReleaseGood(adj: Adjacency, s: seq<Block>, addr: nat, size: nat, lo: nat, hi: nat, gap: nat)
    requires gap <= 1 && size > 0 && lo <= addr && addr + size <= hi
    requires Spaced(s, lo, hi, gap) && Outside(s, addr, size) && !Faulty(adj, s, addr, size, gap)
    ensures Release(adj, s, addr, size).Done?
    ensures Gained(Release(adj, s, addr, size).list, s, addr, size, lo, hi, gap)
    decreases |s|
  {
    var b := Block(addr, size);
    if s == [] {
      return;
    }
    var h, rest := s[0], s[1..];
    if addr < h.addr {
      ReleaseBelow(adj, s, addr, size, lo, hi, gap);
    } else if LooksAdjacent(adj, h, addr, size) {
      AbsorbGood(Block(h.addr, h.size + size), rest, addr, lo, hi, gap) by {
        SpacedAfter(rest, addr, size, h.End() + gap, hi, gap);
      }
    } else {
      ReleaseGood(adj, rest, addr, size, h.End() + gap, hi, gap);
      var l := Release(adj, rest, addr, size).list;
      ConsSpaced(h, l, lo, hi, gap);
      forall x: nat { ConsHolds(h, l, x); }
    }
  }

  /** Blocks that start at or above addr and avoid the freed bytes start behind them. */
  lemma SpacedAfter(s: seq<Block>, addr: nat, size: nat, lo: nat, hi: nat, gap: nat)
    requires Spaced(s, lo, hi, gap) && Outside(s, addr, size) && addr <= lo && addr + size <= hi
    ensures Spaced(s, addr + size, hi, gap)
  {}

  lemma ReleaseBelow(adj: Adjacency, s: seq<Block>, addr: nat, size: nat, lo: nat, hi: nat, gap: nat)
    requires gap <= 1 && size > 0 && lo <= addr && s != [] && addr < s[0].addr
    requires Spaced(s, lo, hi, gap) && Outside(s, addr, size)
    ensures Release(adj, s, addr, size).Done?
    ensures Gained(Release(adj, s, addr, size).list, s, addr, size, lo, hi, gap)
  {
    var h, rest, b := s[0], s[1..], Block(addr, size);
    if addr + size == h.addr {
      AbsorbGood(Block(addr, h.size + size), rest, addr, lo, hi, gap);
    } else {
      ConsSpaced(b, s, lo, hi, gap);
      forall x: nat { ConsHolds(b, s, x); }
    }
  }

  /** Where line 131 is at fault, the free list comes out wrong. */
  lemma {:induction false} ReleaseBad(adj: Adjacency, s: seq<Block>, addr: nat, size: nat, lo: nat, hi: nat, gap: nat)
    requires gap <= 1 && size > 0 && lo <= addr && addr + size <= hi
    requires Spaced(s, lo, hi, gap) && Outside(s, addr, size) && Faulty(adj, s, addr, size, gap)
    ensures !Gained(Release(adj, s, addr, size).list, s, addr, size, lo, hi, gap)
    decreases |s|
  {
    var h, rest := s[0], s[1..];
    if addr < h.addr {
      NothingFaultyAbove(adj, s, addr, size, lo, hi, gap);
    } else if LooksAdjacent(adj, h, addr, size) {
      if h.End() == addr { NothingFaultyAbove(adj, rest, addr, size, addr + gap, hi, gap); }
      MisfireGrabs(adj, s, addr, size, lo, hi, gap);
    } else if h.End() == addr {
      NothingFaultyAbove(adj, rest, addr, size, addr + gap, hi, gap);
      NeighbourLeft(adj, s, addr, size, lo, hi, gap);
    } else {
      ReleaseBad(adj, rest, addr, size, h.End() + gap, hi, gap);
      FaultStays(adj, s, addr, size, lo, hi, gap);
    }
  }

  /** Line 131 only looks at blocks below the freed one. */
  lemma {:induction false} NothingFaultyAbove(adj: Adjacency, s: seq<Block>, addr: nat, size: nat, lo: nat, hi: nat, gap: nat)
    requires Spaced(s, lo, hi, gap) && (addr <= lo || (s != [] && addr < s[0].addr))
    ensures !Faulty(adj, s, addr, size, gap)
    decreases |s|
  {
    if s != [] { NothingFaultyAbove(adj, s[1..], addr, size, s[0].End() + gap, hi, gap); }
  }

  /** A misfire makes the lower block reach over its own end, to bytes it does not own. */
  lemma MisfireGrabs(adj: Adjacency, s: seq<Block>, addr: nat, size: nat, lo: nat, hi: nat, gap: nat)
    requires s != [] && size > 0 && Spaced(s, lo, hi, gap) && Outside(s, addr, size)
    requires s[0].End() < addr && LooksAdjacent(adj, s[0], addr, size)
    ensures !Gained(Release(adj, s, addr, size).list, s, addr, size, lo, hi, gap)
  {
    var h, rest := s[0], s[1..];
    var g, x := Block(h.addr, h.size + size), h.End();
    var l := Release(adj, s, addr, size).list;
    assert l[0].addr == g.addr && l[0].End() >= g.End();
    assert l == [l[0]] + l[1..];
    ConsHolds(l[0], l[1..], x);
    assert Holds(l, x);
    if Holds(s, x) {
      assert Holds(rest, x);
      HoldsAbove(rest, h.End() + gap, hi, gap, x);
      FirstHolds(rest, x, hi, gap);
      ConsSpaced(g, rest, lo, hi, gap);
    }
  }

  lemma FirstHolds(s: seq<Block>, x: nat, hi: nat, gap: nat)
    requires Spaced(s, x, hi, gap) && Holds(s, x)
    ensures s[0].addr == x
  {
    if !s[0].Has(x) { HoldsAbove(s[1..], s[0].End() + gap, hi, gap, x); }
  }

  /** An overlooked neighbour stays apart from the freed block it touches. */
  lemma NeighbourLeft(adj: Adjacency, s: seq<Block>, addr: nat, size: nat, lo: nat, hi: nat, gap: nat)
    requires s != [] && gap == 1 && size > 0 && Spaced(s, lo, hi, gap) && Outside(s, addr, size)
    requires s[0].End() == addr && !LooksAdjacent(adj, s[0], addr, size)
    ensures !Gained(Release(adj, s, addr, size).list, s, addr, size, lo, hi, gap)
  {
    var h, rest := s[0], s[1..];
    var l := Release(adj, rest, addr, size).list;
    assert l[0].addr == addr;
    ConsSpaced(h, l, lo, hi, gap);
  }

  /** A fault in the tail of the list is a fault of the list. */
  lemma FaultStays(adj: Adjacency, s: seq<Block>, addr: nat, size: nat, lo: nat, hi: nat, gap: nat)
    requires s != [] && !s[0].Has(addr) && s[0].End() <= addr && !LooksAdjacent(adj, s[0], addr, size)
    requires Spaced(s, lo, hi, gap)
    requires !Gained(Release(adj, s[1..], addr, size).list, s[1..], addr, size, s[0].End() + gap, hi, gap)
    ensures !Gained(Release(adj, s, addr, size).list, s, addr, size, lo, hi, gap)
  {
    var h, rest := s[0], s[1..];
    var l := Release(adj, rest, addr, size).list;
    ConsSpaced(h, l, lo, hi, gap);
    if Spaced(l, h.End() + gap, hi, gap) {
      var x: nat :| Holds(l, x) != (Holds(rest, x) || Freed(x, addr, size));
      ConsHolds(h, l, x);
      if Holds(l, x) { HoldsAbove(l, h.End() + gap, hi, gap, x); }
      if Holds(rest, x) { HoldsAbove(rest, h.End() + gap, hi, gap, x); }
    }
  }

  /** free_mem_alloc keeps the free list in order and adds exactly the freed bytes, if and only
      if line 131 neither misfires nor, on a coalesced list, overlooks the lower neighbour. */
  lemma ReleaseIff(adj: Adjacency, s: seq<Block>, addr: nat, size: nat, lo: nat, hi: nat, gap: nat)
    requires gap <= 1 && size > 0 && lo <= addr && addr + size <= hi
    requires Spaced(s, lo, hi, gap) && Outside(s, addr, size)
    ensures Gained(Release(adj, s, addr, size).list, s, addr, size, lo, hi, gap) <==> !Faulty(adj, s, addr, size, gap)
  {
    if Faulty(adj, s, addr, size, gap) {
      ReleaseBad(adj, s, addr, size, lo, hi, gap);
    } else {
      ReleaseGood(adj, s, addr, size, lo, hi, gap);
    }
  }

  // ----- taking a block from the free list

  /** The free list and the block that alloc_mem takes for n (rounded) bytes: the first block
      that is large enough, cut only if a whole allocation unit is left over. */
  function Carve(s: seq<Block>, n: nat): Option<(seq<Block>, Block)> {
    if s == [] then None
    else if s[0].size >= n then
      if s[0].size - n >= ALLOC_UNIT
      then Some(([Block(s[0].addr + n, s[0].size - n)] + s[1..], Block(s[0].addr, n)))
      else Some((s[1..], s[0]))
    else
      match Carve(s[1..], n)
      case None => None
      case Some((l, b)) => Some(([s[0]] + l, b))
  }

  /** The block comes out of the list: the list keeps its order and exactly the other bytes. */
  lemma {:induction false} CarveTakes(s: seq<Block>, n: nat, lo: nat, hi: nat, gap: nat)
    requires Spaced(s, lo, hi, gap) && Carve(s, n).Some?
    ensures var (l, b) := Carve(s, n).value;
            && Spaced(l, lo, hi, gap) && Outside(l, b.addr, b.size)
            && Total(l) + b.size == Total(s)
            && n <= b.size < n + ALLOC_UNIT && lo <= b.addr && b.End() <= hi
            && forall x: nat :: Holds(s, x) <==> Holds(l, x) || b.Has(x)
    decreases |s|
  {
    var h, rest := s[0], s[1..];
    var (l, b) := Carve(s, n).value;
    if h.size >= n {
      var g := Block(h.addr + n, h.size - n);
      OutsideBelow(rest, h.addr, h.size, h.End() + gap, hi, gap);
      if h.size - n >= ALLOC_UNIT {
        OutsideBelow(rest, h.addr, n, h.End() + gap, hi, gap);
        ConsSpaced(g, rest, lo, hi, gap);
        assert ([g] + rest)[1..] == rest;
        forall x: nat { ConsHolds(g, rest, x); }
      } else {
        SpacedLower(rest, h.End() + gap, lo, hi, gap);
      }
    } else {
      CarveTakes(rest, n, h.End() + gap, hi, gap);
      var l' := Carve(rest, n).value.0;
      ConsSpaced(h, l', lo, hi, gap);
      assert ([h] + l')[1..] == l';
      forall x: nat { ConsHolds(h, l', x); }
    }
  }

  lemma SpacedLower(s: seq<Block>, lo: nat, lo': nat, hi: nat, gap: nat)
    requires Spaced(s, lo, hi, gap) && lo' <= lo
    ensures Spaced(s, lo', hi, gap)
  {}

  lemma {:induction false} OutsideBelow(s: seq<Block>, addr: nat, size: nat, lo: nat, hi: nat, gap: nat)
    requires Spaced(s, lo, hi, gap) && addr + size <= lo
    ensures Outside(s, addr, size)
    decreases |s|
  {
    if s != [] { OutsideBelow(s[1..], addr, size, s[0].End() + gap, hi, gap); }
  }

  /** A request is refused exactly when every free block is too small. */
  lemma {:induction false} CarveRefusesIff(s: seq<Block>, n: nat)
    ensures Carve(s, n).None? <==> forall i :: 0 <= i < |s| ==> s[i].size < n
  {
    if s != [] {
      CarveRefusesIff(s[1..], n);
      assert forall i :: 0 <= i < |s| - 1 ==> s[1..][i] == s[i + 1];
      assert (forall i :: 0 <= i < |s| ==> s[i].size < n) <==>
             s[0].size < n && forall i :: 0 <= i < |s[1..]| ==> s[1..][i].size < n by {
        forall i | 0 <= i < |s|
          ensures i > 0 ==> s[i] == s[1..][i - 1]
        {}
      }
    }
  }

  // ----- the manager

  function RoundUp(len: nat): nat { (len + ROUNDING - 1) / ROUNDING * ROUNDING % U32 }

  function IndexOf(s: seq<Block>, addr: nat): (k: nat)
    ensures k <= |s| && (k < |s| ==> s[k].addr == addr)
    ensures forall j :: 0 <= j < k ==> s[j].addr != addr
  {
    if s == [] || s[0].addr == addr then 0 else 1 + IndexOf(s[1..], addr)
  }

  datatype Mgr = Mgr(base: nat, tot: nat, free: seq<Block>, allocs: seq<Block>, freeMem: int) {
    function End(): nat { base + tot }

    ghost predicate AllocatedAt(x: nat) { exists i :: 0 <= i < |allocs| && allocs[i].Has(x) }

    /** Allocated blocks are disjoint from each other and from the free list. */
    ghost predicate AllocsApart() {
      && (forall i :: 0 <= i < |allocs| ==> allocs[i].size > 0 && base <= allocs[i].addr && allocs[i].End() <= End())
      && (forall i :: 0 <= i < |allocs| ==> Outside(free, allocs[i].addr, allocs[i].size))
      && (forall i, j :: 0 <= i < j < |allocs| ==> allocs[i].End() <= allocs[j].addr || allocs[j].End() <= allocs[i].addr)
    }

    /** Every byte of the region is free or allocated. */
    ghost predicate Covered() {
      forall x: nat :: base <= x < End() ==> Holds(free, x) || AllocatedAt(x)
    }

    /** Free and allocated blocks partition the region, and free_mem counts the free bytes. */
    ghost predicate Inv(gap: nat) {
      && Spaced(free, base, End(), gap) && AllocsApart() && Covered()
      && freeMem == Total(free) && Total(free) + Total(allocs) == tot
    }

    /** free_mem_alloc. */
    function FreeMem(adj: Adjacency, addr: nat, size: nat): (Mgr, bool) {
      if tot < freeMem + size then (this, false)
      else
        match Release(adj, free, addr, size)
        case Overlap(l) => (this.(free := l), false)
        case Done(l) =>
          var k := IndexOf(allocs, addr);
          (this.(free := l, freeMem := freeMem + size,
                 allocs := if k < |allocs| then RemoveAt(allocs, k) else allocs), true)
    }

    /** alloc_mem. */
    function AllocMem(len: nat): (Mgr, Option<Block>) {
      var n := RoundUp(len);
      if freeMem < n then (this, None)
      else
        match Carve(free, n)
        case None => (this, None)
        case Some((l, b)) => (this.(free := l, freeMem := freeMem - b.size, allocs := allocs + [b]), Some(b))
    }
  }

  lemma {:induction false} TotalAppend(s: seq<Block>, b: Block)
    ensures Total(s + [b]) == Total(s) + b.size
  {
    if s != [] {
      TotalAppend(s[1..], b);
      assert (s + [b])[1..] == s[1..] + [b];
    }
  }

  lemma {:induction false} TotalRemove(s: seq<Block>, k: nat)
    requires k < |s|
    ensures Total(RemoveAt(s, k)) + s[k].size == Total(s)
  {
    var t := RemoveAt(s, k);
    if k == 0 {
      assert t == s[1..];
    } else {
      TotalRemove(s[1..], k - 1);
      assert t[0] == s[0] && t[1..] == RemoveAt(s[1..], k - 1);
    }
  }

  lemma {:induction false} NotHeldMeansOutside(s: seq<Block>, addr: nat, size: nat, lo: nat, hi: nat, gap: nat)
    requires Spaced(s, lo, hi, gap) && size > 0 && forall x: nat :: Freed(x, addr, size) ==> !Holds(s, x)
    ensures Outside(s, addr, size)
    decreases |s|
  {
    if s != [] {
      var x := if s[0].addr <= addr then addr else s[0].addr;
      assert Freed(x, addr, size) ==> !s[0].Has(x);
      NotHeldMeansOutside(s[1..], addr, size, s[0].End() + gap, hi, gap);
    }
  }

  /** Bytes that were free in no block of s are free in no block of a list with fewer bytes. */
  lemma OutsideKept(s: seq<Block>, l: seq<Block>, a: Block, lo: nat, hi: nat, gap: nat)
    requires Outside(s, a.addr, a.size) && a.size > 0 && Spaced(l, lo, hi, gap)
    requires forall x: nat :: a.Has(x) && Holds(l, x) ==> Holds(s, x)
    ensures Outside(l, a.addr, a.size)
  {
    forall x: nat | Freed(x, a.addr, a.size)
      ensures !Holds(l, x)
    {
      OutsideMeansNotHeld(s, a.addr, a.size, x);
    }
    NotHeldMeansOutside(l, a.addr, a.size, lo, hi, gap);
  }

  // ----- what allocation keeps

  lemma TakenApart(m: Mgr, gap: nat, b: Block, i: nat)
    requires m.Inv(gap) && i < |m.allocs| && b.size > 0 && forall x: nat :: b.Has(x) ==> Holds(m.free, x)
    ensures b.End() <= m.allocs[i].addr || m.allocs[i].End() <= b.addr
  {
    var a := m.allocs[i];
    var x := if a.addr <= b.addr then b.addr else a.addr;
    if b.Has(x) && a.Has(x) { OutsideMeansNotHeld(m.free, a.addr, a.size, x); }
  }

  lemma AllocApart(m: Mgr, gap: nat, l: seq<Block>, b: Block)
    requires m.Inv(gap) && b.size > 0 && m.base <= b.addr && b.End() <= m.End()
    requires Spaced(l, m.base, m.End(), gap) && Outside(l, b.addr, b.size)
    requires forall x: nat :: Holds(m.free, x) <==> Holds(l, x) || b.Has(x)
    ensures m.(free := l, allocs := m.allocs + [b]).AllocsApart()
  {
    forall i: nat | i < |m.allocs|
      ensures Outside(l, m.allocs[i].addr, m.allocs[i].size)
      ensures b.End() <= m.allocs[i].addr || m.allocs[i].End() <= b.addr
    {
      OutsideKept(m.free, l, m.allocs[i], m.base, m.End(), gap);
      TakenApart(m, gap, b, i);
    }
  }

  lemma AllocCovered(m: Mgr, l: seq<Block>, b: Block)
    requires m.Covered() && forall x: nat :: Holds(m.free, x) <==> Holds(l, x) || b.Has(x)
    ensures m.(free := l, allocs := m.allocs + [b]).Covered()
  {
    var m' := m.(free := l, allocs := m.allocs + [b]);
    forall x: nat | m.base <= x < m.End()
      ensures Holds(l, x) || m'.AllocatedAt(x)
    {
      if m.AllocatedAt(x) {
        var i :| 0 <= i < |m.allocs| && m.allocs[i].Has(x);
        assert m'.allocs[i].Has(x);
      } else if b.Has(x) {
        assert m'.allocs[|m.allocs|] == b;
      }
    }
  }

  /** An allocation keeps the partition if and only if it does not record an empty block, which
      happens when the rounded size is zero and the first free block is large. */
  lemma AllocKeepsInvIff(m: Mgr, gap: nat, len: nat)
    requires m.Inv(gap)
    ensures m.AllocMem(len).0.Inv(gap) <==> !(m.AllocMem(len).1.Some? && m.AllocMem(len).1.value.size == 0)
    ensures m.AllocMem(len).1.Some? && m.AllocMem(len).1.value.size == 0 <==>
              RoundUp(len) == 0 && m.free != [] && m.free[0].size >= ALLOC_UNIT
  {
    var n, m' := RoundUp(len), m.AllocMem(len).0;
    if m.freeMem >= n && Carve(m.free, n).Some? {
      var (l, b) := Carve(m.free, n).value;
      CarveTakes(m.free, n, m.base, m.End(), gap);
      TotalAppend(m.allocs, b);
      assert m'.allocs[|m.allocs|] == b;
      if b.size > 0 {
        AllocApart(m, gap, l, b);
        AllocCovered(m, l, b);
      }
      if m.free[0].size < n { assert b.size > 0; }
    }
  }

  /** What is handed out covers the request and is never more than a unit and a rounding larger. */
  lemma AllocEnough(m: Mgr, gap: nat, len: nat)
    requires m.Inv(gap) && m.AllocMem(len).1.Some? && len <= U32 - ROUNDING
    ensures len <= m.AllocMem(len).1.value.size < len + ROUNDING + ALLOC_UNIT
  {
    CarveTakes(m.free, RoundUp(len), m.base, m.End(), gap);
  }

  // ----- what freeing keeps

  /** m' is m with allocation k taken off the table. */
  predicate GivenBack(m: Mgr, k: nat, m': Mgr)
    requires k < |m.allocs|
  {
    m'.base == m.base && m'.tot == m.tot && m'.allocs == RemoveAt(m.allocs, k)
  }

  lemma FreeApart(m: Mgr, gap: nat, k: nat, m': Mgr)
    requires m.Inv(gap) && k < |m.allocs| && GivenBack(m, k, m')
    requires Gained(m'.free, m.free, m.allocs[k].addr, m.allocs[k].size, m.base, m.End(), gap)
    ensures m'.AllocsApart()
  {
    var l, rest := m'.free, m'.allocs;
    forall i: nat | i < |rest|
      ensures Outside(l, rest[i].addr, rest[i].size)
    {
      var j := if i < k then i else i + 1;
      assert rest[i] == m.allocs[j];
      OutsideKept(m.free, l, rest[i], m.base, m.End(), gap);
    }
  }

  lemma FreeCovered(m: Mgr, gap: nat, k: nat, m': Mgr)
    requires m.Covered() && k < |m.allocs| && GivenBack(m, k, m')
    requires Gained(m'.free, m.free, m.allocs[k].addr, m.allocs[k].size, m.base, m.End(), gap)
    ensures m'.Covered()
  {
    forall x: nat | m.base <= x < m.End() && !Holds(m'.free, x)
      ensures m'.AllocatedAt(x)
    {
      assert m.AllocatedAt(x);
      var i :| 0 <= i < |m.allocs| && m.allocs[i].Has(x);
      assert m'.allocs[if i < k then i else i - 1] == m.allocs[i];
    }
  }

  /** A byte of the freed block or of the old free list must stay free: no other block has it. */
  lemma LostByte(m: Mgr, gap: nat, k: nat, m': Mgr, x: nat)
    requires m.Inv(gap) && k < |m.allocs| && m'.base == m.base && m'.tot == m.tot
    requires m'.allocs == RemoveAt(m.allocs, k) && !Holds(m'.free, x)
    requires Holds(m.free, x) || Freed(x, m.allocs[k].addr, m.allocs[k].size)
    ensures !m'.Covered()
  {
    if Holds(m.free, x) { HoldsAbove(m.free, m.base, m.End(), gap, x); }
    forall i | 0 <= i < |m'.allocs|
      ensures !m'.allocs[i].Has(x)
    {
      var j := if i < k then i else i + 1;
      assert m'.allocs[i] == m.allocs[j] && j != k;
      if Holds(m.free, x) && m.allocs[j].Has(x) {
        OutsideMeansNotHeld(m.free, m.allocs[j].addr, m.allocs[j].size, x);
      }
    }
    assert !m'.AllocatedAt(x);
  }

  /** A byte of another allocation must not become free. */
  lemma StolenByte(m: Mgr, gap: nat, k: nat, m': Mgr, x: nat)
    requires m.Inv(gap) && k < |m.allocs| && m'.allocs == RemoveAt(m.allocs, k)
    requires m.base <= x < m.End() && Holds(m'.free, x) && !Holds(m.free, x) && !m.allocs[k].Has(x)
    ensures !m'.AllocsApart()
  {
    assert m.AllocatedAt(x);
    var i :| 0 <= i < |m.allocs| && m.allocs[i].Has(x);
    var j := if i < k then i else i - 1;
    assert m'.allocs[j] == m.allocs[i];
    if Outside(m'.free, m.allocs[i].addr, m.allocs[i].size) {
      OutsideMeansNotHeld(m'.free, m.allocs[i].addr, m.allocs[i].size, x);
    }
  }

  /** Nothing but the freed block may become free, and all of it must. */
  lemma FreeWrong(m: Mgr, gap: nat, k: nat, m': Mgr)
    requires m.Inv(gap) && k < |m.allocs| && GivenBack(m, k, m')
    requires !Gained(m'.free, m.free, m.allocs[k].addr, m.allocs[k].size, m.base, m.End(), gap)
    ensures !m'.Inv(gap)
  {
    var a := m.allocs[k];
    if Spaced(m'.free, m.base, m.End(), gap) {
      var x: nat :| Holds(m'.free, x) != (Holds(m.free, x) || Freed(x, a.addr, a.size));
      if Holds(m'.free, x) {
        HoldsAbove(m'.free, m.base, m.End(), gap, x);
        StolenByte(m, gap, k, m', x);
      } else {
        LostByte(m, gap, k, m', x);
      }
    }
  }

  /** Addresses identify allocations. */
  lemma AllocFound(m: Mgr, k: nat)
    requires m.AllocsApart() && k < |m.allocs|
    ensures IndexOf(m.allocs, m.allocs[k].addr) == k
  {
    var j := IndexOf(m.allocs, m.allocs[k].addr);
    assert j <= k;
  }

  /** Bytes that no free block has are never taken for an overlap. */
  lemma {:induction false} OutsideIsDone(adj: Adjacency, s: seq<Block>, addr: nat, size: nat)
    requires size > 0 && Outside(s, addr, size)
    ensures Release(adj, s, addr, size).Done?
  {
    if s != [] { OutsideIsDone(adj, s[1..], addr, size); }
  }

  lemma {:induction false} OutsideShorter(s: seq<Block>, addr: nat, size: nat, less: nat)
    requires less <= size && Outside(s, addr, size)
    ensures Outside(s, addr, less)
  {
    if s != [] { OutsideShorter(s[1..], addr, size, less); }
  }

  /** A live allocation, or its first bytes, can always be given back. */
  lemma FreeAccepted(m: Mgr, adj: Adjacency, gap: nat, k: nat, size: nat)
    requires m.Inv(gap) && k < |m.allocs| && 0 < size <= m.allocs[k].size
    ensures m.FreeMem(adj, m.allocs[k].addr, size).1
  {
    TotalRemove(m.allocs, k);
    OutsideShorter(m.free, m.allocs[k].addr, m.allocs[k].size, size);
    OutsideIsDone(adj, m.free, m.allocs[k].addr, size);
  }

  /** In a sorted list the walk meets the block that has the address, if there is one. */
  lemma {:induction false} RepairedOverlapIff(s: seq<Block>, addr: nat, size: nat, lo: nat, hi: nat, gap: nat)
    requires Spaced(s, lo, hi, gap)
    ensures Release(Repaired, s, addr, size).Overlap? <==> Holds(s, addr)
    decreases |s|
  {
    if s != [] {
      var h, rest := s[0], s[1..];
      if !h.Has(addr) && addr < h.addr {
        if Holds(rest, addr) { HoldsAbove(rest, h.End() + gap, hi, gap, addr); }
        if addr + size == h.addr { AbsorbOverlapIff(Block(addr, h.size + size), rest, addr, h.End() + gap, hi, gap); }
      } else if h.End() == addr {
        AbsorbOverlapIff(Block(h.addr, h.size + size), rest, addr, h.End() + gap, hi, gap);
      } else {
        RepairedOverlapIff(rest, addr, size, h.End() + gap, hi, gap);
      }
    }
  }

  lemma AbsorbOverlapIff(g: Block, rest: seq<Block>, addr: nat, lo: nat, hi: nat, gap: nat)
    requires Spaced(rest, lo, hi, gap) && addr <= lo
    ensures AbsorbNext(g, rest, addr).Overlap? <==> Holds(rest, addr)
  {
    if rest != [] && Holds(rest[1..], addr) { HoldsAbove(rest[1..], rest[0].End() + gap, hi, gap, addr); }
  }

  /** With line 131 repaired a free is accepted if and only if it does not bring the free bytes above
      the total and its address is not free already; so no allocation can be given back twice. One that
      would bring them above changes nothing, repaired or not. */
  lemma RepairedAcceptedIff(m: Mgr, gap: nat, addr: nat, size: nat)
    requires m.Inv(gap)
    ensures m.FreeMem(Repaired, addr, size).1 <==> Total(m.free) + size <= m.tot && !Holds(m.free, addr)
    ensures forall adj :: Total(m.free) + size > m.tot ==> m.FreeMem(adj, addr, size) == (m, false)
  {
    RepairedOverlapIff(m.free, addr, size, m.base, m.End(), gap);
  }

  /** The walk takes the freed bytes for a neighbour's before it meets the block that has them. */
  predicate Trips(adj: Adjacency, s: seq<Block>, addr: nat, size: nat) {
    && |s| > 1 && !s[0].Has(addr) && s[0].addr <= addr
    && if LooksAdjacent(adj, s[0], addr, size) then s[1].Has(addr) else Trips(adj, s[1..], addr, size)
  }

  lemma {:induction false} OverlapChangesIff(adj: Adjacency, s: seq<Block>, addr: nat, size: nat, lo: nat, hi: nat, gap: nat)
    requires Spaced(s, lo, hi, gap) && size > 0 && Release(adj, s, addr, size).Overlap?
    ensures Release(adj, s, addr, size).list != s <==> Trips(adj, s, addr, size)
    decreases |s|
  {
    var h, rest := s[0], s[1..];
    assert s == [h] + rest;
    if !h.Has(addr) && addr >= h.addr {
      if LooksAdjacent(adj, h, addr, size) {
        assert ([Block(h.addr, h.size + size)] + rest)[0] != s[0];
      } else {
        OverlapChangesIff(adj, rest, addr, size, h.End() + gap, hi, gap);
        var l := Release(adj, rest, addr, size).list;
        assert ([h] + l)[1..] == l;
      }
    }
  }

  /** A refused free of at least one byte changes the free list if and only if the walk trips so; on a
      coalesced list with line 131 repaired it never does. */
  lemma RefusedChangesIff(m: Mgr, adj: Adjacency, gap: nat, addr: nat, size: nat)
    requires m.Inv(gap) && size > 0 && !m.FreeMem(adj, addr, size).1
    ensures m.FreeMem(adj, addr, size).0 != m <==> Total(m.free) + size <= m.tot && Trips(adj, m.free, addr, size)
    ensures adj.Repaired? && gap > 0 ==> m.FreeMem(adj, addr, size).0 == m
  {
    if Total(m.free) + size <= m.tot {
      OverlapChangesIff(adj, m.free, addr, size, m.base, m.End(), gap);
    }
    if gap > 0 { RepairedNeverTrips(m.free, addr, size, m.base, m.End(), gap); }
  }

  lemma {:induction false} RepairedNeverTrips(s: seq<Block>, addr: nat, size: nat, lo: nat, hi: nat, gap: nat)
    requires Spaced(s, lo, hi, gap) && gap > 0
    ensures !Trips(Repaired, s, addr, size)
    decreases |s|
  {
    if s != [] { RepairedNeverTrips(s[1..], addr, size, s[0].End() + gap, hi, gap); }
  }

  /** As written it does: a free that is refused has already lengthened the block below. */
  lemma RefusedYetChanged(u: nat, m: Mgr)
    requires u > 0 && m.tot >= 5 * u && m.freeMem == 3 * u && m.free == [Block(m.base, u), Block(m.base + 2 * u, 2 * u)]
    ensures m.FreeMem(AsWritten, m.base + 2 * u, 2 * u)
         == (m.(free := [Block(m.base, 3 * u), Block(m.base + 2 * u, 2 * u)]), false)
  {
    assert m.free[1..] == [Block(m.base + 2 * u, 2 * u)];
    assert [Block(m.base, 3 * u)] + m.free[1..] == [Block(m.base, 3 * u), Block(m.base + 2 * u, 2 * u)];
  }

  /** Giving back an address that is no allocation's leaves the table alone and, if accepted, loses the
      partition. */
  lemma UnknownFreeBreaks(m: Mgr, adj: Adjacency, gap: nat, addr: nat, size: nat, gap': nat)
    requires m.Inv(gap) && size > 0 && forall a <- m.allocs :: a.addr != addr
    ensures m.FreeMem(adj, addr, size).0.allocs == m.allocs
    ensures m.FreeMem(adj, addr, size).1 ==> !m.FreeMem(adj, addr, size).0.Inv(gap')
  {
    ReleaseTotal(adj, m.free, addr, size);
  }

  /** But with a byte count that is not the recorded one, some bytes are then in neither list or in
      both. */
  lemma WrongSizeBreaks(m: Mgr, adj: Adjacency, gap: nat, k: nat, size: nat, gap': nat)
    requires m.Inv(gap) && k < |m.allocs| && size != m.allocs[k].size
    requires m.FreeMem(adj, m.allocs[k].addr, size).1
    ensures !m.FreeMem(adj, m.allocs[k].addr, size).0.Inv(gap')
  {
    AllocFound(m, k);
    ReleaseTotal(adj, m.free, m.allocs[k].addr, size);
    TotalRemove(m.allocs, k);
  }

  /** Giving an allocation back, with a byte count that the manager accepts, keeps the partition
      if and only if the count is the recorded one and line 131 is not at fault. */
  lemma FreeKeepsInvIff(m: Mgr, adj: Adjacency, gap: nat, k: nat, size: nat)
    requires gap <= 1 && m.Inv(gap) && k < |m.allocs|
    requires m.FreeMem(adj, m.allocs[k].addr, size).1
    ensures m.FreeMem(adj, m.allocs[k].addr, size).0.Inv(gap) <==>
              size == m.allocs[k].size && !Faulty(adj, m.free, m.allocs[k].addr, size, gap)
  {
    if size == m.allocs[k].size {
      FreeIsExact(m, adj, gap, k);
      FreeExactIff(m, adj, gap, k);
    } else {
      WrongSizeBreaks(m, adj, gap, k, size, gap);
    }
  }

  lemma FreeIsExact(m: Mgr, adj: Adjacency, gap: nat, k: nat)
    requires m.Inv(gap) && k < |m.allocs| && m.FreeMem(adj, m.allocs[k].addr, m.allocs[k].size).1
    ensures var a := m.allocs[k];
            && Release(adj, m.free, a.addr, a.size).Done?
            && m.FreeMem(adj, a.addr, a.size).0 == m.(free := Release(adj, m.free, a.addr, a.size).list,
                                                      freeMem := m.freeMem + a.size, allocs := RemoveAt(m.allocs, k))
  {
    AllocFound(m, k);
  }

  /** What the callers do: they give back the length they asked for. Whenever the block handed out
      is larger, because the length was rounded up or the block taken whole, the call is accepted
      and the partition is lost, with line 131 repaired or not. */
  lemma UnroundedFreeBreaks(m: Mgr, adj: Adjacency, gap: nat, len: nat, gap': nat)
    requires m.Inv(gap) && 0 < len <= U32 - ROUNDING
    requires m.AllocMem(len).1.Some? && m.AllocMem(len).1.value.size != len
    ensures var (m', b) := m.AllocMem(len);
            var (m'', ok) := m'.FreeMem(adj, b.value.addr, len);
            ok && !m''.Inv(gap')
  {
    var m', k := m.AllocMem(len).0, |m.allocs|;
    AllocEnough(m, gap, len);
    AllocKeepsInvIff(m, gap, len);
    assert m'.allocs[k] == m.AllocMem(len).1.value;
    FreeAccepted(m', adj, gap, k, len);
    WrongSizeBreaks(m', adj, gap, k, len, gap');
  }

  lemma FreeExactIff(m: Mgr, adj: Adjacency, gap: nat, k: nat)
    requires gap <= 1 && m.Inv(gap) && k < |m.allocs| && Release(adj, m.free, m.allocs[k].addr, m.allocs[k].size).Done?
    ensures var a := m.allocs[k];
            var l := Release(adj, m.free, a.addr, a.size).list;
            m.(free := l, freeMem := m.freeMem + a.size, allocs := RemoveAt(m.allocs, k)).Inv(gap)
            <==> !Faulty(adj, m.free, a.addr, a.size, gap)
  {
    var a := m.allocs[k];
    ReleaseIff(adj, m.free, a.addr, a.size, m.base, m.End(), gap);
    ReleaseTotal(adj, m.free, a.addr, a.size);
    var l := Release(adj, m.free, a.addr, a.size).list;
    if Faulty(adj, m.free, a.addr, a.size, gap) {
      FreeWrong(m, gap, k, m.(free := l, freeMem := m.freeMem + a.size, allocs := RemoveAt(m.allocs, k)));
    } else {
      FreeRight(m, gap, k, m.(free := l, freeMem := m.freeMem + a.size, allocs := RemoveAt(m.allocs, k)));
    }
  }

  lemma FreeRight(m: Mgr, gap: nat, k: nat, m': Mgr)
    requires m.Inv(gap) && k < |m.allocs| && GivenBack(m, k, m')
    requires m'.freeMem == m.freeMem + m.allocs[k].size == Total(m'.free)
    requires Gained(m'.free, m.free, m.allocs[k].addr, m.allocs[k].size, m.base, m.End(), gap)
    ensures m'.Inv(gap)
  {
    TotalRemove(m.allocs, k);
    FreeApart(m, gap, k, m');
    FreeCovered(m, gap, k, m');
  }

  /** With line 131 repaired, the recorded count is accepted and keeps the partition. */
  lemma RepairedFreeKeepsInv(m: Mgr, gap: nat, k: nat)
    requires gap <= 1 && m.Inv(gap) && k < |m.allocs|
    ensures m.FreeMem(Repaired, m.allocs[k].addr, m.allocs[k].size).1
    ensures m.FreeMem(Repaired, m.allocs[k].addr, m.allocs[k].size).0.Inv(gap)
  {
    var a := m.allocs[k];
    TotalRemove(m.allocs, k);
    RepairedIsNeverFaulty(m.free, a.addr, a.size, gap);
    ReleaseGood(Repaired, m.free, a.addr, a.size, m.base, m.End(), gap);
    FreeKeepsInvIff(m, Repaired, gap, k, a.size);
  }

  // ----- a coalesced list is determined by its bytes

  lemma HeadEndsFirst(a: seq<Block>, b: seq<Block>, lo: nat, hi: nat)
    requires a != [] && b != [] && Spaced(a, lo, hi, 1) && Spaced(b, lo, hi, 1) && a[0].addr == b[0].addr
    requires forall x: nat :: Holds(a, x) <==> Holds(b, x)
    ensures b[0].End() <= a[0].End()
  {
    var x := a[0].End();
    if Holds(a[1..], x) { HoldsAbove(a[1..], x + 1, hi, 1, x); }
    assert !Holds(a, x) && !b[0].Has(x);
  }

  lemma HeadIsLowest(a: seq<Block>, b: seq<Block>, lo: nat, hi: nat)
    requires a != [] && Spaced(a, lo, hi, 1) && Spaced(b, lo, hi, 1)
    requires forall x: nat :: Holds(a, x) <==> Holds(b, x)
    ensures b != [] && b[0].addr <= a[0].addr
  {
    var x := a[0].addr;
    assert Holds(a, x) && Holds(b, x);
    if !b[0].Has(x) { HoldsAbove(b[1..], b[0].End() + 1, hi, 1, x); }
  }

  lemma TailHolds(a: seq<Block>, lo: nat, hi: nat, x: nat)
    requires a != [] && Spaced(a, lo, hi, 1)
    ensures Holds(a[1..], x) <==> Holds(a, x) && !a[0].Has(x)
  {
    if Holds(a[1..], x) { HoldsAbove(a[1..], a[0].End() + 1, hi, 1, x); }
  }

  lemma {:induction false} CoalescedIsUnique(a: seq<Block>, b: seq<Block>, lo: nat, hi: nat)
    requires Spaced(a, lo, hi, 1) && Spaced(b, lo, hi, 1)
    requires forall x: nat :: Holds(a, x) <==> Holds(b, x)
    ensures a == b
    decreases |a|
  {
    if a == [] {
      if b != [] { HeadIsLowest(b, a, lo, hi); }
    } else {
      HeadIsLowest(a, b, lo, hi);
      HeadIsLowest(b, a, lo, hi);
      HeadEndsFirst(a, b, lo, hi);
      HeadEndsFirst(b, a, lo, hi);
      assert a[0] == b[0];
      forall x: nat
        ensures Holds(a[1..], x) <==> Holds(b[1..], x)
      {
        TailHolds(a, lo, hi, x);
        TailHolds(b, lo, hi, x);
      }
      CoalescedIsUnique(a[1..], b[1..], a[0].End() + 1, hi);
      assert a == [a[0]] + a[1..] && b == [b[0]] + b[1..];
    }
  }

  lemma ReleaseRestores(m: Mgr, adj: Adjacency, n: nat)
    requires m.Inv(1) && Carve(m.free, n).Some? && Carve(m.free, n).value.1.size > 0
    requires var (l, b) := Carve(m.free, n).value; !Faulty(adj, l, b.addr, b.size, 1)
    ensures var (l, b) := Carve(m.free, n).value; Release(adj, l, b.addr, b.size) == Done(m.free)
  {
    var (l, b) := Carve(m.free, n).value;
    CarveTakes(m.free, n, m.base, m.End(), 1);
    ReleaseGood(adj, l, b.addr, b.size, m.base, m.End(), 1);
    CoalescedIsUnique(Release(adj, l, b.addr, b.size).list, m.free, m.base, m.End());
  }

  /** Giving a fresh allocation straight back restores the manager exactly, whether the block was cut
      from a larger one or taken whole, if and only if line 131 is not at fault. */
  lemma FreeUndoesAllocIff(m: Mgr, adj: Adjacency, len: nat)
    requires m.Inv(1) && m.AllocMem(len).1.Some? && m.AllocMem(len).1.value.size > 0
    ensures var (m', b) := m.AllocMem(len);
            m'.FreeMem(adj, b.value.addr, b.value.size) == (m, true) <==> !Faulty(adj, m'.free, b.value.addr, b.value.size, 1)
  {
    var m', b, k := m.AllocMem(len).0, m.AllocMem(len).1.value, |m.allocs|;
    AllocKeepsInvIff(m, 1, len);
    assert m'.allocs[k] == b;
    FreeAccepted(m', adj, 1, k, b.size);
    if Faulty(adj, m'.free, b.addr, b.size, 1) {
      FreeKeepsInvIff(m', adj, 1, k, b.size);
    } else {
      ReleaseRestores(m, adj, RoundUp(len));
      AllocFound(m', k);
      assert RemoveAt(m'.allocs, k) == m.allocs;
    }
  }

  // ----- whole runs

  datatype Op = AllocOp(len: nat) | FreeOp(addr: nat, size: nat)

  function Step(adj: Adjacency, m: Mgr, op: Op): Mgr {
    match op
    case AllocOp(len) => m.AllocMem(len).0
    case FreeOp(addr, size) => m.FreeMem(adj, addr, size).0
  }

  /** What callers owe: requests that are not rounded to nothing, and frees that name a live
      allocation and its recorded size. */
  predicate Owed(m: Mgr, op: Op) {
    match op
    case AllocOp(len) => RoundUp(len) > 0
    case FreeOp(addr, size) => Block(addr, size) in m.allocs
  }

  /** Line 131 is at fault in this call. */
  predicate FaultyOp(adj: Adjacency, m: Mgr, op: Op, gap: nat) {
    op.FreeOp? && Faulty(adj, m.free, op.addr, op.size, gap)
  }

  lemma StepKeepsInvIff(adj: Adjacency, m: Mgr, op: Op, gap: nat)
    requires gap <= 1 && m.Inv(gap) && Owed(m, op)
    ensures Step(adj, m, op).Inv(gap) <==> !FaultyOp(adj, m, op, gap)
  {
    match op
    case AllocOp(len) => AllocKeepsInvIff(m, gap, len);
    case FreeOp(addr, size) =>
      var k :| 0 <= k < |m.allocs| && m.allocs[k] == Block(addr, size);
      FreeAccepted(m, adj, gap, k, size);
      FreeKeepsInvIff(m, adj, gap, k, size);
  }

  /** Every call of the run is owed in the state it is made in. */
  predicate OwedRun(adj: Adjacency, m: Mgr, ops: seq<Op>)
    decreases |ops|
  {
    ops != [] ==> Owed(m, ops[0]) && OwedRun(adj, Step(adj, m, ops[0]), ops[1..])
  }

  function Run(adj: Adjacency, m: Mgr, ops: seq<Op>): Mgr
    decreases |ops|
  {
    if ops == [] then m else Run(adj, Step(adj, m, ops[0]), ops[1..])
  }

  /** Some call of the run meets the fault. */
  predicate FaultyRun(adj: Adjacency, m: Mgr, ops: seq<Op>, gap: nat)
    decreases |ops|
  {
    ops != [] && (FaultyOp(adj, m, ops[0], gap) || FaultyRun(adj, Step(adj, m, ops[0]), ops[1..], gap))
  }

  /** Every state of the run keeps the partition. */
  ghost predicate RunInv(adj: Adjacency, m: Mgr, ops: seq<Op>, gap: nat)
    decreases |ops|
  {
    m.Inv(gap) && (ops != [] ==> RunInv(adj, Step(adj, m, ops[0]), ops[1..], gap))
  }

  /** Over every run of owed calls: free and allocated blocks partition the region, free_mem is the
      sum of the free blocks and (gap 1) the list is coalesced in every state, if and only if
      line 131 is never at fault. */
  lemma {:induction false} RunInvIff(adj: Adjacency, m: Mgr, ops: seq<Op>, gap: nat)
    requires gap <= 1 && m.Inv(gap) && OwedRun(adj, m, ops)
    ensures RunInv(adj, m, ops, gap) <==> !FaultyRun(adj, m, ops, gap)
    decreases |ops|
  {
    if ops != [] {
      StepKeepsInvIff(adj, m, ops[0], gap);
      if !FaultyOp(adj, m, ops[0], gap) {
        RunInvIff(adj, Step(adj, m, ops[0]), ops[1..], gap);
      }
    }
  }

  lemma {:induction false} RepairedNeverFaulty(m: Mgr, ops: seq<Op>, gap: nat)
    ensures !FaultyRun(Repaired, m, ops, gap)
    decreases |ops|
  {
    if ops != [] {
      if ops[0].FreeOp? { RepairedIsNeverFaulty(m.free, ops[0].addr, ops[0].size, gap); }
      RepairedNeverFaulty(Step(Repaired, m, ops[0]), ops[1..], gap);
    }
  }

  /** A region as xib_bram_init and xib_ext_ddr_init leave it. */
  function NewRegion(base: nat, tot: nat): Mgr { Mgr(base, tot, [Block(base, tot)], [], tot) }

  /** They give the whole region to free_mem_alloc. */
  lemma InitInv(base: nat, tot: nat, adj: Adjacency)
    requires tot > 0
    ensures Mgr(base, tot, [], [], 0).FreeMem(adj, base, tot) == (NewRegion(base, tot), true)
    ensures NewRegion(base, tot).Inv(1) && NewRegion(base, tot).Inv(0)
  {
    assert [Block(base, tot)][1..] == [];
  }

  /** With line 131 repaired, every run of owed calls from a new region keeps the partition and the
      list coalesced. */
  lemma RepairedRunsKeepInv(base: nat, tot: nat, ops: seq<Op>)
    requires tot > 0 && OwedRun(Repaired, NewRegion(base, tot), ops)
    ensures RunInv(Repaired, NewRegion(base, tot), ops, 1)
  {
    InitInv(base, tot, Repaired);
    RunInvIff(Repaired, NewRegion(base, tot), ops, 1);
    RepairedNeverFaulty(NewRegion(base, tot), ops, 1);
  }

  // ----- everything in units of 256

  predicate Rounded(s: seq<Block>) { forall b <- s :: b.addr % ROUNDING == 0 && b.size % ROUNDING == 0 }

  /** round_up(size, 256): the least multiple of 256 that covers the size, as long as it fits a u32. */
  lemma RoundUpIs(len: nat)
    ensures RoundUp(len) % ROUNDING == 0
    ensures len <= U32 - ROUNDING ==> len <= RoundUp(len) < len + ROUNDING
    ensures U32 - ROUNDING < len < U32 ==> RoundUp(len) == 0
  {
    var q := (len + ROUNDING - 1) / ROUNDING;
    assert len <= q * ROUNDING < len + ROUNDING;
    assert U32 == 0x100_0000 * ROUNDING;
    if len <= U32 - ROUNDING {
      assert q * ROUNDING < U32;
    } else if len < U32 {
      assert q == 0x100_0000;
    }
    MultipleCut(q);
  }

  lemma MultipleCut(q: nat)
    ensures (q * ROUNDING) % U32 % ROUNDING == 0
  {
    var k, r := q / 0x100_0000, q % 0x100_0000;
    assert q * ROUNDING == k * U32 + r * ROUNDING && r * ROUNDING < U32;
    assert (q * ROUNDING) % U32 == r * ROUNDING;
  }

  lemma {:induction false} CarveRounded(s: seq<Block>, n: nat)
    requires Rounded(s) && n % ROUNDING == 0 && Carve(s, n).Some?
    ensures var (l, b) := Carve(s, n).value; Rounded(l) && b.addr % ROUNDING == 0 && b.size % ROUNDING == 0
  {
    if s[0].size < n {
      assert s[0] in s && Rounded(s[1..]);
      CarveRounded(s[1..], n);
    } else {
      assert s[0] in s && Rounded(s[1..]);
    }
  }

  lemma AbsorbRounded(h: Block, rest: seq<Block>, addr: nat)
    requires Rounded([h] + rest)
    ensures Rounded(AbsorbNext(h, rest, addr).list)
  {
    assert ([h] + rest)[0] == h;
    assert forall i :: 0 <= i < |rest| ==> ([h] + rest)[i + 1] == rest[i];
  }

  lemma {:induction false} ReleaseRounded(adj: Adjacency, s: seq<Block>, addr: nat, size: nat)
    requires Rounded(s) && addr % ROUNDING == 0 && size % ROUNDING == 0
    ensures Rounded(Release(adj, s, addr, size).list)
  {
    if s != [] {
      var h, rest := s[0], s[1..];
      assert h in s && Rounded(rest);
      ReleaseRounded(adj, rest, addr, size);
      AbsorbRounded(Block(addr, h.size + size), rest, addr);
      AbsorbRounded(Block(h.addr, h.size + size), rest, addr);
    }
  }

  lemma StepRounded(adj: Adjacency, m: Mgr, op: Op)
    requires Rounded(m.free) && Rounded(m.allocs) && Owed(m, op)
    ensures Rounded(Step(adj, m, op).free) && Rounded(Step(adj, m, op).allocs)
  {
    match op
    case AllocOp(len) =>
      RoundUpIs(len);
      if Carve(m.free, RoundUp(len)).Some? { CarveRounded(m.free, RoundUp(len)); }
    case FreeOp(addr, size) =>
      ReleaseRounded(adj, m.free, addr, size);
  }

  /** In every run of owed calls on a region whose base and size are multiples of 256, with line 131
      at fault or not, every free and every allocated block starts at one and is one long. */
  lemma {:induction false} RunRounded(adj: Adjacency, m: Mgr, ops: seq<Op>)
    requires Rounded(m.free) && Rounded(m.allocs) && OwedRun(adj, m, ops)
    ensures Rounded(Run(adj, m, ops).free) && Rounded(Run(adj, m, ops).allocs)
    decreases |ops|
  {
    if ops != [] {
      StepRounded(adj, m, ops[0]);
      RunRounded(adj, Step(adj, m, ops[0]), ops[1..]);
    }
  }

  lemma NewRegionRounded(adj: Adjacency, base: nat, tot: nat, ops: seq<Op>)
    requires base % ROUNDING == 0 && tot % ROUNDING == 0 && OwedRun(adj, NewRegion(base, tot), ops)
    ensures var m := Run(adj, NewRegion(base, tot), ops); Rounded(m.free) && Rounded(m.allocs)
  {
    RunRounded(adj, NewRegion(base, tot), ops);
  }

  // ----- the fault, as written

  lemma OwedNext(adj: Adjacency, m: Mgr, op: Op, ops: seq<Op>, gap: nat)
    requires Owed(m, op) && OwedRun(adj, Step(adj, m, op), ops)
    ensures OwedRun(adj, m, [op] + ops)
    ensures RunInv(adj, m, [op] + ops, gap) ==> RunInv(adj, Step(adj, m, op), ops, gap)
    ensures Run(adj, m, [op] + ops) == Run(adj, Step(adj, m, op), ops)
  {
    assert ([op] + ops)[1..] == ops;
  }

  /** Taking n bytes from the front of one large free block. */
  lemma CutFront(m: Mgr, n: nat, b: Block)
    requires m.free == [b] && RoundUp(n) == n && n + ALLOC_UNIT <= b.size && m.freeMem >= n
    ensures m.AllocMem(n).0 == m.(free := [Block(b.addr + n, b.size - n)], freeMem := m.freeMem - n,
                                  allocs := m.allocs + [Block(b.addr, n)])
  {
    assert [b][1..] == [];
  }

  lemma TakeWhole(m: Mgr, b: Block)
    requires m.free == [b] && RoundUp(b.size) == b.size && m.freeMem >= b.size
    ensures m.AllocMem(b.size).0 == m.(free := [], freeMem := m.freeMem - b.size, allocs := m.allocs + [b])
  {
    assert [b][1..] == [];
  }

  /** Three allocations fill a new region of 4u bytes, and the first is given back. */
  lemma FilledAndFreed(base: nat, u: nat, m1: Mgr, m2: Mgr, m3: Mgr, m4: Mgr)
    requires u >= ALLOC_UNIT && RoundUp(u) == u && RoundUp(2 * u) == 2 * u
    requires var a, b, c := Block(base, u), Block(base + u, u), Block(base + 2 * u, 2 * u);
             && m1 == Mgr(base, 4 * u, [Block(base + u, 3 * u)], [a], 3 * u)
             && m2 == Mgr(base, 4 * u, [c], [a, b], 2 * u)
             && m3 == Mgr(base, 4 * u, [], [a, b, c], 0)
             && m4 == Mgr(base, 4 * u, [a], [b, c], u)
    ensures Step(AsWritten, NewRegion(base, 4 * u), AllocOp(u)) == m1 && Step(AsWritten, m1, AllocOp(u)) == m2
    ensures Step(AsWritten, m2, AllocOp(2 * u)) == m3 && Step(AsWritten, m3, FreeOp(base, u)) == m4
  {
    CutFront(NewRegion(base, 4 * u), u, Block(base, 4 * u));
    CutFront(m1, u, Block(base + u, 3 * u));
    TakeWhole(m2, Block(base + 2 * u, 2 * u));
    assert RemoveAt(m3.allocs, 0) == m4.allocs;
  }

  /** Line 131 then takes the free block for the lower neighbour of the last one, which is twice as
      long and lies its own length above: the allocation in between becomes free. */
  lemma MisfireRun(base: nat, u: nat, ops: seq<Op>)
    requires u >= ALLOC_UNIT && RoundUp(u) == u && RoundUp(2 * u) == 2 * u
    requires ops == [AllocOp(u)] + ([AllocOp(u)] + ([AllocOp(2 * u)] + ([FreeOp(base, u)] + [FreeOp(base + 2 * u, 2 * u)])))
    ensures OwedRun(AsWritten, NewRegion(base, 4 * u), ops) && !RunInv(AsWritten, NewRegion(base, 4 * u), ops, 0)
    ensures var m := Run(AsWritten, NewRegion(base, 4 * u), ops);
            m.allocs == [Block(base + u, u)] && m.free == [Block(base, 3 * u)]
  {
    var a, b, c := Block(base, u), Block(base + u, u), Block(base + 2 * u, 2 * u);
    var m0, m1 := NewRegion(base, 4 * u), Mgr(base, 4 * u, [Block(base + u, 3 * u)], [a], 3 * u);
    var m2, m3 := Mgr(base, 4 * u, [c], [a, b], 2 * u), Mgr(base, 4 * u, [], [a, b, c], 0);
    var m4, last := Mgr(base, 4 * u, [a], [b, c], u), FreeOp(base + 2 * u, 2 * u);
    FilledAndFreed(base, u, m1, m2, m3, m4);
    LastMisfires(base, u, m4, last);
    OwedNext(AsWritten, m3, FreeOp(base, u), [last], 0);
    OwedNext(AsWritten, m2, AllocOp(2 * u), [FreeOp(base, u)] + [last], 0);
    OwedNext(AsWritten, m1, AllocOp(u), [AllocOp(2 * u)] + ([FreeOp(base, u)] + [last]), 0);
    OwedNext(AsWritten, m0, AllocOp(u), [AllocOp(u)] + ([AllocOp(2 * u)] + ([FreeOp(base, u)] + [last])), 0);
  }

  lemma LastMisfires(base: nat, u: nat, m: Mgr, last: Op)
    requires u > 0 && last == FreeOp(base + 2 * u, 2 * u)
    requires m == Mgr(base, 4 * u, [Block(base, u)], [Block(base + u, u), Block(base + 2 * u, 2 * u)], u)
    ensures OwedRun(AsWritten, m, [last]) && !RunInv(AsWritten, m, [last], 0)
    ensures Run(AsWritten, m, [last]) == Mgr(base, 4 * u, [Block(base, 3 * u)], [Block(base + u, u)], 3 * u)
  {
    var b, c := Block(base + u, u), Block(base + 2 * u, 2 * u);
    assert m.allocs[1] == c && [last][1..] == [];
    var next := Step(AsWritten, m, last);
    assert m.free[1..] == [];
    assert Release(AsWritten, m.free, base + 2 * u, 2 * u) == Done([Block(base, 3 * u)]);
    assert RemoveAt(m.allocs, 1) == [b];
    assert next.allocs == [b] && next.free == [Block(base, 3 * u)];
    assert next.allocs[0] == b && !Outside(next.free, b.addr, b.size);
  }

  // ----- the driver's own code

  /** An outcome for the tail of a list, put behind the entries already passed. */
  function Behind(pre: seq<Block>, o: Outcome): Outcome {
    match o
    case Overlap(l) => Overlap(pre + l)
    case Done(l) => Done(pre + l)
  }

  lemma BehindPush(pre: seq<Block>, h: Block, o: Outcome)
    ensures Behind(pre, o.Push(h)) == Behind(pre + [h], o)
  {
    assert pre + ([h] + o.list) == pre + [h] + o.list;
  }

  /** The entry i of the list, grown by the freed bytes. */
  function Grown(s: seq<Block>, i: nat, addr: nat, size: nat): seq<Block>
    requires i < |s|
  {
    s[i := Block(if addr < s[i].addr then addr else s[i].addr, s[i].size + size)]
  }

  /** What one turn of the loop over the free list amounts to. */
  lemma ReleaseAt(adj: Adjacency, s: seq<Block>, i: nat, addr: nat, size: nat)
    requires i < |s|
    ensures var o := Behind(s[..i], Release(adj, s[i..], addr, size));
            o == if s[i].Has(addr) then Overlap(s)
                 else if addr < s[i].addr && addr + size != s[i].addr then Done(InsertAt(s, i, Block(addr, size)))
                 else if addr < s[i].addr || LooksAdjacent(adj, s[i], addr, size) then
                   var t := Grown(s, i, addr, size);
                   Behind(t[..i], AbsorbNext(t[i], t[i + 1..], addr))
                 else Behind(s[..i + 1], Release(adj, s[i + 1..], addr, size))
  {
    assert s[i..][0] == s[i] && s[i..][1..] == s[i + 1..] && s == s[..i] + s[i..];
    BehindPush(s[..i], s[i], Release(adj, s[i + 1..], addr, size));
    assert s[..i] + [s[i]] == s[..i + 1];
    assert s[..i] + ([Block(addr, size)] + s[i..]) == InsertAt(s, i, Block(addr, size));
    var t := Grown(s, i, addr, size);
    assert t[..i] == s[..i] && t[i + 1..] == s[i + 1..];
  }

  /** The first large enough block, at index k, is cut ... */
  lemma {:induction false} CarveCuts(s: seq<Block>, n: nat, k: nat, g: Block)
    requires k < |s| && s[k].size >= n && (forall j :: 0 <= j < k ==> s[j].size < n) && s[k].size - n >= ALLOC_UNIT
    requires g == Block(s[k].addr + n, s[k].size - n)
    ensures Carve(s, n) == Some((s[k := g], Block(s[k].addr, n)))
  {
    if k == 0 {
      assert s[0 := g] == [g] + s[1..];
    } else {
      CarveCuts(s[1..], n, k - 1, g);
      assert [s[0]] + s[1..][k - 1 := g] == s[k := g];
    }
  }

  /** ... or taken whole. */
  lemma {:induction false} CarveWhole(s: seq<Block>, n: nat, k: nat)
    requires k < |s| && s[k].size >= n && (forall j :: 0 <= j < k ==> s[j].size < n) && s[k].size - n < ALLOC_UNIT
    ensures Carve(s, n) == Some((RemoveAt(s, k), s[k]))
  {
    if k == 0 {
      assert RemoveAt(s, 0) == s[1..];
    } else {
      CarveWhole(s[1..], n, k - 1);
      assert [s[0]] + RemoveAt(s[1..], k - 1) == RemoveAt(s, k);
    }
  }

  class MemMgr {
    const base: nat
    const tot: nat
    var free: seq<Block>
    var allocs: seq<Block>
    var freeMem: int

    ghost function State(): Mgr
      reads this
    {
      Mgr(base, tot, free, allocs, freeMem)
    }

    constructor (base: nat, tot: nat)
      ensures State() == Mgr(base, tot, [], [], 0)
    {
      this.base, this.tot := base, tot;
      free, allocs, freeMem := [], [], 0;
    }

    /** Lines 109-117, for the entry behind the one that has just grown. */
    method MergeNext(i: nat, addr: nat) returns (overlap: bool)
      requires 0 < i < |free|
      modifies this`free
      ensures overlap == Behind(old(free)[..i - 1], AbsorbNext(old(free)[i - 1], old(free)[i..], addr)).Overlap?
      ensures free == Behind(old(free)[..i - 1], AbsorbNext(old(free)[i - 1], old(free)[i..], addr)).list
    {
      ghost var s := free;
      assert s == s[..i - 1] + ([s[i - 1]] + s[i..]);
      if free[i].Has(addr) { return true; }
      if free[i - 1].End() == free[i].addr {
        free := free[i - 1 := Block(free[i - 1].addr, free[i - 1].size + free[i].size)];
        free := RemoveAt(free, i);
        assert s[i..][1..] == s[i + 1..];
        assert free == s[..i - 1] + ([free[i - 1]] + s[i + 1..]);
      }
      return false;
    }

    /** Lines 123-125 and 132-133, and what the next turn of the loop then does. */
    method GrowEntry(i: nat, addr: nat, size: nat) returns (overlap: bool)
      requires i < |free|
      modifies this`free
      ensures var t := Grown(old(free), i, addr, size);
              var o := Behind(t[..i], AbsorbNext(t[i], t[i + 1..], addr));
              overlap == o.Overlap? && free == o.list
    {
      free := Grown(free, i, addr, size);
      overlap := false;
      if i + 1 < |free| {
        overlap := MergeNext(i + 1, addr);
      } else {
        assert free == free[..i] + [free[i]];
      }
    }

    /** The entries that the loop of is_mem_overlapped passes by. */
    method StopAt(adj: Adjacency, addr: nat, size: nat) returns (i: nat)
      ensures i <= |free|
      ensures Release(adj, free, addr, size) ==
                if i == |free| then Done(free + [Block(addr, size)])
                else Behind(free[..i], Release(adj, free[i..], addr, size))
      ensures i < |free| ==> free[i].Has(addr) || addr < free[i].addr || LooksAdjacent(adj, free[i], addr, size)
      ensures i > 0 ==> free[i - 1].addr <= addr
    {
      i := 0;
      assert free[0..] == free;
      while i < |free| && !free[i].Has(addr) && addr >= free[i].addr && !LooksAdjacent(adj, free[i], addr, size)
        invariant i <= |free| && (i > 0 ==> free[i - 1].addr <= addr)
        invariant Release(adj, free, addr, size) == Behind(free[..i], Release(adj, free[i..], addr, size))
      {
        ReleaseAt(adj, free, i, addr, size);
        i := i + 1;
      }
      if i == |free| { assert free[i..] == [] && free[..i] == free; }
    }

    /** is_mem_overlapped.  Either the list has been changed as it should be, or pos is the entry
        before or behind which the freed block has to be linked. */
    method IsMemOverlapped(adj: Adjacency, addr: nat, size: nat) returns (overlap: bool, pos: Option<nat>)
      requires free != []
      modifies this`free
      ensures overlap == Release(adj, old(free), addr, size).Overlap?
      ensures overlap || pos.None? ==> free == Release(adj, old(free), addr, size).list
      ensures !overlap && pos.Some? ==>
                && free == old(free) && pos.value < |free|
                && Release(adj, old(free), addr, size).list ==
                   InsertAt(free, if addr < free[pos.value].addr then pos.value else pos.value + 1, Block(addr, size))
    {
      var i := StopAt(adj, addr, size);
      if i == |free| {
        assert free + [Block(addr, size)] == InsertAt(free, i, Block(addr, size));
        return false, Some(i - 1);
      }
      var iter := free[i];
      ReleaseAt(adj, free, i, addr, size);
      if iter.Has(addr) { return true, None; }
      if addr < iter.addr && addr + size != iter.addr { return false, Some(i); }
      overlap := GrowEntry(i, addr, size);
      return overlap, None;
    }

    /** free_mem_alloc. */
    method FreeMemAlloc(adj: Adjacency, addr: nat, size: nat) returns (ok: bool)
      modifies this
      ensures State() == old(State()).FreeMem(adj, addr, size).0 && ok == old(State()).FreeMem(adj, addr, size).1
    {
      if tot < freeMem + size { return false; }
      if free == [] {
        free := [Block(addr, size)];
      } else {
        var overlap, pos := IsMemOverlapped(adj, addr, size);
        if overlap { return false; }
        if pos.Some? {
          free := InsertAt(free, if addr < free[pos.value].addr then pos.value else pos.value + 1, Block(addr, size));
        }
      }
      freeMem := freeMem + size;
      FreeAllocTable(addr);
      return true;
    }

    /** free_alloc_table. */
    method FreeAllocTable(addr: nat)
      modifies this`allocs
      ensures var k := IndexOf(old(allocs), addr);
              allocs == if k < |old(allocs)| then RemoveAt(old(allocs), k) else old(allocs)
    {
      var i := 0;
      while i < |allocs|
        invariant 0 <= i <= |allocs| && allocs == old(allocs)
        invariant forall j :: 0 <= j < i ==> allocs[j].addr != addr
      {
        if allocs[i].addr == addr {
          assert IndexOf(allocs, addr) == i;
          allocs := RemoveAt(allocs, i);
          return;
        }
        i := i + 1;
      }
    }

    /** alloc_mem. */
    method AllocMem(len: nat) returns (b: Option<Block>)
      modifies this
      ensures State() == old(State()).AllocMem(len).0 && b == old(State()).AllocMem(len).1
    {
      var n := RoundUp(len);
      if freeMem < n { return None; }
      var k := 0;
      while k < |free| && free[k].size < n
        invariant 0 <= k <= |free| && State() == old(State())
        invariant forall j :: 0 <= j < k ==> free[j].size < n
      {
        k := k + 1;
      }
      if k == |free| {
        CarveRefusesIff(free, n);
        return None;
      }
      if free[k].size - n >= ALLOC_UNIT {
        CarveCuts(free, n, k, Block(free[k].addr + n, free[k].size - n));
      } else {
        CarveWhole(free, n, k);
      }
      var addr, size := free[k].addr, n;
      if free[k].size - n >= ALLOC_UNIT {
        free := free[k := Block(free[k].addr + n, free[k].size - n)];
      } else {
        size := free[k].size;
        free := RemoveAt(free, k);
      }
      freeMem := freeMem - size;
      allocs := allocs + [Block(addr, size)];
      return Some(Block(addr, size));
    }
  }
}
