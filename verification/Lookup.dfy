/** Chunk ids across the two managers: the kernel issues them, the user library keeps its chunks
    in a list and looks them up by id (umm.c over xib_kmm.c). */
module Lookup {
  import opened Lists
  import Kmm
  import ChunkList

  /** The kernel's region, the chunks in the library's list in the order of that list, and the ids that
      other users of the region hold. */
  datatype Table = Table(kernel: Kmm.Region, list: seq<Kmm.Chunk>, others: set<nat>)

  /** A chunk for the library, one of its own given back, and calls of other users of the region. */
  datatype Op = NewChunk(n: nat) | DropChunk(id: nat) | Other(op: Kmm.Op)

  /** Other users give back only what they hold, and do not close the region. */
  predicate Allowed(t: Table, op: Op) {
    op.Other? ==> !op.op.CloseOp? && (op.op.FreeOp? ==> op.op.id in t.others)
  }

  function KernelOp(op: Op): Kmm.Op {
    match op
    case NewChunk(n) => Kmm.AllocOp(n)
    case DropChunk(id) => Kmm.FreeOp(id)
    case Other(o) => o
  }

  function Step(front: Kmm.Front, t: Table, op: Op): Table {
    match op
    case NewChunk(n) =>
      var (r, c) := t.kernel.Alloc(front, n);
      t.(kernel := r, list := if c.Some? then t.list + [c.value] else t.list)
    case DropChunk(id) =>
      var k := Kmm.IndexOf(t.list, id);
      if k == |t.list| then t else t.(kernel := t.kernel.Free(id).0, list := RemoveAt(t.list, k))
    case Other(o) =>
      t.(kernel := Kmm.Step(front, t.kernel, o),
         others := match o
                   case AllocOp(n) => if t.kernel.Alloc(front, n).1.Some? then t.others + {t.kernel.Alloc(front, n).1.value.id} else t.others
                   case FreeOp(id) => t.others - {id}
                   case CloseOp => t.others)
  }

  /** The list holds chunks that the kernel has issued and not taken back, each once. */
  ghost predicate Listed(t: Table) {
    && Kmm.IdsBehindCounter(t.kernel)
    && (forall c <- t.list :: c in t.kernel.chunks)
    && (forall i, j :: 0 <= i < j < |t.list| ==> t.list[i].id != t.list[j].id)
  }

  /** Every chunk of the kernel is in the list or held by another user, and not both. */
  ghost predicate Accounted(t: Table) {
    && (forall c <- t.kernel.chunks :: c in t.list || c.id in t.others)
    && (forall c <- t.list :: c.id !in t.others)
    && (forall id <- t.others :: Known(t.kernel, id))
  }

  ghost predicate Known(r: Kmm.Region, id: nat) { exists c <- r.chunks :: c.id == id }

  ghost predicate Inv(t: Table) { Listed(t) && Accounted(t) }

  lemma NextIdIsNew(t: Table)
    requires Listed(t) && t.kernel.maxChunk < Kmm.ID_SPAN
    ensures forall c <- t.kernel.chunks :: c.id != t.kernel.NextId()
  {
    assert t.kernel.NextId() == t.kernel.maxChunk + t.kernel.memType * Kmm.ID_SPAN;
  }

  lemma NewKeepsInv(front: Kmm.Front, t: Table, n: nat, t': Table)
    requires Inv(t) && t' == Step(front, t, NewChunk(n))
    requires Kmm.Issues(front, t.kernel, Kmm.AllocOp(n)) ==> t.kernel.maxChunk < Kmm.ID_SPAN
    ensures Inv(t')
  {
    Kmm.StepKeepsIds(front, t.kernel, Kmm.AllocOp(n));
    if t.kernel.Alloc(front, n).1.Some? {
      var c := t.kernel.Alloc(front, n).1.value;
      Kmm.AllocKeepsOthers(t.kernel, front, n);
      Kmm.AllocAdds(t.kernel, front, n);
      NextIdIsNew(t);
      NotAmongOthers(t, c.id);
      Appended(t.list, c);
      OthersKnown(t, c.id, t');
    }
  }

  lemma NotAmongOthers(t: Table, id: nat)
    requires Inv(t) && forall c <- t.kernel.chunks :: c.id != id
    ensures id !in t.others && forall c <- t.list :: c.id != id
  {
    assert id in t.others ==> Known(t.kernel, id);
  }

  lemma Appended(list: seq<Kmm.Chunk>, c: Kmm.Chunk)
    requires (forall i, j :: 0 <= i < j < |list| ==> list[i].id != list[j].id) && forall x <- list :: x.id != c.id
    ensures forall x :: x in list + [c] <==> x in list || x == c
    ensures forall i, j :: 0 <= i < j < |list + [c]| ==> (list + [c])[i].id != (list + [c])[j].id
  {
    assert forall i :: 0 <= i < |list| ==> list[i] in list;
  }

  /** The list after its first chunk with that id was taken out. */
  lemma Dropped(list: seq<Kmm.Chunk>, id: nat, rest: seq<Kmm.Chunk>)
    requires var k := Kmm.IndexOf(list, id); k < |list| && rest == RemoveAt(list, k)
    requires forall i, j :: 0 <= i < j < |list| ==> list[i].id != list[j].id
    ensures forall c :: c in rest <==> c in list && c.id != id
    ensures forall i, j :: 0 <= i < j < |rest| ==> rest[i].id != rest[j].id
  {
    var k := Kmm.IndexOf(list, id);
    forall c | c in list && c.id != id
      ensures c in rest
    {
      var i :| 0 <= i < |list| && list[i] == c;
      assert rest[if i < k then i else i - 1] == c;
    }
    forall i: nat | i < |rest|
      ensures rest[i] in list && rest[i].id != id
    {
      assert rest[i] == list[if i < k then i else i + 1];
    }
  }

  lemma DropKeepsInv(front: Kmm.Front, t: Table, id: nat, t': Table)
    requires Inv(t) && t' == Step(front, t, DropChunk(id))
    ensures Inv(t')
  {
    if Kmm.IndexOf(t.list, id) < |t.list| {
      Kmm.StepKeepsIds(front, t.kernel, Kmm.FreeOp(id));
      Kmm.FreeKeepsOthers(t.kernel, id);
      Kmm.FreeRemoves(t.kernel, id);
      Dropped(t.list, id, t'.list);
      assert t.list[Kmm.IndexOf(t.list, id)] in t.list;
      OthersKnown(t, id, t');
    }
  }

  lemma OthersKnown(t: Table, id: nat, t': Table)
    requires Accounted(t) && t'.others <= t.others && id !in t'.others
    requires forall c <- t.kernel.chunks :: c.id != id ==> c in t'.kernel.chunks
    ensures forall x <- t'.others :: Known(t'.kernel, x)
  {
    forall x | x in t'.others
      ensures Known(t'.kernel, x)
    {
      var c :| c in t.kernel.chunks && c.id == x;
      assert c in t'.kernel.chunks;
    }
  }

  lemma OtherKeepsInv(front: Kmm.Front, t: Table, o: Kmm.Op, t': Table)
    requires Inv(t) && Allowed(t, Other(o)) && t' == Step(front, t, Other(o))
    requires Kmm.Issues(front, t.kernel, o) ==> t.kernel.maxChunk < Kmm.ID_SPAN
    ensures Inv(t')
  {
    Kmm.StepKeepsIds(front, t.kernel, o);
    match o
    case AllocOp(n) =>
      if t.kernel.Alloc(front, n).1.Some? {
        Kmm.AllocKeepsOthers(t.kernel, front, n);
        Kmm.AllocAdds(t.kernel, front, n);
        NextIdIsNew(t);
        NotAmongOthers(t, t.kernel.NextId());
        OthersKnown(t, t.kernel.NextId(), t'.(others := t.others));
        assert Known(t'.kernel, t.kernel.NextId());
      }
    case FreeOp(id) =>
      Kmm.FreeKeepsOthers(t.kernel, id);
      Kmm.FreeRemoves(t.kernel, id);
      OthersKnown(t, id, t');
  }

  lemma StepKeepsInv(front: Kmm.Front, t: Table, op: Op, t': Table)
    requires Inv(t) && Allowed(t, op) && t' == Step(front, t, op)
    requires Kmm.Issues(front, t.kernel, KernelOp(op)) ==> t.kernel.maxChunk < Kmm.ID_SPAN
    ensures Inv(t')
  {
    match op
    case NewChunk(n) => NewKeepsInv(front, t, n, t');
    case DropChunk(id) => DropKeepsInv(front, t, id, t');
    case Other(o) => OtherKeepsInv(front, t, o, t');
  }

  /** Every call of the run is allowed, and each that issues an id finds the counter below 2^24. */
  predicate GoodRun(front: Kmm.Front, t: Table, ops: seq<Op>)
    decreases |ops|
  {
    ops != [] ==>
      && Allowed(t, ops[0])
      && (Kmm.Issues(front, t.kernel, KernelOp(ops[0])) ==> t.kernel.maxChunk < Kmm.ID_SPAN)
      && GoodRun(front, Step(front, t, ops[0]), ops[1..])
  }

  function Run(front: Kmm.Front, t: Table, ops: seq<Op>): Table
    decreases |ops|
  {
    if ops == [] then t else Run(front, Step(front, t, ops[0]), ops[1..])
  }

  lemma {:induction false} RunKeepsInv(front: Kmm.Front, t: Table, ops: seq<Op>)
    requires Inv(t) && GoodRun(front, t, ops)
    ensures Inv(Run(front, t, ops))
    decreases |ops|
  {
    if ops != [] {
      StepKeepsInv(front, t, ops[0], Step(front, t, ops[0]));
      RunKeepsInv(front, Step(front, t, ops[0]), ops[1..]);
    }
  }

  /** Over every run from a fresh region that issues fewer than 2^24 ids, with line 279 as written
      or repaired, looking up the id of any chunk in the library's linked list finds the node of
      that very chunk, which the kernel still holds. */
  lemma LookupFinds(front: Kmm.Front, memType: nat, base: nat, size: nat, ops: seq<Op>, t: Table, nodes: seq<ChunkList.Node>, k: nat)
    requires GoodRun(front, Start(memType, base, size), ops) && t == Run(front, Start(memType, base, size), ops)
    requires |nodes| == |t.list| && k < |t.list| && forall i :: 0 <= i < |nodes| ==> nodes[i].id == t.list[i].id
    ensures ChunkList.FirstWith(nodes, t.list[k].id) == k && t.list[k] in t.kernel.chunks
  {
    RunKeepsInv(front, Start(memType, base, size), ops);
    ChunkList.FirstWithIs(nodes, nodes[k].id, k);
  }

  /** And the lookup succeeds for exactly the ids that the kernel has issued, not taken back, and not
      given to another user. */
  lemma LookupSucceedsIff(front: Kmm.Front, memType: nat, base: nat, size: nat, ops: seq<Op>, t: Table, nodes: seq<ChunkList.Node>, id: nat)
    requires GoodRun(front, Start(memType, base, size), ops) && t == Run(front, Start(memType, base, size), ops)
    requires |nodes| == |t.list| && forall i :: 0 <= i < |nodes| ==> nodes[i].id == t.list[i].id
    ensures ChunkList.FirstWith(nodes, id) < |nodes| <==> Known(t.kernel, id) && id !in t.others
  {
    RunKeepsInv(front, Start(memType, base, size), ops);
    var k := ChunkList.FirstWith(nodes, id);
    if k < |nodes| {
      assert t.list[k] in t.kernel.chunks && t.list[k].id == id;
    }
    assert forall c <- t.list :: c.id == id ==> k < |nodes|;
  }

  function Start(memType: nat, base: nat, size: nat): Table { Table(Kmm.Fresh(memType, base, size), [], {}) }
}
