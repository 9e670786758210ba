/** The list of chunks that the user memory manager keeps per memory type: singly linked, with
    a head pointer `xib_umem_chunk[type]` and a tail pointer `prev[type]` (umm.c). */
module ChunkList {
  import opened Lists

  class Node {
    const id: nat
    var next: Node?

    constructor (id: nat)
      ensures this.id == id && next == null
    {
      this.id, next := id, null;
    }
  }

  /** The position of the first node with this id, or the length of the list. */
  ghost function FirstWith(s: seq<Node>, id: nat): (k: nat)
    ensures k <= |s| && (k < |s| ==> s[k].id == id)
    ensures forall j :: 0 <= j < k ==> s[j].id != id
  {
    if s == [] || s[0].id == id then 0 else 1 + FirstWith(s[1..], id)
  }

  lemma FirstWithIs(s: seq<Node>, id: nat, k: nat)
    requires k <= |s| && (k < |s| ==> s[k].id == id) && forall j :: 0 <= j < k ==> s[j].id != id
    ensures FirstWith(s, id) == k
  {}

  class List {
    var head: Node?
    var tail: Node?
    ghost var nodes: seq<Node>

    /** The pointers spell out `nodes`: head is its first, tail its last, next its order. */
    ghost predicate Valid()
      reads this, nodes
    {
      && (nodes == [] ==> head == null && tail == null)
      && (nodes != [] ==> head == nodes[0] && tail == nodes[|nodes| - 1])
      && (forall i :: 0 <= i < |nodes| ==> nodes[i].next == Succ(i))
      && (forall i, j :: 0 <= i < j < |nodes| ==> nodes[i] != nodes[j])
    }

    ghost function Succ(i: nat): Node?
      requires i < |nodes|
      reads this
    {
      if i + 1 < |nodes| then nodes[i + 1] else null
    }

    constructor ()
      ensures Valid() && nodes == []
    {
      head, tail, nodes := null, null, [];
    }

    /** update_umem_table, lines 236-240. */
    method Append(n: Node)
      requires Valid() && n !in nodes && n.next == null
      modifies this, nodes
      ensures Valid() && nodes == old(nodes) + [n]
    {
      if head == null {
        head := n;
      } else {
        tail.next := n;
      }
      tail := n;
      nodes := nodes + [n];
    }

    /** get_chunk_info, lines 252-258. */
    method Find(id: nat) returns (n: Node?)
      requires Valid()
      ensures var k := FirstWith(nodes, id); n == if k < |nodes| then nodes[k] else null
    {
      n := head;
      ghost var i := 0;
      while n != null
        invariant 0 <= i <= |nodes| && n == (if i < |nodes| then nodes[i] else null)
        invariant forall j :: 0 <= j < i ==> nodes[j].id != id
        decreases |nodes| - i
      {
        if n.id == id { break; }
        n := n.next;
        i := i + 1;
      }
      FirstWithIs(nodes, id, i);
    }

    /** The walk of delete_chunk, lines 70-82: the node and the one before it. */
    method FindWithPrev(id: nat) returns (iter: Node?, prev: Node?, ghost k: nat)
      requires Valid()
      ensures k == FirstWith(nodes, id)
      ensures iter == if k < |nodes| then nodes[k] else null
      ensures prev == if k == 0 then null else nodes[k - 1]
    {
      iter, prev, k := head, null, 0;
      while iter != null && iter.id != id
        invariant k <= |nodes| && iter == (if k < |nodes| then nodes[k] else null)
        invariant prev == if k == 0 then null else nodes[k - 1]
        invariant forall j :: 0 <= j < k ==> nodes[j].id != id
        decreases |nodes| - k
      {
        assert iter.next == Succ(k);
        prev := iter;
        iter := iter.next;
        k := k + 1;
      }
      FirstWithIs(nodes, id, k);
    }

    /** Taking the node at position k out of the chain, lines 72-77 and 84-85. */
    method Unlink(iter: Node, prev: Node?, ghost k: nat)
      requires Valid() && k < |nodes| && iter == nodes[k] && prev == if k == 0 then null else nodes[k - 1]
      modifies this, nodes
      ensures Valid() && nodes == RemoveAt(old(nodes), k)
    {
      ghost var was := nodes;
      assert iter.next == Succ(k);
      if iter == head {
        head := iter.next;
        if head == null { tail := null; }
      } else {
        prev.next := iter.next;
      }
      if iter == tail { tail := prev; }
      nodes := RemoveAt(nodes, k);
      forall i | 0 <= i < |nodes|
        ensures nodes[i].next == Succ(i)
      {
        var j := if i < k then i else i + 1;
        assert nodes[i] == was[j];
        assert i + 1 == k ==> nodes[i] == prev;
      }
    }

    /** delete_chunk, lines 63-101. */
    method Delete(id: nat) returns (found: bool)
      requires Valid()
      modifies this, nodes
      ensures Valid() && found == (FirstWith(old(nodes), id) < |old(nodes)|)
      ensures nodes == if found then RemoveAt(old(nodes), FirstWith(old(nodes), id)) else old(nodes)
    {
      var iter, prev;
      ghost var k;
      iter, prev, k := FindWithPrev(id);
      if iter == null { return false; }
      Unlink(iter, prev, k);
      return true;
    }
  }
}
