/** Scatter lists: the memory copies of xib_pop_rq and the sizes xib_kernel_qp_post_recv checks
    (xib-module/files/verbs.c, main.c). */
module Scatter {

  datatype Sge = Sge(addr: nat, len: nat)

  type Memory = nat -> nat

  /** Bytes in the first k entries. */
  function TotalTo(sgl: seq<Sge>, k: nat): nat
    requires k <= |sgl|
  {
    if k == 0 then 0 else TotalTo(sgl, k - 1) + sgl[k - 1].len
  }

  /** xib_get_payload_size */
  function Total(sgl: seq<Sge>): nat { TotalTo(sgl, |sgl|) }

  /** memcpy */
  function Copy(mem: Memory, addr: nat, bytes: seq<nat>): Memory {
    (a: nat) => if addr <= a < addr + |bytes| then bytes[a - addr] else mem(a)
  }

  /** The part of a packet that goes to entry k. */
  function Part(sgl: seq<Sge>, bytes: seq<nat>, k: nat): (p: seq<nat>)
    requires k < |sgl| && Total(sgl) <= |bytes|
    ensures |p| == sgl[k].len
  {
    TotalGrows(sgl, k + 1, |sgl|);
    bytes[TotalTo(sgl, k)..TotalTo(sgl, k) + sgl[k].len]
  }

  lemma {:induction false} TotalGrows(sgl: seq<Sge>, j: nat, k: nat)
    requires j <= k <= |sgl|
    ensures TotalTo(sgl, j) <= TotalTo(sgl, k)
  {
    if j < k { TotalGrows(sgl, j, k - 1); }
  }

  /** Memory after the first k entries have been filled. */
  ghost function ScatteredTo(mem: Memory, sgl: seq<Sge>, bytes: seq<nat>, k: nat): Memory
    requires k <= |sgl| && Total(sgl) <= |bytes|
  {
    if k == 0 then mem
    else Copy(ScatteredTo(mem, sgl, bytes, k - 1), sgl[k - 1].addr, Part(sgl, bytes, k - 1))
  }

  ghost function Scattered(mem: Memory, sgl: seq<Sge>, bytes: seq<nat>): Memory
    requires Total(sgl) <= |bytes|
  {
    ScatteredTo(mem, sgl, bytes, |sgl|)
  }

  predicate Clear(e: Sge, f: Sge) { e.addr + e.len <= f.addr || f.addr + f.len <= e.addr }

  /** No two entries of a list overlap; no entry of one list overlaps one of another. */
  ghost predicate Disjoint(sgl: seq<Sge>) { forall i, j {:trigger Clear(sgl[i], sgl[j])} :: 0 <= i < j < |sgl| ==> Clear(sgl[i], sgl[j]) }

  ghost predicate Apart(s: seq<Sge>, t: seq<Sge>) { forall e, f :: e in s && f in t ==> Clear(e, f) }

  /** The bytes of entry e are there. */
  ghost predicate Has(mem: Memory, e: Sge, bytes: seq<nat>)
    requires |bytes| == e.len
  {
    forall a: nat :: e.addr <= a < e.addr + e.len ==> mem(a) == bytes[a - e.addr]
  }

  /** The first k entries hold their parts of the packet. */
  ghost predicate HoldsTo(mem: Memory, sgl: seq<Sge>, bytes: seq<nat>, k: nat)
    requires k <= |sgl| && Total(sgl) <= |bytes|
  {
    forall j: nat {:trigger Part(sgl, bytes, j)} :: j < k ==> Has(mem, sgl[j], Part(sgl, bytes, j))
  }

  ghost predicate Holds(mem: Memory, sgl: seq<Sge>, bytes: seq<nat>)
    requires Total(sgl) <= |bytes|
  {
    HoldsTo(mem, sgl, bytes, |sgl|)
  }

  lemma CopyKeeps(mem: Memory, e: Sge, bytes: seq<nat>, f: Sge, data: seq<nat>)
    requires |bytes| == e.len && |data| == f.len && Clear(e, f) && Has(mem, f, data)
    ensures Has(Copy(mem, e.addr, bytes), f, data)
  {}

  /** A scatter list without overlaps ends up holding the packet. */
  lemma {:induction false} ScatterFills(mem: Memory, sgl: seq<Sge>, bytes: seq<nat>, k: nat)
    requires k <= |sgl| && Total(sgl) <= |bytes| && Disjoint(sgl)
    ensures HoldsTo(ScatteredTo(mem, sgl, bytes, k), sgl, bytes, k)
  {
    if k > 0 {
      ScatterFills(mem, sgl, bytes, k - 1);
      var before, e, part := ScatteredTo(mem, sgl, bytes, k - 1), sgl[k - 1], Part(sgl, bytes, k - 1);
      var after := Copy(before, e.addr, part);
      forall j: nat {:trigger Part(sgl, bytes, j)} | j < k
        ensures Has(after, sgl[j], Part(sgl, bytes, j))
      {
        if j < k - 1 {
          assert Clear(sgl[j], sgl[k - 1]);
          CopyKeeps(before, e, part, sgl[j], Part(sgl, bytes, j));
        }
      }
    }
  }

  /** Data elsewhere stays. */
  lemma {:induction false} ScatterKeeps(mem: Memory, sgl: seq<Sge>, bytes: seq<nat>, k: nat, f: Sge, data: seq<nat>)
    requires k <= |sgl| && Total(sgl) <= |bytes| && |data| == f.len && Has(mem, f, data)
    requires forall i :: 0 <= i < |sgl| ==> Clear(sgl[i], f)
    ensures Has(ScatteredTo(mem, sgl, bytes, k), f, data)
  {
    if k > 0 {
      ScatterKeeps(mem, sgl, bytes, k - 1, f, data);
      CopyKeeps(ScatteredTo(mem, sgl, bytes, k - 1), sgl[k - 1], Part(sgl, bytes, k - 1), f, data);
    }
  }

  lemma ScatterKeepsList(mem: Memory, sgl: seq<Sge>, bytes: seq<nat>, other: seq<Sge>, data: seq<nat>)
    requires Total(sgl) <= |bytes| && Total(other) <= |data| && Apart(sgl, other) && Holds(mem, other, data)
    ensures Holds(Scattered(mem, sgl, bytes), other, data)
  {
    forall j: nat | j < |other|
      ensures Has(Scattered(mem, sgl, bytes), other[j], Part(other, data, j))
    {
      ScatterKeeps(mem, sgl, bytes, |sgl|, other[j], Part(other, data, j));
    }
  }

  /** The inner loop of xib_pop_rq, lines 1032-1038. */
  method CopyOut(mem: Memory, sgl: seq<Sge>, bytes: seq<nat>) returns (out: Memory)
    requires Total(sgl) <= |bytes|
    ensures out == Scattered(mem, sgl, bytes)
    ensures Disjoint(sgl) ==> Holds(out, sgl, bytes)
  {
    out := mem;
    var i: nat, at: nat := 0, 0;
    while i < |sgl|
      invariant i <= |sgl| && at == TotalTo(sgl, i)
      invariant out == ScatteredTo(mem, sgl, bytes, i)
    {
      TotalGrows(sgl, i + 1, |sgl|);
      out := Copy(out, sgl[i].addr, bytes[at..at + sgl[i].len]);
      at := at + sgl[i].len;
      i := i + 1;
    }
    if Disjoint(sgl) {
      ScatterFills(mem, sgl, bytes, |sgl|);
    }
  }
}
