/** Counters that go round a ring of `max` slots, as the verbs code keeps them. */
module Rings {

  /** The slot of the n-th entry. */
  function Slot(n: nat, max: nat): (s: nat)
    requires max > 0
    ensures s < max
    decreases n
  {
    if n < max then n else Slot(n - max, max)
  }

  /** The doorbell value after n entries: 0, 1, ..., max, 1, ..., max, 1, ... */
  function Wrapped(n: nat, max: nat): (w: nat)
    requires max > 0
    ensures w <= max
    ensures w == 0 <==> n == 0
  {
    if n == 0 then 0 else Slot(n - 1, max) + 1
  }

  lemma {:induction false} SlotNext(n: nat, max: nat)
    requires max > 0
    ensures Slot(n + 1, max) == if Slot(n, max) + 1 == max then 0 else Slot(n, max) + 1
    decreases n
  {
    if n >= max { SlotNext(n - max, max); }
  }

  /** A doorbell value of max stands for slot 0. */
  lemma WrappedSlot(n: nat, max: nat)
    requires max > 0
    ensures Slot(n, max) == if Wrapped(n, max) == max then 0 else Wrapped(n, max)
    ensures Wrapped(n + 1, max) == Slot(n, max) + 1
  {
    if n > 0 { SlotNext(n - 1, max); }
  }

  /** Entries less than a lap apart have different slots; entries a lap apart share one. */
  lemma {:induction false} SlotsDiffer(a: nat, b: nat, max: nat)
    requires max > 0 && a <= b <= a + max
    ensures Slot(a, max) == Slot(b, max) <==> a == b || b == a + max
    decreases a
  {
    if a >= max {
      SlotsDiffer(a - max, b - max, max);
    } else if b == a + max {
    }
  }

  /** How far b is ahead of a, read off their slots. */
  lemma {:induction false} SlotsAhead(a: nat, b: nat, max: nat)
    requires max > 0 && a <= b < a + max
    ensures b - a == if Slot(a, max) <= Slot(b, max) then Slot(b, max) - Slot(a, max)
                     else Slot(b, max) + max - Slot(a, max)
    decreases a
  {
    if a >= max {
      SlotsAhead(a - max, b - max, max);
    }
  }

  /** The test "the two doorbell values are equal" means "nothing is outstanding", if and only if
      the ring has not gone a full lap since its first one. */
  lemma EmptyTestIff(seen: nat, done: nat, max: nat)
    requires max > 0 && seen <= done <= seen + max
    ensures (Wrapped(seen, max) == Wrapped(done, max) <==> seen == done) <==> !(done == seen + max && seen > 0)
  {
    if seen > 0 { SlotsDiffer(seen - 1, done - 1, max); }
  }
}
