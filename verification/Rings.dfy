/** Rings of slots: a head index, a number of used slots, and indices taken modulo the capacity. */
module Rings {
  import BitArithmetic

  /** Slot of the i-th item of a ring. */
  function SlotAt(head: nat, i: nat, capacity: nat): nat {
    if head + i < capacity then head + i else head + i - capacity
  }

  /** `(head + i) % capacity` */
  method SlotOf(head: nat, i: nat, capacity: nat) returns (k: nat)
    requires head < capacity && i <= capacity
    ensures k == SlotAt(head, i, capacity) < capacity
  {
    if head + i < capacity {
      BitArithmetic.QuotientUnique(head + i, capacity, 0, head + i);
    } else {
      BitArithmetic.QuotientUnique(head + i, capacity, 1, head + i - capacity);
    }
    k := (head + i) % capacity;
  }

  /** The slots from the head on hold exactly these items. */
  ghost predicate Ring<T>(slots: seq<T>, head: nat, capacity: nat, items: seq<T>) {
    && capacity <= |slots| && |items| <= capacity && (capacity > 0 ==> head < capacity)
    && forall i :: 0 <= i < |items| ==> slots[SlotAt(head, i, capacity)] == items[i]
  }

  lemma RingExtend<T>(slots: seq<T>, head: nat, capacity: nat, items: seq<T>, e: T)
    requires Ring(slots, head, capacity, items) && items != []
    ensures var n := |items| - 1; Ring(slots[SlotAt(head, n, capacity) := e], head, capacity, items[..n] + [e])
  {
  }

  lemma RingAppend<T>(slots: seq<T>, head: nat, capacity: nat, items: seq<T>, e: T)
    requires Ring(slots, head, capacity, items) && |items| < capacity
    ensures Ring(slots[SlotAt(head, |items|, capacity) := e], head, capacity, items + [e])
  {
  }

  lemma RingDrop<T>(slots: seq<T>, head: nat, capacity: nat, items: seq<T>, e: T)
    requires Ring(slots, head, capacity, items) && items != []
    ensures slots[head] == items[0]
    ensures Ring(slots[head := e], SlotAt(head, 1, capacity), capacity, items[1..])
  {
    var rest := items[1..];
    forall i | 0 <= i < |rest|
      ensures slots[head := e][SlotAt(SlotAt(head, 1, capacity), i, capacity)] == rest[i]
    {
      assert SlotAt(SlotAt(head, 1, capacity), i, capacity) == SlotAt(head, i + 1, capacity);
      assert slots[SlotAt(head, i + 1, capacity)] == items[i + 1];
    }
  }

  /** Overwrite slot i. */
  method Write<T>(slots: array<T>, i: nat, x: T)
    requires i < slots.Length
    modifies slots
    ensures slots[..] == old(slots[..])[i := x]
  {
    slots[i] := x;
  }
}
