/** The callback queue and the frame assembler as objects updated in place (transport_wss/wss_owner.cc). */
module WssOwner {
  import opened Machine
  import opened WssFragments
  import opened Rings

  const FREE := Event(Error, [], 0, 0)

  /** The slots of the callback queue, used as a ring. */
  class EventRing {
    const capacity: nat
    const slots: array<Event>
    var head: nat
    var size: nat
    ghost var items: seq<Event>

    ghost predicate Valid()
      reads this, slots
    {
      size == |items| && Ring(slots[..], head, capacity, items)
    }

    constructor (capacity: nat)
      requires capacity <= MAX_EVENTS
      ensures Valid() && fresh(slots) && items == [] && this.capacity == capacity
    {
      this.capacity := capacity;
      slots := new Event[MAX_EVENTS](_ => FREE);
      head, size, items := 0, 0, [];
    }

    method Last() returns (e: Event)
      requires Valid() && size > 0
      ensures e == items[size - 1]
    {
      var last := SlotOf(head, size - 1, capacity);
      e := slots[last];
    }

    method ReplaceLast(e: Event)
      requires Valid() && size > 0
      modifies this`items, slots
      ensures Valid() && items == old(items)[..size - 1] + [e]
    {
      var last := SlotOf(head, size - 1, capacity);
      RingExtend(slots[..], head, capacity, items, e);
      Write(slots, last, e);
      items := items[..size - 1] + [e];
    }

    method Append(e: Event)
      requires Valid() && size < capacity
      modifies this`items, this`size, slots
      ensures Valid() && items == old(items) + [e]
    {
      var free := SlotOf(head, size, capacity);
      RingAppend(slots[..], head, capacity, items, e);
      Write(slots, free, e);
      size := size + 1;
      items := items + [e];
    }

    method PopFirst() returns (e: Event)
      requires Valid() && size > 0
      modifies this, slots
      ensures Valid() && [e] + items == old(items)
    {
      e := slots[head];
      var next := SlotOf(head, 1, capacity);
      RingDrop(slots[..], head, capacity, items, FREE);
      Write(slots, head, FREE);
      head, size := next, size - 1;
      items := items[1..];
    }
  }

  class CallbackEventQueue {
    const byteCapacity: nat
    const slotCapacity: nat
    const ring: EventRing
    var queuedBytes: nat
    var droppedEvents: u32

    ghost predicate Valid()
      reads this, ring, ring.slots
    {
      ring.Valid() && Sound(Model()) && queuedBytes == Bytes_(ring.items)
    }

    ghost function Model(): Queue
      reads this, ring
    {
      Queue(ring.capacity, byteCapacity, slotCapacity, ring.items)
    }

    constructor (capacity: nat, byteCapacity: nat)
      ensures Valid() && fresh(ring) && fresh(ring.slots) && Model() == Made(capacity, byteCapacity) && queuedBytes == 0
    {
      var made := Made(capacity, byteCapacity);
      this.byteCapacity, slotCapacity := made.byteCapacity, made.slotCapacity;
      ring := new EventRing(made.capacity);
      queuedBytes, droppedEvents := 0, 0;
    }

    method TryPush(e: Event) returns (accepted: bool)
      requires Valid()
      modifies this, ring, ring.slots
      ensures Valid()
      ensures Model() == AfterOffer(old(Model()), e) && accepted == !OfferOf(old(Model()), e).Dropped?
      ensures droppedEvents == if accepted then old(droppedEvents) else Wrap32(old(droppedEvents) + 1)
    {
      var carriesData := e.kind.Text? || e.kind.Binary?;
      if (carriesData && (|e.data| == 0 || e.total == 0 || e.total > MaximumPayload(e.kind) || e.offset > e.total
                          || |e.data| > e.total - e.offset || |e.data| > slotCapacity))
         || (!carriesData && (|e.data| != 0 || e.offset != 0 || e.total != 0)) {
        droppedEvents := Wrap32(droppedEvents + 1);
        return false;
      }
      var pending := if byteCapacity < queuedBytes then byteCapacity else queuedBytes;
      if ring.capacity == 0 || |e.data| > byteCapacity - pending {
        droppedEvents := Wrap32(droppedEvents + 1);
        return false;
      }
      accepted := Place(e, carriesData);
      if !accepted {
        droppedEvents := Wrap32(droppedEvents + 1);
      }
    }

    /** Extend the newest slot with a fragment that continues it. */
    method Extend(e: Event, previous: Event)
      requires Valid() && OfferOf(Model(), e).Merged? && previous == ring.items[|ring.items| - 1]
      modifies this`queuedBytes, ring`items, ring.slots
      ensures Valid() && Model() == AfterOffer(old(Model()), e)
    {
      OfferSound(Model(), e);
      ghost var next := AfterOffer(Model(), e);
      ring.ReplaceLast(previous.(data := previous.data + e.data));
      assert ring.items == next.items;
      queuedBytes := queuedBytes + |e.data|;
    }

    /** Take a new slot. */
    method Enqueue(e: Event)
      requires Valid() && OfferOf(Model(), e).Queued?
      modifies this`queuedBytes, ring`items, ring`size, ring.slots
      ensures Valid() && Model() == AfterOffer(old(Model()), e)
    {
      OfferSound(Model(), e);
      ghost var next := AfterOffer(Model(), e);
      ring.Append(e);
      assert ring.items == next.items;
      queuedBytes := queuedBytes + |e.data|;
    }

    /** Extend the newest slot if the fragment continues it, else take a new slot. */
    method Place(e: Event, carriesData: bool) returns (accepted: bool)
      requires Valid() && Admissible(e, slotCapacity) && carriesData == CarriesData(e)
      requires ring.capacity > 0 && queuedBytes + |e.data| <= byteCapacity
      modifies this`queuedBytes, ring, ring.slots
      ensures Valid()
      ensures Model() == AfterOffer(old(Model()), e) && accepted == !OfferOf(old(Model()), e).Dropped?
    {
      if carriesData && ring.size > 0 {
        var previous := ring.Last();
        if previous.kind == e.kind && previous.total == e.total && previous.offset + |previous.data| == e.offset
           && |previous.data| <= slotCapacity && |e.data| <= slotCapacity - |previous.data| {
          Extend(e, previous);
          return true;
        }
      }
      if ring.size >= ring.capacity {
        return false;
      }
      Enqueue(e);
      return true;
    }

    method TryPop() returns (e: Option<Event>)
      requires Valid()
      modifies this, ring, ring.slots
      ensures Valid()
      ensures if old(ring.items) == [] then e == None && ring.items == [] else e.Some? && [e.value] + ring.items == old(ring.items)
    {
      if ring.size == 0 || ring.capacity == 0 {
        return None;
      }
      BytesDropFirst(ring.items);
      var first := ring.PopFirst();
      queuedBytes := queuedBytes - |first.data|;
      e := Some(first);
    }
  }

  class FrameAssembler {
    var kind: Kind
    var expected: nat
    var buffer: Bytes

    function Model(): Assembly
      reads this
    {
      Assembly(kind, expected, buffer)
    }

    constructor ()
      ensures Model() == EMPTY
    {
      kind, expected, buffer := Error, 0, [];
    }

    method Reset()
      modifies this
      ensures Model() == EMPTY
    {
      kind, expected, buffer := Error, 0, [];
    }

    method Consume(e: Event) returns (r: Assembled)
      modifies this
      ensures (Model(), r) == WssFragments.Consume(old(Model()), e)
    {
      if MaximumPayload(e.kind) == 0 || e.total > MaximumPayload(e.kind) || |e.data| == 0
         || |e.data| > MAX_FRAGMENT_BYTES || e.offset + |e.data| > e.total {
        Reset();
        return Rejected;
      }
      if e.offset == 0 {
        Reset();
        kind := e.kind;
        expected := e.total;
      }
      if kind != e.kind || expected != e.total || e.offset != |buffer| {
        Reset();
        return Rejected;
      }
      buffer := buffer + e.data;
      if |buffer| != expected {
        return Incomplete;
      }
      r := Complete(buffer);
      Reset();
    }
  }
}
