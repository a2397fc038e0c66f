/**
 The jitter buffer as the firmware stores it: a fixed array of four slots, searched
 linearly.  Every method is proved against the abstract `Jitter.Buffer`.
 */
module JitterSlots {
  import opened Machine
  import opened Jitter
  import opened SlotTable

  type Slot = Cell<Held>

  const CLEAR: Slot := Cell(false, 0, Held(AudioSlot, 0, 0, 0, []))

  class JitterBuffer {
    const slots: array<Slot>
    var generation: u32
    var expected: u32
    var initialized: bool
    ghost var model: Buffer

    ghost predicate Valid()
      reads this, slots
    {
      && slots.Length == SLOT_COUNT
      && model == Buffer(generation, initialized, expected, model.slots)
      && Agrees(slots[..], model.slots)
    }

    constructor ()
      ensures Valid() && fresh(slots) && model == Empty(1)
    {
      slots := new Slot[SLOT_COUNT](_ => CLEAR);
      generation, expected, initialized := 1, 0, false;
      model := Empty(1);
    }

    method ClearAll()
      requires Valid()
      modifies this`model, slots
      ensures Valid() && model == old(model).(slots := map[])
    {
      for i := 0 to slots.Length
        invariant model == old(model)
        invariant forall j :: 0 <= j < i ==> !slots[j].used
      {
        slots[i] := CLEAR;
      }
      model := model.(slots := map[]);
    }

    method Reset(generation: u32)
      requires Valid()
      modifies this, slots
      ensures Valid() && model == Empty(generation)
    {
      ClearAll();
      this.generation := generation;
      initialized := false;
      expected := 0;
      model := Empty(generation);
    }

    method BeginAt(sequence: u32)
      requires Valid()
      modifies this
      ensures Valid() && model == Jitter.BeginAt(old(model), sequence)
    {
      expected := sequence;
      initialized := true;
      model := Jitter.BeginAt(model, sequence);
    }

    /** Index of the used cell with this sequence, or -1; and of the first unused cell, or -1. */
    method Search(sequence: u32) returns (found: int, free: int)
      requires Valid()
      ensures -1 <= found < slots.Length && -1 <= free < slots.Length
      ensures (found >= 0) == (sequence in model.slots)
      ensures found >= 0 ==> slots[found].used && slots[found].sequence == sequence
      ensures found < 0 ==> (free >= 0) == (|model.slots| < SLOT_COUNT)
      ensures free >= 0 ==> !slots[free].used
    {
      found, free := -1, -1;
      FullIff(slots[..], model.slots);
      for i := 0 to slots.Length
        invariant -1 <= free < i && found == -1
        invariant forall j :: 0 <= j < i && slots[j].used ==> slots[j].sequence != sequence
        invariant free >= 0 ==> !slots[free].used
        invariant free < 0 ==> forall j :: 0 <= j < i ==> slots[j].used
      {
        if slots[i].used && slots[i].sequence == sequence {
          return i, free;
        }
        if !slots[i].used && free == -1 {
          free := i;
        }
      }
      assert !HasCell(slots[..], sequence);
    }

    /** Write a used cell: a free one, or one that already has this sequence. */
    method Fill(i: nat, c: Slot)
      requires Valid() && i < slots.Length && c.used
      requires if slots[i].used then slots[i].sequence == c.sequence else c.sequence !in model.slots
      modifies this`model, slots
      ensures Valid() && slots[i] == c
      ensures model == old(model).(slots := old(model).slots[c.sequence := c.held])
    {
      AgreesTake(slots[..], model.slots, i, c);
      ghost var before := slots[..];
      slots[i] := c;
      assert slots[..] == before[i := c];
      model := model.(slots := model.slots[c.sequence := c.held]);
    }

    /** Empty one used cell. */
    method ClearSlot(i: nat)
      requires Valid() && i < slots.Length && slots[i].used
      modifies this`model, slots
      ensures Valid() && model == old(model).(slots := old(model).slots - {old(slots[i].sequence)})
    {
      AgreesClear(slots[..], model.slots, i, CLEAR);
      ghost var before := slots[..];
      slots[i] := CLEAR;
      assert slots[..] == before[i := CLEAR];
      model := model.(slots := model.slots - {before[i].sequence});
    }

    /** The cell reserved for an accepted packet; the caller fills its remaining fields. */
    method Reserve(sequence: u32, generation: u32, arrived: int, st: Stats, ghost h: Held)
      returns (result: InsertResult, index: nat, st': Stats)
      requires Valid() && h.generation == generation
      modifies this, slots
      ensures Valid() && index < slots.Length
      ensures var r := Jitter.Reserve(old(model), st, sequence, h);
              && result == r.result && st' == r.stats
              && r.buffer == if result.Accepted? then model.(slots := model.slots[sequence := h]) else model
      ensures result.Accepted? ==>
                && slots[index].used && slots[index].sequence == sequence
                && slots[index].held.generation == generation && slots[index].held.arrived == arrived
    {
      index, st' := 0, st;
      if generation != this.generation {
        return OutOfWindow, index, st';
      }
      if !initialized {
        expected := sequence;
        initialized := true;
        model := Start(model, sequence);
      }
      if sequence < expected {
        st' := st'.(late := Wrap32(st'.late + 1));
        return Late, index, st';
      }
      if sequence - expected >= SLOT_COUNT {
        var skipped := sequence - expected;
        ClearAll();
        expected := sequence;
        model := model.(expected := sequence);
        st' := st'.(resyncTotal := Wrap32(st'.resyncTotal + 1), skippedTotal := Wrap32(st'.skippedTotal + skipped));
      }
      var found, free := Search(sequence);
      if found >= 0 {
        return Duplicate, index, st';
      }
      if free < 0 {
        st' := st'.(queueDropped := Wrap32(st'.queueDropped + 1));
        return Full, index, st';
      }
      index := free;
      Fill(index, Cell(true, sequence, slots[index].held.(generation := generation, arrived := arrived)));
      return Accepted, index, st';
    }

    method InsertAudio(sequence: u32, timestamp: u32, generation: u32, payload: seq<u8>, arrived: int, st: Stats)
      returns (result: InsertResult, st': Stats)
      requires Valid()
      modifies this, slots
      ensures Valid()
      ensures Inserted(model, st', result) ==
              Jitter.InsertAudio(old(model), st, sequence, timestamp, generation, payload, arrived)
    {
      if |payload| == 0 || |payload| > MAX_PAYLOAD_BYTES {
        return OutOfWindow, st;
      }
      var index;
      result, index, st' := Reserve(sequence, generation, arrived, st,
                                    Held(AudioSlot, timestamp, generation, arrived, payload));
      if result.Accepted? {
        var h := slots[index].held;
        Fill(index, slots[index].(held := h.(kind := AudioSlot, timestamp := timestamp, payload := payload)));
      }
    }

    method InsertControl(sequence: u32, generation: u32, arrived: int, st: Stats)
      returns (result: InsertResult, st': Stats)
      requires Valid()
      modifies this, slots
      ensures Valid()
      ensures Inserted(model, st', result) == Jitter.InsertControl(old(model), st, sequence, generation, arrived)
    {
      var index;
      result, index, st' := Reserve(sequence, generation, arrived, st, Held(ControlSlot, 0, generation, arrived, []));
      if result.Accepted? {
        var h := slots[index].held;
        Fill(index, slots[index].(held := h.(kind := ControlSlot, timestamp := 0, payload := [])));
      }
    }

    /** The used cell with the lowest sequence above the cursor, or -1. */
    method FirstLater() returns (first: int)
      requires Valid()
      ensures -1 <= first < slots.Length
      ensures first < 0 <==> HeldLater(model) == {}
      ensures first >= 0 ==> slots[first].used && slots[first].sequence == Least(HeldLater(model))
    {
      first := -1;
      for i := 0 to slots.Length
        invariant -1 <= first < i
        invariant first < 0 ==> forall j :: 0 <= j < i && slots[j].used ==> slots[j].sequence <= expected
        invariant first >= 0 ==> slots[first].used && slots[first].sequence > expected
        invariant first >= 0 ==>
                    forall j :: 0 <= j < i && slots[j].used && slots[j].sequence > expected ==>
                                  slots[first].sequence <= slots[j].sequence
      {
        if slots[i].used && slots[i].sequence > expected && (first < 0 || slots[i].sequence < slots[first].sequence) {
          first := i;
        }
      }
      forall s | s in HeldLater(model)
        ensures first >= 0 && slots[first].sequence <= s
      {
        assert HasCell(slots[..], s);
      }
      if first >= 0 {
        assert slots[first].sequence in HeldLater(model);
      }
    }

    /** Consume the cell at the cursor. */
    method Take(at: nat)
      requires Valid() && at < slots.Length && slots[at].used && slots[at].sequence == expected
      modifies this, slots
      ensures Valid() && old(expected in model.slots) && model == Consume(old(model))
    {
      ClearSlot(at);
      expected := Wrap32(expected + 1);
      model := model.(expected := expected);
    }

    /** Pass over control packets; `at` is then the audio cell at the cursor, or -1. */
    method PassControls() returns (at: int)
      requires Valid()
      modifies this, slots
      ensures Valid() && model == SkipControls(old(model))
      ensures -1 <= at < slots.Length
      ensures (at >= 0) == (expected in model.slots)
      ensures at >= 0 ==> slots[at].used && slots[at].sequence == expected
    {
      var free;
      at, free := Search(expected);
      while at >= 0 && slots[at].held.kind.ControlSlot?
        invariant Valid() && SkipControls(model) == SkipControls(old(model))
        invariant -1 <= at < slots.Length
        invariant (at >= 0) == (expected in model.slots)
        invariant at >= 0 ==> slots[at].used && slots[at].sequence == expected
        decreases |model.slots|
      {
        Take(at);
        at, free := Search(expected);
      }
    }

    /** Conceal the sequence at the cursor on behalf of the held packet in cell `first`. */
    method Conceal(first: nat) returns (frame: PlayoutFrame)
      requires Valid() && first < slots.Length && slots[first].used && slots[first].sequence >= expected
      modifies this
      ensures Valid() && model == old(model).(expected := Wrap32(old(expected) + 1))
      ensures old(slots[first].sequence in model.slots)
      ensures frame == PlayoutFrame(PlcFrame, old(expected),
                                    PlcTimestamp(old(slots[first].held.timestamp), old(slots[first].sequence - expected)),
                                    old(generation), old(model).slots[old(slots[first].sequence)].arrived, [])
    {
      var missing := slots[first].sequence - expected;
      frame := PlayoutFrame(PlcFrame, expected, PlcTimestamp(slots[first].held.timestamp, missing),
                            generation, slots[first].held.arrived, []);
      expected := Wrap32(expected + 1);
      model := model.(expected := expected);
    }

    /** Give out the audio at the cursor. */
    method Play(at: nat) returns (frame: PlayoutFrame)
      requires Valid() && at < slots.Length && slots[at].used && slots[at].sequence == expected
      modifies this, slots
      ensures Valid() && old(expected in model.slots) && model == Consume(old(model))
      ensures var h := old(model.slots[expected]);
              frame == PlayoutFrame(AudioFrame, old(expected), h.timestamp, h.generation, h.arrived, h.payload)
    {
      assert HasCell(slots[..], expected) && model.slots[expected] == slots[at].held;
      var h := slots[at].held;
      frame := PlayoutFrame(AudioFrame, slots[at].sequence, h.timestamp, h.generation, h.arrived, h.payload);
      Take(at);
    }

    method PopAfterControls(at: int, now: int, st: Stats) returns (frame: PlayoutFrame, st': Stats)
      requires Valid()
      requires -1 <= at < slots.Length
      requires (at >= 0) == (expected in model.slots)
      requires at >= 0 ==> slots[at].used && slots[at].sequence == expected
      modifies this, slots
      ensures Valid()
      ensures Popped(model, st', frame) == PopAt(old(model), st, now)
    {
      if at >= 0 {
        frame := Play(at);
        var age := if now <= frame.arrived then 0 else now - frame.arrived;
        var ms := Wrap32(age / 1000);
        st' := st.(played := Wrap32(st.played + 1), maxMediaAgeMs := if ms > st.maxMediaAgeMs then ms else st.maxMediaAgeMs);
        return;
      }
      var first := FirstLater();
      if first < 0 || now - slots[first].held.arrived < WAIT_US {
        return NO_FRAME, st;
      }
      frame := Conceal(first);
      st' := st.(lost := Wrap32(st.lost + 1));
    }

    method Pop(now: int, st: Stats) returns (frame: PlayoutFrame, st': Stats)
      requires Valid()
      modifies this, slots
      ensures Valid()
      ensures Popped(model, st', frame) == Jitter.Pop(old(model), st, now)
    {
      if !initialized {
        return NO_FRAME, st;
      }
      var at := PassControls();
      frame, st' := PopAfterControls(at, now, st);
    }
  }
}
