/**
 The four-slot jitter buffer (transport_udp/jitter_buffer.cc).

 `Buffer` is the abstract value: a cursor and a map from sequence to held packet.
 The class `JitterBuffer` keeps the source's array of slots and is proved against it.
 */
module Jitter {
  import opened Machine

  const SLOT_COUNT := 4
  const WAIT_US := 120000

  datatype PlayoutKind = NoFrame | AudioFrame | PlcFrame

  datatype PlayoutFrame = PlayoutFrame(
    kind: PlayoutKind, sequence: u32, timestamp: u32, generation: u32, arrived: int, payload: seq<u8>)

  const NO_FRAME := PlayoutFrame(NoFrame, 0, 0, 0, 0, [])

  datatype InsertResult = Accepted | Late | Duplicate | OutOfWindow | Full

  /** The uint32 counters that insertion and playout update. */
  datatype Stats = Stats(late: u32, lost: u32, queueDropped: u32, resyncTotal: u32, skippedTotal: u32, played: u32, maxMediaAgeMs: u32)

  datatype SlotKind = AudioSlot | ControlSlot

  /** What a used slot holds besides its sequence. */
  datatype Held = Held(kind: SlotKind, timestamp: u32, generation: u32, arrived: int, payload: seq<u8>)

  datatype Buffer = Buffer(generation: u32, initialized: bool, expected: u32, slots: map<u32, Held>)

  datatype Inserted = Inserted(buffer: Buffer, stats: Stats, result: InsertResult)

  datatype Popped = Popped(buffer: Buffer, stats: Stats, frame: PlayoutFrame)

  function Empty(generation: u32): Buffer {
    Buffer(generation, false, 0, map[])
  }

  function BeginAt(b: Buffer, sequence: u32): Buffer {
    b.(expected := sequence, initialized := true)
  }

  /** Cursor after an uninitialised cursor adopted `sequence`. */
  function Start(b: Buffer, sequence: u32): Buffer {
    if b.initialized then b else b.(expected := sequence, initialized := true)
  }

  /** How many sequences a packet beyond the window makes the cursor skip. */
  function SkippedBy(b: Buffer, sequence: u32): nat {
    if sequence >= b.expected + SLOT_COUNT then sequence - b.expected else 0
  }

  function Reserve(b: Buffer, st: Stats, sequence: u32, held: Held): Inserted {
    if held.generation != b.generation then Inserted(b, st, OutOfWindow)
    else
      var s := Start(b, sequence);
      if sequence < s.expected then Inserted(s, st.(late := Wrap32(st.late + 1)), Late)
      else
        var skipped := SkippedBy(s, sequence);
        var r := if skipped > 0 then s.(expected := sequence, slots := map[]) else s;
        var rst := if skipped > 0
                   then st.(resyncTotal := Wrap32(st.resyncTotal + 1), skippedTotal := Wrap32(st.skippedTotal + skipped))
                   else st;
        if sequence in r.slots then Inserted(r, rst, Duplicate)
        else if |r.slots| >= SLOT_COUNT then Inserted(r, rst.(queueDropped := Wrap32(rst.queueDropped + 1)), Full)
        else Inserted(r.(slots := r.slots[sequence := held]), rst, Accepted)
  }

  function InsertAudio(b: Buffer, st: Stats, sequence: u32, timestamp: u32, generation: u32,
                       payload: seq<u8>, arrived: int): Inserted {
    if |payload| == 0 || |payload| > MAX_PAYLOAD_BYTES then Inserted(b, st, OutOfWindow)
    else Reserve(b, st, sequence, Held(AudioSlot, timestamp, generation, arrived, payload))
  }

  function InsertControl(b: Buffer, st: Stats, sequence: u32, generation: u32, arrived: int): Inserted {
    Reserve(b, st, sequence, Held(ControlSlot, 0, generation, arrived, []))
  }

  /** Take the slot at the cursor. */
  function Consume(b: Buffer): (r: Buffer)
    requires b.expected in b.slots
    ensures |r.slots| == |b.slots| - 1
  {
    assert (b.slots - {b.expected}).Keys == b.slots.Keys - {b.expected};
    b.(slots := b.slots - {b.expected}, expected := Wrap32(b.expected + 1))
  }

  /** Control packets at the cursor only move it. */
  function SkipControls(b: Buffer): Buffer
    decreases |b.slots|
  {
    if b.expected in b.slots && b.slots[b.expected].kind.ControlSlot? then SkipControls(Consume(b)) else b
  }

  function ControlRun(b: Buffer): nat
    decreases |b.slots|
  {
    if b.expected in b.slots && b.slots[b.expected].kind.ControlSlot? then 1 + ControlRun(Consume(b)) else 0
  }

  function HeldLater(b: Buffer): set<u32> {
    set s | s in b.slots && s > b.expected
  }

  /** Timestamp given to concealment `missing` frames before a held packet. */
  function PlcTimestamp(timestamp: u32, missing: nat): u32 {
    var back := Wrap32(missing * SAMPLES_PER_FRAME);
    if timestamp >= back then timestamp - back else 0
  }

  /** Milliseconds a packet waited, as the uint32 the counter holds. */
  function AgeMs(arrived: int, now: int): u32 {
    if now <= arrived then 0 else Wrap32((now - arrived) / 1000)
  }

  /** The counters after a packet that arrived at `arrived` was played at `now`. */
  function CountPlayed(st: Stats, arrived: int, now: int): Stats {
    var age := AgeMs(arrived, now);
    st.(played := Wrap32(st.played + 1), maxMediaAgeMs := if age > st.maxMediaAgeMs then age else st.maxMediaAgeMs)
  }

  /** One playout once control packets at the cursor are passed over. */
  ghost function PopAt(c: Buffer, st: Stats, now: int): Popped {
    if c.expected in c.slots then
      var h := c.slots[c.expected];
      Popped(Consume(c), CountPlayed(st, h.arrived, now),
             PlayoutFrame(AudioFrame, c.expected, h.timestamp, h.generation, h.arrived, h.payload))
    else if HeldLater(c) == {} || now - c.slots[Least(HeldLater(c))].arrived < WAIT_US then
      Popped(c, st, NO_FRAME)
    else
      var first := Least(HeldLater(c));
      var h := c.slots[first];
      Popped(c.(expected := Wrap32(c.expected + 1)), st.(lost := Wrap32(st.lost + 1)),
             PlayoutFrame(PlcFrame, c.expected, PlcTimestamp(h.timestamp, first - c.expected), c.generation, h.arrived, []))
  }

  ghost function Pop(b: Buffer, st: Stats, now: int): Popped {
    if b.initialized then PopAt(SkipControls(b), st, now) else Popped(b, st, NO_FRAME)
  }

  // ---- The window invariant and its consequences -----------------------------------------

  /** Held packets lie in the four sequences from the cursor and carry the buffer's generation. */
  ghost predicate InWindow(b: Buffer) {
    && (!b.initialized ==> b.slots == map[])
    && forall s :: s in b.slots ==> b.expected <= s < b.expected + SLOT_COUNT && b.slots[s].generation == b.generation
  }

  lemma Pigeonhole(b: Buffer, sequence: u32)
    requires InWindow(b) && b.expected <= sequence < b.expected + SLOT_COUNT && sequence !in b.slots
    ensures |b.slots| < SLOT_COUNT
  {
    var e: nat := b.expected;
    var window := {e, e + 1, e + 2, e + 3};
    assert b.slots.Keys <= window - {sequence};
    SubsetSize(b.slots.Keys, window - {sequence});
  }

  lemma {:induction false} SubsetSize(a: set<nat>, b: set<nat>)
    requires a <= b
    ensures |a| <= |b|
  {
    if a != {} {
      var x :| x in a;
      SubsetSize(a - {x}, b - {x});
    }
  }

  /** While the window invariant holds an insertion never reports a full buffer. */
  lemma ReserveKeepsWindow(b: Buffer, st: Stats, sequence: u32, held: Held)
    requires InWindow(b)
    ensures InWindow(Reserve(b, st, sequence, held).buffer)
    ensures !Reserve(b, st, sequence, held).result.Full?
    ensures Reserve(b, st, sequence, held).result.Accepted? <==>
              held.generation == b.generation && sequence !in b.slots && (b.initialized ==> sequence >= b.expected)
    ensures Reserve(b, st, sequence, held).result.Accepted? ==>
              var after := Reserve(b, st, sequence, held).buffer.slots;
              && sequence in after && after[sequence] == held
              && forall s :: s in after && s != sequence ==> s in b.slots && after[s] == b.slots[s]
  {
    var s := Start(b, sequence);
    if held.generation == b.generation && sequence >= s.expected {
      var r := if SkippedBy(s, sequence) > 0 then s.(expected := sequence, slots := map[]) else s;
      if sequence !in r.slots {
        Pigeonhole(r, sequence);
      }
    }
  }

  /**
   Without the invariant a full buffer is reachable: moving the cursor over held packets
   (as `BeginAt` does) leaves four slots below it that no insertion in the window can use.
   */
  lemma BeginAtOverHeldPacketsCanFill(st: Stats)
    ensures var h := Held(AudioSlot, 0, 1, 0, [0]);
            var b := Buffer(1, true, 0, map[0 := h, 1 := h, 2 := h, 3 := h]);
            InWindow(b) && Reserve(BeginAt(b, 10), st, 10, h).result.Full?
  {
    var h := Held(AudioSlot, 0, 1, 0, [0]);
    var m: map<u32, Held> := map[0 := h, 1 := h, 2 := h, 3 := h];
    assert m.Keys == {0, 1, 2, 3};
    assert |m| == |m.Keys| == 4;
  }

  lemma ConsumeKeepsWindow(b: Buffer)
    requires InWindow(b) && b.expected in b.slots
    ensures InWindow(Consume(b))
  {
    if b.expected == U32_MAX {
      forall s | s in b.slots
        ensures s == b.expected
      {
      }
    }
  }

  lemma {:induction false} SkipControlsKeepsWindow(b: Buffer)
    requires InWindow(b)
    ensures InWindow(SkipControls(b))
    ensures SkipControls(b).generation == b.generation && SkipControls(b).initialized == b.initialized
    ensures forall s :: s in SkipControls(b).slots ==> s in b.slots && SkipControls(b).slots[s] == b.slots[s]
    ensures forall s :: s in b.slots && b.slots[s].kind.AudioSlot? ==> s in SkipControls(b).slots
    decreases |b.slots|
  {
    if b.expected in b.slots && b.slots[b.expected].kind.ControlSlot? {
      ConsumeKeepsWindow(b);
      SkipControlsKeepsWindow(Consume(b));
    }
  }

  /** `after` holds some of the packets of `before`, unchanged. */
  ghost predicate KeepsSome(before: Buffer, after: Buffer) {
    && after.generation == before.generation && after.initialized == before.initialized
    && forall s :: s in after.slots ==> s in before.slots && after.slots[s] == before.slots[s]
  }

  /** All audio packets of `before` other than `except` are still held. */
  ghost predicate KeepsAudio(before: Buffer, after: Buffer, except: set<u32>) {
    forall s :: s in before.slots && before.slots[s].kind.AudioSlot? && s !in except ==> s in after.slots
  }

  /** The frame is the lowest held audio packet, given out unchanged and removed. */
  ghost predicate IsLowestAudio(b: Buffer, p: Popped) {
    var q := p.frame.sequence;
    && q in b.slots && q !in p.buffer.slots
    && b.slots[q] == Held(AudioSlot, p.frame.timestamp, p.frame.generation, p.frame.arrived, p.frame.payload)
    && p.frame.generation == b.generation
    && (forall s :: s in b.slots && b.slots[s].kind.AudioSlot? ==> q <= s)
    && KeepsAudio(b, p.buffer, {q})
  }

  /** The frame conceals the sequence at the cursor, because `first`, the lowest held packet, waited 120 ms. */
  ghost predicate IsConcealment(b: Buffer, p: Popped, now: int, first: u32) {
    && first in b.slots && p.frame.sequence < first < p.frame.sequence + 4
    && p.frame.sequence !in p.buffer.slots
    && (forall s :: s in p.buffer.slots ==> first <= s)
    && now - b.slots[first].arrived >= 120_000
    && p.frame.timestamp == (if b.slots[first].timestamp >= (first - p.frame.sequence) * 960
                             then b.slots[first].timestamp - (first - p.frame.sequence) * 960 else 0)
    && p.frame == PlayoutFrame(PlcFrame, p.frame.sequence, p.frame.timestamp, b.generation, b.slots[first].arrived, [])
    && KeepsAudio(b, p.buffer, {})
  }

  lemma PopAtKeepsWindow(c: Buffer, st: Stats, now: int)
    requires InWindow(c)
    ensures InWindow(PopAt(c, st, now).buffer) && KeepsSome(c, PopAt(c, st, now).buffer)
  {
    if c.expected in c.slots {
      ConsumeKeepsWindow(c);
    }
  }

  lemma PopKeepsWindow(b: Buffer, st: Stats, now: int)
    requires InWindow(b)
    ensures InWindow(Pop(b, st, now).buffer) && KeepsSome(b, Pop(b, st, now).buffer)
  {
    if b.initialized {
      SkipControlsKeepsWindow(b);
      PopAtKeepsWindow(SkipControls(b), st, now);
    }
  }

  lemma PopAtMeaning(c: Buffer, st: Stats, now: int) returns (first: u32)
    requires InWindow(c)
    requires c.expected in c.slots ==> c.slots[c.expected].kind.AudioSlot?
    ensures var p := PopAt(c, st, now);
      match p.frame.kind
      case AudioFrame => IsLowestAudio(c, p) && p.stats == CountPlayed(st, p.frame.arrived, now)
      case PlcFrame => IsConcealment(c, p, now, first) && p.stats == st.(lost := Wrap32(st.lost + 1))
      case NoFrame => p.frame == NO_FRAME && p.stats == st && KeepsAudio(c, p.buffer, {})
  {
    first := 0;
    if c.expected !in c.slots && HeldLater(c) != {} {
      first := Least(HeldLater(c));
      assert forall s :: s in c.slots ==> s in HeldLater(c);
    }
  }

  /**
   What one playout returns, without reference to how it searched: the lowest held audio
   packet; or concealment, only once the lowest held packet has waited 120 ms; or nothing.
   */
  lemma PopMeaning(b: Buffer, st: Stats, now: int)
    requires InWindow(b)
    ensures var p := Pop(b, st, now);
      match p.frame.kind
      case AudioFrame => IsLowestAudio(b, p) && p.stats == CountPlayed(st, p.frame.arrived, now)
      case PlcFrame => (exists first :: IsConcealment(b, p, now, first)) && p.stats == st.(lost := Wrap32(st.lost + 1))
      case NoFrame => p.frame == NO_FRAME && p.stats == st && KeepsAudio(b, p.buffer, {})
  {
    if b.initialized {
      SkipControlsKeepsWindow(b);
      SkipControlsStops(b);
      var first := PopAtMeaning(SkipControls(b), st, now);
      var p := Pop(b, st, now);
      if p.frame.kind.PlcFrame? {
        assert IsConcealment(b, p, now, first);
      }
    }
  }

  lemma {:induction false} SkipControlsStops(b: Buffer)
    ensures var c := SkipControls(b); c.expected in c.slots ==> c.slots[c.expected].kind.AudioSlot?
    decreases |b.slots|
  {
    if b.expected in b.slots && b.slots[b.expected].kind.ControlSlot? {
      SkipControlsStops(Consume(b));
    }
  }

  // ---- Whole runs between two resets ------------------------------------------------------

  datatype Op =
    | OpAudio(sequence: u32, timestamp: u32, generation: u32, payload: seq<u8>, arrived: int)
    | OpControl(sequence: u32, generation: u32, arrived: int)
    | OpPop(now: int)

  /**
   A run in progress.  `position` is the cursor counted without wrap-around from `base`;
   `places[i]` is the position at which `emitted[i]` left the buffer.
   */
  datatype Run = Run(buffer: Buffer, stats: Stats, base: nat, position: nat,
                     emitted: seq<PlayoutFrame>, places: seq<nat>, controls: nat, skipped: nat)

  function AfterInsert(r: Run, sequence: u32, i: Inserted): Run {
    var started := i.buffer.initialized && !r.buffer.initialized;
    var position := if started then sequence else r.position;
    var skipped := if i.result.OutOfWindow? || i.result.Late? then 0 else SkippedBy(Start(r.buffer, sequence), sequence);
    r.(buffer := i.buffer, stats := i.stats, base := if started then sequence else r.base,
       position := position + skipped, skipped := r.skipped + skipped)
  }

  function AfterPop(r: Run, p: Popped, passed: nat): Run {
    if p.frame.kind.NoFrame? then
      r.(buffer := p.buffer, stats := p.stats, position := r.position + passed, controls := r.controls + passed)
    else
      r.(buffer := p.buffer, stats := p.stats, position := r.position + passed + 1, controls := r.controls + passed,
         emitted := r.emitted + [p.frame], places := r.places + [r.position + passed])
  }

  ghost function Step(r: Run, op: Op): Run {
    match op
    case OpAudio(s, ts, g, p, at) => AfterInsert(r, s, InsertAudio(r.buffer, r.stats, s, ts, g, p, at))
    case OpControl(s, g, at) => AfterInsert(r, s, InsertControl(r.buffer, r.stats, s, g, at))
    case OpPop(now) =>
      AfterPop(r, Pop(r.buffer, r.stats, now), if r.buffer.initialized then ControlRun(r.buffer) else 0)
  }

  ghost function Steps(r: Run, ops: seq<Op>): Run
    decreases |ops|
  {
    if ops == [] then r else Steps(Step(r, ops[0]), ops[1..])
  }

  function CountKind(frames: seq<PlayoutFrame>, kind: PlayoutKind): nat {
    if frames == [] then 0
    else CountKind(frames[..|frames| - 1], kind) + if frames[|frames| - 1].kind == kind then 1 else 0
  }

  /** Frame i left at places[i]; places strictly increase inside [base, position). */
  ghost predicate Placed(base: nat, position: nat, emitted: seq<PlayoutFrame>, places: seq<nat>) {
    && |places| == |emitted|
    && (forall i :: 0 <= i < |places| ==> base <= places[i] < position)
    && Increasing(places)
    && (forall i :: 0 <= i < |places| ==> emitted[i].sequence == Wrap32(places[i]))
  }

  lemma PlacedAppend(base: nat, position: nat, emitted: seq<PlayoutFrame>, places: seq<nat>, f: PlayoutFrame, at: nat)
    requires Placed(base, position, emitted, places)
    requires base <= position <= at && f.sequence == Wrap32(at)
    ensures Placed(base, at + 1, emitted + [f], places + [at])
  {
  }

  /** Frames are at their places, and the advance is audio played, concealment, control slots and sequences skipped. */
  ghost predicate Balanced(base: nat, position: nat, emitted: seq<PlayoutFrame>, places: seq<nat>, controls: nat, skipped: nat) {
    && base <= position && Placed(base, position, emitted, places)
    && position == base + CountKind(emitted, AudioFrame) + CountKind(emitted, PlcFrame) + controls + skipped
  }

  /** Every frame sits at its own place and the whole cursor advance is accounted for. */
  ghost predicate Accounted(r: Run) {
    && InWindow(r.buffer)
    && (r.buffer.initialized ==> r.buffer.expected == Wrap32(r.position))
    && (!r.buffer.initialized ==> r.base == r.position && r.emitted == [])
    && Balanced(r.base, r.position, r.emitted, r.places, r.controls, r.skipped)
  }

  lemma {:induction false} ControlRunAdvances(b: Buffer, position: nat)
    requires b.expected == Wrap32(position)
    ensures SkipControls(b).expected == Wrap32(position + ControlRun(b))
    decreases |b.slots|
  {
    if b.expected in b.slots && b.slots[b.expected].kind.ControlSlot? {
      AdvanceOne(position);
      ControlRunAdvances(Consume(b), position + 1);
    }
  }

  lemma AdvanceOne(position: nat)
    ensures Wrap32(Wrap32(position) + 1) == Wrap32(position + 1)
  {
    WrapAdd(position, 0, 1);
  }

  lemma CountAppend(frames: seq<PlayoutFrame>, f: PlayoutFrame, kind: PlayoutKind)
    ensures CountKind(frames + [f], kind) == CountKind(frames, kind) + if f.kind == kind then 1 else 0
  {
    assert (frames + [f])[..|frames|] == frames;
  }

  lemma InsertAccounted(r: Run, sequence: u32, held: Held)
    requires Accounted(r)
    ensures Accounted(AfterInsert(r, sequence, Reserve(r.buffer, r.stats, sequence, held)))
  {
    ReserveKeepsWindow(r.buffer, r.stats, sequence, held);
    var after := AfterInsert(r, sequence, Reserve(r.buffer, r.stats, sequence, held));
    var s := Start(r.buffer, sequence);
    if held.generation == r.buffer.generation && sequence >= s.expected && SkippedBy(s, sequence) > 0 {
      assert after.position == r.position + (sequence - r.buffer.expected);
      assert after.buffer.expected == sequence;
      assert Wrap32(after.position) == sequence;
    }
    if after.buffer.initialized && !r.buffer.initialized {
      assert CountKind(r.emitted, AudioFrame) == 0;
    }
  }

  /** The frame carries the cursor reached past the control packets, and the cursor moves one further. */
  lemma PopMovesCursor(b: Buffer, st: Stats, now: int)
    requires b.initialized
    ensures var p := Pop(b, st, now);
            if p.frame.kind.NoFrame? then p.buffer.expected == SkipControls(b).expected
            else p.frame.sequence == SkipControls(b).expected && p.buffer.expected == Wrap32(SkipControls(b).expected + 1)
  {
  }

  /** A pop that returns nothing may still pass control packets. */
  lemma QuietPopAccounted(r: Run, p: Popped, passed: nat)
    requires Accounted(r) && r.buffer.initialized && p.buffer.initialized && InWindow(p.buffer)
    requires p.frame.kind.NoFrame? && p.buffer.expected == Wrap32(r.position + passed)
    ensures Accounted(AfterPop(r, p, passed))
  {
    PlacedBelow(r.base, r.position, r.emitted, r.places, r.position + passed);
  }

  lemma FramePopAccounted(r: Run, p: Popped, passed: nat)
    requires Accounted(r) && r.buffer.initialized && p.buffer.initialized && InWindow(p.buffer)
    requires !p.frame.kind.NoFrame? && p.frame.sequence == Wrap32(r.position + passed)
    requires p.buffer.expected == Wrap32(r.position + passed + 1)
    ensures Accounted(AfterPop(r, p, passed))
  {
    FrameBalanced(r.base, r.position, r.emitted, r.places, r.controls, r.skipped, p.frame, passed);
  }

  lemma FrameBalanced(base: nat, position: nat, emitted: seq<PlayoutFrame>, places: seq<nat>, controls: nat, skipped: nat,
                      f: PlayoutFrame, passed: nat)
    requires Balanced(base, position, emitted, places, controls, skipped)
    requires !f.kind.NoFrame? && f.sequence == Wrap32(position + passed)
    ensures Balanced(base, position + passed + 1, emitted + [f], places + [position + passed], controls + passed, skipped)
  {
    PlacedAppend(base, position, emitted, places, f, position + passed);
    EmittedCount(emitted, f);
  }

  lemma AfterPopAccounted(r: Run, p: Popped, passed: nat)
    requires Accounted(r) && r.buffer.initialized && p.buffer.initialized && InWindow(p.buffer)
    requires p.frame.kind.NoFrame? ==> p.buffer.expected == Wrap32(r.position + passed)
    requires !p.frame.kind.NoFrame? ==>
               p.frame.sequence == Wrap32(r.position + passed) && p.buffer.expected == Wrap32(p.frame.sequence + 1)
    ensures Accounted(AfterPop(r, p, passed))
  {
    if p.frame.kind.NoFrame? {
      QuietPopAccounted(r, p, passed);
    } else {
      AdvanceOne(r.position + passed);
      FramePopAccounted(r, p, passed);
    }
  }

  lemma PlacedBelow(base: nat, position: nat, emitted: seq<PlayoutFrame>, places: seq<nat>, at: nat)
    requires Placed(base, position, emitted, places) && position <= at
    ensures Placed(base, at, emitted, places)
  {
  }

  /** A frame that is not nothing is counted as audio or as concealment. */
  lemma EmittedCount(frames: seq<PlayoutFrame>, f: PlayoutFrame)
    requires !f.kind.NoFrame?
    ensures CountKind(frames + [f], AudioFrame) + CountKind(frames + [f], PlcFrame) ==
            CountKind(frames, AudioFrame) + CountKind(frames, PlcFrame) + 1
  {
    CountAppend(frames, f, AudioFrame);
    CountAppend(frames, f, PlcFrame);
  }

  lemma PopKeepsInitialized(b: Buffer, st: Stats, now: int)
    requires InWindow(b) && b.initialized
    ensures Pop(b, st, now).buffer.initialized
  {
    SkipControlsKeepsWindow(b);
  }

  /** `passed` control packets bring the cursor to c, where the playout looks. */
  lemma PopAccountedAt(r: Run, now: int, passed: nat, c: u32)
    requires Accounted(r) && r.buffer.initialized
    requires SkipControls(r.buffer).expected == c && c == Wrap32(r.position + passed)
    ensures Accounted(AfterPop(r, Pop(r.buffer, r.stats, now), passed))
  {
    PopKeepsWindow(r.buffer, r.stats, now);
    PopKeepsInitialized(r.buffer, r.stats, now);
    PopMovesCursor(r.buffer, r.stats, now);
    AfterPopAccounted(r, Pop(r.buffer, r.stats, now), passed);
  }

  lemma PopAccounted(r: Run, now: int)
    requires Accounted(r)
    ensures Accounted(Step(r, OpPop(now)))
  {
    if r.buffer.initialized {
      ControlRunAdvances(r.buffer, r.position);
      PopAccountedAt(r, now, ControlRun(r.buffer), SkipControls(r.buffer).expected);
    } else {
      assert Step(r, OpPop(now)) == r;
    }
  }

  lemma StepAccounted(r: Run, op: Op)
    requires Accounted(r)
    ensures Accounted(Step(r, op))
  {
    match op {
      case OpAudio(s, ts, g, p, at) =>
        if 0 < |p| <= MAX_PAYLOAD_BYTES {
          InsertAccounted(r, s, Held(AudioSlot, ts, g, at, p));
        }
      case OpControl(s, g, at) => InsertAccounted(r, s, Held(ControlSlot, 0, g, at, []));
      case OpPop(now) => PopAccounted(r, now);
    }
  }

  /**
   Over every run of inserts and pops without a reset: places strictly increase, and
   cursor advance == audio played + concealment + control slots + sequences skipped.
   */
  lemma {:induction false} RunAccounted(r: Run, ops: seq<Op>)
    requires Accounted(r)
    ensures Accounted(Steps(r, ops))
    decreases |ops|
  {
    if ops != [] {
      StepAccounted(r, ops[0]);
      RunAccounted(Step(r, ops[0]), ops[1..]);
    }
  }

  function Fresh(b: Buffer, st: Stats): Run {
    var at := if b.initialized then b.expected else 0;
    Run(b, st, at, at, [], [], 0, 0)
  }

  lemma PlacedSequences(base: nat, position: nat, emitted: seq<PlayoutFrame>, places: seq<nat>, i: nat, j: nat)
    requires Placed(base, position, emitted, places) && i < j < |emitted| && position <= TWO_32
    ensures emitted[i].sequence < emitted[j].sequence
  {
    assert places[i] < places[j] < TWO_32;
  }

  /** All sequences in [from, to) are held control packets. */
  ghost predicate ControlSpan(b: Buffer, from: nat, to: nat) {
    forall s: u32 :: from <= s < to ==> s in b.slots && b.slots[s].kind.ControlSlot?
  }

  /** Passing over control packets removes exactly a contiguous run of them from the cursor on. */
  lemma {:induction false} ControlRunShape(b: Buffer)
    requires InWindow(b)
    ensures b.expected + ControlRun(b) <= TWO_32
    ensures ControlSpan(b, b.expected, b.expected + ControlRun(b))
    ensures forall s :: s in SkipControls(b).slots <==> s in b.slots && s >= b.expected + ControlRun(b)
    decreases |b.slots|
  {
    if b.expected in b.slots && b.slots[b.expected].kind.ControlSlot? {
      var rest := Consume(b);
      ConsumeKeepsWindow(b);
      if b.expected == U32_MAX {
        assert rest.slots == map[];
      } else {
        ControlRunShape(rest);
        forall s: u32 | b.expected <= s < b.expected + ControlRun(b)
          ensures s in b.slots && b.slots[s].kind.ControlSlot?
        {
          assert s == b.expected || s in rest.slots;
        }
      }
    }
  }

  /** The next playout consumes the last sequence number: it is held, and only control packets come before it. */
  ghost predicate ReachesLast(b: Buffer) {
    b.initialized && U32_MAX in b.slots && ControlSpan(b, b.expected, U32_MAX)
  }

  /** One playout moves the cursor back exactly when it consumes the last sequence number. */
  lemma CursorMovesBackIff(b: Buffer, st: Stats, now: int)
    requires InWindow(b) && b.initialized
    ensures Pop(b, st, now).buffer.expected < b.expected <==> ReachesLast(b)
  {
    var n := ControlRun(b);
    var c := SkipControls(b);
    ControlRunShape(b);
    ControlRunAdvances(b, b.expected);
    SkipControlsKeepsWindow(b);
    SkipControlsStops(b);
    PopMovesCursor(b, st, now);
    assert c.expected in b.slots && b.expected + n < U32_MAX ==> c.expected in c.slots;
    assert U32_MAX in b.slots && b.expected + n == U32_MAX ==> U32_MAX in c.slots;
    assert b.expected + n == TWO_32 ==> U32_MAX in b.slots;
    if c.expected == U32_MAX && U32_MAX !in b.slots {
      NothingAfterLast(c, st, now);
    }
  }

  lemma NothingAfterLast(c: Buffer, st: Stats, now: int)
    requires InWindow(c) && c.expected == U32_MAX && U32_MAX !in c.slots
    ensures PopAt(c, st, now) == Popped(c, st, NO_FRAME)
  {
    assert HeldLater(c) == {};
  }

  // ---- Order of what is played -----------------------------------------------------------------

  /** At most four control packets are passed at once. */
  lemma ControlRunShort(b: Buffer)
    requires InWindow(b)
    ensures ControlRun(b) <= SLOT_COUNT
  {
    ControlRunShape(b);
    if ControlRun(b) > 0 {
      var s: u32 := b.expected + ControlRun(b) - 1;
      assert s in b.slots;
    }
  }

  /** Before the cursor has wrapped, a playout takes it to 2^32 exactly when it consumes the last sequence number. */
  lemma PopReachesIff(r: Run, now: int)
    requires Accounted(r) && r.position < TWO_32
    ensures r.position <= Step(r, OpPop(now)).position <= TWO_32
    ensures Step(r, OpPop(now)).position == TWO_32 <==> ReachesLast(r.buffer)
  {
    if r.buffer.initialized {
      var after := Step(r, OpPop(now));
      PopAccounted(r, now);
      CursorMovesBackIff(r.buffer, r.stats, now);
      ControlRunShort(r.buffer);
      PopStops(r.buffer, r.stats, now);
      assert after.buffer == Pop(r.buffer, r.stats, now).buffer;
    }
  }

  /** Past the last sequence number nothing is held, so a playout that passed it returns nothing. */
  lemma PopStops(b: Buffer, st: Stats, now: int)
    requires InWindow(b) && b.initialized
    ensures b.expected + ControlRun(b) <= TWO_32
    ensures b.expected + ControlRun(b) == TWO_32 ==> Pop(b, st, now).frame.kind.NoFrame?
  {
    ControlRunShape(b);
    if b.expected + ControlRun(b) == TWO_32 {
      assert SkipControls(b).slots == map[];
      assert HeldLater(SkipControls(b)) == {};
    }
  }

  predicate Inserts(op: Op) {
    op.OpAudio? || op.OpControl?
  }

  /** An insertion may move the cursor ahead, but only to the sequence inserted. */
  lemma InsertReaches(r: Run, op: Op)
    requires Accounted(r) && r.position < TWO_32 && Inserts(op)
    ensures r.position <= Step(r, op).position || !r.buffer.initialized
    ensures Step(r, op).position < TWO_32
  {
  }

  /** Some playout of the run meets a buffer whose next playout consumes the last sequence number. */
  ghost predicate MeetsLast(r: Run, ops: seq<Op>)
    decreases |ops|
  {
    ops != [] && ((ops[0].OpPop? && ReachesLast(r.buffer)) || MeetsLast(Step(r, ops[0]), ops[1..]))
  }

  /** A cursor that has wrapped is initialised for good and never counts back. */
  lemma StepKeepsPosition(r: Run, op: Op)
    requires Accounted(r) && r.buffer.initialized
    ensures Step(r, op).buffer.initialized && Step(r, op).position >= r.position
  {
    match op {
      case OpAudio(s, ts, g, p, at) => InsertKeepsPosition(r, s, InsertAudio(r.buffer, r.stats, s, ts, g, p, at));
      case OpControl(s, g, at) => InsertKeepsPosition(r, s, InsertControl(r.buffer, r.stats, s, g, at));
      case OpPop(now) =>
        PopKeepsInitialized(r.buffer, r.stats, now);
        assert Step(r, op) == AfterPop(r, Pop(r.buffer, r.stats, now), ControlRun(r.buffer));
    }
  }

  lemma InsertKeepsPosition(r: Run, sequence: u32, i: Inserted)
    requires r.buffer.initialized && i.buffer.initialized
    ensures AfterInsert(r, sequence, i).buffer.initialized && AfterInsert(r, sequence, i).position >= r.position
  {
  }

  lemma {:induction false} PositionGrows(r: Run, ops: seq<Op>)
    requires Accounted(r) && r.buffer.initialized
    ensures Steps(r, ops).position >= r.position
    decreases |ops|
  {
    if ops != [] {
      StepAccounted(r, ops[0]);
      StepKeepsPosition(r, ops[0]);
      PositionGrows(Step(r, ops[0]), ops[1..]);
    }
  }

  /** Exactly when the cursor of a run wraps: when some playout of it consumes the last sequence number. */
  lemma {:induction false} RunWrapsIff(r: Run, ops: seq<Op>)
    requires Accounted(r) && r.position < TWO_32
    ensures Steps(r, ops).position >= TWO_32 <==> MeetsLast(r, ops)
    decreases |ops|
  {
    if ops != [] {
      var next := Step(r, ops[0]);
      StepAccounted(r, ops[0]);
      if ops[0].OpPop? {
        PopReachesIff(r, ops[0].now);
      } else {
        InsertReaches(r, ops[0]);
      }
      if next.position < TWO_32 {
        RunWrapsIff(next, ops[1..]);
      } else {
        StepKeepsPosition(r, ops[0]);
        PositionGrows(next, ops[1..]);
      }
    }
  }

  lemma UnwrappedIncreases(r: Run, ops: seq<Op>, i: nat, j: nat)
    requires Accounted(r) && Steps(r, ops).position <= TWO_32
    requires i < j < |Steps(r, ops).emitted|
    ensures Steps(r, ops).emitted[i].sequence < Steps(r, ops).emitted[j].sequence
  {
    RunAccounted(r, ops);
    var n := Steps(r, ops);
    PlacedSequences(n.base, n.position, n.emitted, n.places, i, j);
  }

  /** A run that starts with any buffer in its window, an empty one included, is accounted for and has not wrapped. */
  lemma FreshAccounted(b: Buffer, st: Stats)
    requires InWindow(b)
    ensures Accounted(Fresh(b, st)) && Fresh(b, st).position < TWO_32
  {
  }

  /**
   Played and concealed sequences strictly increase over every run, fresh or in progress,
   in which no playout consumes the last sequence number.
   */
  lemma EmittedStrictlyIncrease(r: Run, ops: seq<Op>, i: nat, j: nat)
    requires Accounted(r) && r.position < TWO_32 && !MeetsLast(r, ops)
    requires i < j < |Steps(r, ops).emitted|
    ensures Steps(r, ops).emitted[i].sequence < Steps(r, ops).emitted[j].sequence
  {
    RunWrapsIff(r, ops);
    UnwrappedIncreases(r, ops, i, j);
  }

  /** The inputs alone: the last sequence number is neither held at the start nor ever inserted. */
  predicate WithoutLast(b: Buffer, ops: seq<Op>) {
    U32_MAX !in b.slots && forall op :: op in ops && Inserts(op) ==> op.sequence != U32_MAX
  }

  lemma StepWithoutLast(r: Run, op: Op)
    requires InWindow(r.buffer) && U32_MAX !in r.buffer.slots && (Inserts(op) ==> op.sequence != U32_MAX)
    ensures U32_MAX !in Step(r, op).buffer.slots
  {
    match op {
      case OpAudio(s, ts, g, p, at) => ReserveHolds(r.buffer, r.stats, s, Held(AudioSlot, ts, g, at, p));
      case OpControl(s, g, at) => ReserveHolds(r.buffer, r.stats, s, Held(ControlSlot, 0, g, at, []));
      case OpPop(now) => PopKeepsWindow(r.buffer, r.stats, now);
    }
  }

  lemma ReserveHolds(b: Buffer, st: Stats, sequence: u32, held: Held)
    ensures forall s :: s in Reserve(b, st, sequence, held).buffer.slots ==> s == sequence || s in b.slots
  {
  }

  lemma {:induction false} WithoutLastNeverMeets(r: Run, ops: seq<Op>)
    requires Accounted(r) && WithoutLast(r.buffer, ops)
    ensures !MeetsLast(r, ops)
    decreases |ops|
  {
    if ops != [] {
      StepAccounted(r, ops[0]);
      StepWithoutLast(r, ops[0]);
      WithoutLastNeverMeets(Step(r, ops[0]), ops[1..]);
    }
  }

  /** In particular over every run whose packets stay below sequence 2^32-1. */
  lemma BelowLastIncreases(r: Run, ops: seq<Op>, i: nat, j: nat)
    requires Accounted(r) && r.position < TWO_32 && WithoutLast(r.buffer, ops)
    requires i < j < |Steps(r, ops).emitted|
    ensures Steps(r, ops).emitted[i].sequence < Steps(r, ops).emitted[j].sequence
  {
    WithoutLastNeverMeets(r, ops);
    EmittedStrictlyIncrease(r, ops, i, j);
  }

  /** Beyond it they need not: the last sequence number is played, and sequence 0 after it. */
  lemma WrappedRunPlaysBackwards(st: Stats)
    ensures var ops := [OpAudio(U32_MAX, 0, 1, [0], 0), OpPop(0), OpAudio(0, 960, 1, [0], 0), OpPop(0)];
            var r := Steps(Fresh(Empty(1), st), ops);
            MeetsLast(Fresh(Empty(1), st), ops) && |r.emitted| == 2 && r.emitted[0].sequence == U32_MAX && r.emitted[1].sequence == 0
  {
    var ops := [OpAudio(U32_MAX, 0, 1, [0], 0), OpPop(0), OpAudio(0, 960, 1, [0], 0), OpPop(0)];
    assert ops[1..] == [OpPop(0), OpAudio(0, 960, 1, [0], 0), OpPop(0)];
    assert ops[1..][1..] == [OpAudio(0, 960, 1, [0], 0), OpPop(0)];
    assert ops[1..][1..][1..] == [OpPop(0)];
    var r0 := Fresh(Empty(1), st);
    var r1 := Step(r0, ops[0]);
    var r2 := Step(r1, ops[1]);
    var r3 := Step(r2, ops[2]);
    assert r1.buffer == Buffer(1, true, U32_MAX, map[U32_MAX := Held(AudioSlot, 0, 1, 0, [0])]);
    assert r2.buffer.slots == map[] && r2.buffer.expected == 0 && r2.buffer.initialized && r2.buffer.generation == 1;
    assert r3.buffer == Buffer(1, true, 0, map[0 := Held(AudioSlot, 960, 1, 0, [0])]);
    assert Steps(r3, [OpPop(0)]) == Steps(Step(r3, OpPop(0)), []) == Step(r3, OpPop(0));
    assert Steps(r0, ops) == Steps(r1, ops[1..]) == Steps(r2, ops[1..][1..]) == Steps(r3, [OpPop(0)]);
  }

  // ---- What a playout must give out ----------------------------------------------------------------

  /** n control packets stand at the cursor, and what follows them is not one. */
  ghost predicate ControlsAtCursor(b: Buffer, n: nat) {
    && ControlSpan(b, b.expected, b.expected + n) && b.expected + n <= TWO_32
    && !(b.expected + n in b.slots && b.slots[b.expected + n].kind.ControlSlot?)
  }

  /** A later packet than c is held, and the lowest of them has waited at least 120 ms. */
  ghost predicate LaterHasWaited(b: Buffer, c: nat, now: int) {
    exists s :: s in b.slots && s > c && (forall x :: x in b.slots && x > c ==> s <= x) && now - b.slots[s].arrived >= 120_000
  }

  /** The number of control packets passed is the one that stands at the cursor. */
  lemma {:induction false} ControlsPassed(b: Buffer, n: nat)
    requires InWindow(b) && ControlsAtCursor(b, n)
    ensures ControlRun(b) == n
    decreases n
  {
    if n > 0 {
      assert b.expected in b.slots && b.slots[b.expected].kind.ControlSlot?;
      ConsumeKeepsWindow(b);
      RestAtCursor(b, n);
      ControlsPassed(Consume(b), n - 1);
    }
  }

  lemma RestAtCursor(b: Buffer, n: nat)
    requires InWindow(b) && ControlsAtCursor(b, n) && n > 0 && b.expected in b.slots
    ensures ControlsAtCursor(Consume(b), n - 1)
  {
    var rest := Consume(b);
    if b.expected == U32_MAX {
      assert rest.slots == map[];
    } else {
      forall s: u32 | rest.expected <= s < rest.expected + (n - 1)
        ensures s in rest.slots && rest.slots[s].kind.ControlSlot?
      {
        assert s in b.slots;
      }
    }
  }

  /** The kind of frame called for when playout stands at c. */
  ghost predicate Called(b: Buffer, c: nat, now: int, kind: PlayoutKind) {
    && (kind.AudioFrame? <==> c in b.slots)
    && (kind.PlcFrame? <==> c !in b.slots && LaterHasWaited(b, c, now))
    && (kind.NoFrame? <==> c !in b.slots && !LaterHasWaited(b, c, now))
  }

  /**
   Exactly what a playout gives out: with c the sequence behind the control packets at the
   cursor, the audio at c if it is held; else concealment if a later packet has waited long
   enough; else nothing.
   */
  lemma PopDecides(b: Buffer, st: Stats, now: int, n: nat)
    requires InWindow(b) && b.initialized && ControlsAtCursor(b, n)
    ensures Called(b, b.expected + n, now, Pop(b, st, now).frame.kind)
  {
    AfterControls(b, n);
    PopAtDecides(b, SkipControls(b), b.expected + n, st, now);
    assert Pop(b, st, now) == PopAt(SkipControls(b), st, now);
  }

  /** What remains behind the control packets at the cursor. */
  ghost predicate Behind(b: Buffer, rest: Buffer, c: nat) {
    && (c < TWO_32 ==> rest.expected == c)
    && (forall s :: s in rest.slots <==> s in b.slots && s >= c)
    && (forall s :: s in rest.slots ==> rest.slots[s] == b.slots[s])
  }

  lemma AfterControls(b: Buffer, n: nat)
    requires InWindow(b) && ControlsAtCursor(b, n)
    ensures Behind(b, SkipControls(b), b.expected + n)
  {
    ControlsPassed(b, n);
    CursorAfterControls(b);
    ControlRunShape(b);
    SkipControlsKeepsWindow(b);
  }

  lemma CursorAfterControls(b: Buffer)
    ensures b.expected + ControlRun(b) < TWO_32 ==> SkipControls(b).expected == b.expected + ControlRun(b)
  {
    ControlRunAdvances(b, b.expected);
  }

  lemma PopAtDecides(b: Buffer, rest: Buffer, c: nat, st: Stats, now: int)
    requires c <= TWO_32 && Behind(b, rest, c)
    ensures Called(b, c, now, PopAt(rest, st, now).frame.kind)
  {
    if c < TWO_32 {
      assert c in rest.slots <==> c in b.slots;
      WaitingDecides(b, rest, c, now);
    } else {
      assert rest.slots == map[];
      assert HeldLater(rest) == {};
    }
  }

  /** The wait is measured on the lowest later packet, which passing control packets does not touch. */
  lemma WaitingDecides(b: Buffer, rest: Buffer, c: u32, now: int)
    requires Behind(b, rest, c)
    ensures LaterHasWaited(b, c, now) <==> HeldLater(rest) != {} && now - rest.slots[Least(HeldLater(rest))].arrived >= WAIT_US
  {
    if HeldLater(rest) != {} {
      var first := Least(HeldLater(rest));
      assert first in b.slots && first > c;
      forall x | x in b.slots && x > c
        ensures first <= x
      {
        assert x in HeldLater(rest);
      }
    }
    if LaterHasWaited(b, c, now) {
      var s :| s in b.slots && s > c && (forall x :: x in b.slots && x > c ==> s <= x) && now - b.slots[s].arrived >= 120_000;
      assert s in HeldLater(rest);
    }
  }

  /** An uninitialised buffer gives out nothing. */
  lemma PopOfFreshBuffer(b: Buffer, st: Stats, now: int)
    requires !b.initialized
    ensures Pop(b, st, now) == Popped(b, st, NO_FRAME)
  {
  }

  // ---- Counters --------------------------------------------------------------------------------------

  /** The greatest age after a frame that waited so long: rounded down to milliseconds, 0 if time ran backwards. */
  predicate GreatestAge(before: u32, waited: int, after: u32) {
    var ms: int := if waited < 0 then 0 else waited / 1000;
    && after >= before
    && (ms < TWO_32 ==> after >= ms && (after == before || after == ms))
  }

  /** What a playout counts, by the frame it gave out. */
  lemma PopCounts(b: Buffer, st: Stats, now: int)
    ensures var p := Pop(b, st, now);
            && p.stats.played == (if p.frame.kind.AudioFrame? then Wrap32(st.played + 1) else st.played)
            && p.stats.lost == (if p.frame.kind.PlcFrame? then Wrap32(st.lost + 1) else st.lost)
            && p.stats == st.(played := p.stats.played, lost := p.stats.lost, maxMediaAgeMs := p.stats.maxMediaAgeMs)
            && (p.frame.kind.AudioFrame? ==> GreatestAge(st.maxMediaAgeMs, now - p.frame.arrived, p.stats.maxMediaAgeMs))
            && (!p.frame.kind.AudioFrame? ==> p.stats.maxMediaAgeMs == st.maxMediaAgeMs)
  {
  }

  /** So many frames were played and lost since the counters had these values. */
  predicate Tallied(st: Stats, played: nat, lost: nat, audio: nat, plc: nat) {
    st.played == Wrap32(played + audio) && st.lost == Wrap32(lost + plc)
  }

  ghost predicate Counted(r: Run, played: nat, lost: nat) {
    Tallied(r.stats, played, lost, CountKind(r.emitted, AudioFrame), CountKind(r.emitted, PlcFrame))
  }

  lemma InsertCounts(b: Buffer, st: Stats, sequence: u32, held: Held)
    ensures var i := Reserve(b, st, sequence, held); i.stats.played == st.played && i.stats.lost == st.lost
  {
  }

  lemma InsertCounted(r: Run, sequence: u32, i: Inserted, played: nat, lost: nat)
    requires Counted(r, played, lost) && i.stats.played == r.stats.played && i.stats.lost == r.stats.lost
    ensures Counted(AfterInsert(r, sequence, i), played, lost)
  {
  }

  lemma OneMoreTallied(st: Stats, n: Stats, kind: PlayoutKind, played: nat, lost: nat, audio: nat, plc: nat)
    requires Tallied(st, played, lost, audio, plc)
    requires n.played == if kind.AudioFrame? then Wrap32(st.played + 1) else st.played
    requires n.lost == if kind.PlcFrame? then Wrap32(st.lost + 1) else st.lost
    ensures Tallied(n, played, lost, audio + if kind.AudioFrame? then 1 else 0, plc + if kind.PlcFrame? then 1 else 0)
  {
    AdvanceOne(played + audio);
    AdvanceOne(lost + plc);
  }

  lemma CountAfterPop(r: Run, p: Popped, passed: nat, kind: PlayoutKind)
    requires !kind.NoFrame?
    ensures CountKind(AfterPop(r, p, passed).emitted, kind) == CountKind(r.emitted, kind) + if p.frame.kind == kind then 1 else 0
  {
    if !p.frame.kind.NoFrame? {
      CountAppend(r.emitted, p.frame, kind);
    }
  }

  lemma PopCounted(r: Run, p: Popped, passed: nat, played: nat, lost: nat, audio: nat, plc: nat)
    requires audio == CountKind(r.emitted, AudioFrame) + if p.frame.kind.AudioFrame? then 1 else 0
    requires plc == CountKind(r.emitted, PlcFrame) + if p.frame.kind.PlcFrame? then 1 else 0
    requires Tallied(p.stats, played, lost, audio, plc)
    ensures Counted(AfterPop(r, p, passed), played, lost)
  {
    CountAfterPop(r, p, passed, AudioFrame);
    CountAfterPop(r, p, passed, PlcFrame);
  }

  lemma PopRunCounted(r: Run, p: Popped, passed: nat, played: nat, lost: nat)
    requires Counted(r, played, lost)
    requires p.stats.played == if p.frame.kind.AudioFrame? then Wrap32(r.stats.played + 1) else r.stats.played
    requires p.stats.lost == if p.frame.kind.PlcFrame? then Wrap32(r.stats.lost + 1) else r.stats.lost
    ensures Counted(AfterPop(r, p, passed), played, lost)
  {
    var audio, plc := CountKind(r.emitted, AudioFrame), CountKind(r.emitted, PlcFrame);
    OneMoreTallied(r.stats, p.stats, p.frame.kind, played, lost, audio, plc);
    PopCounted(r, p, passed, played, lost,
               audio + if p.frame.kind.AudioFrame? then 1 else 0, plc + if p.frame.kind.PlcFrame? then 1 else 0);
  }

  lemma StepCounted(r: Run, op: Op, played: nat, lost: nat)
    requires Counted(r, played, lost)
    ensures Counted(Step(r, op), played, lost)
  {
    match op {
      case OpAudio(s, ts, g, p, at) =>
        InsertCounts(r.buffer, r.stats, s, Held(AudioSlot, ts, g, at, p));
        InsertCounted(r, s, InsertAudio(r.buffer, r.stats, s, ts, g, p, at), played, lost);
      case OpControl(s, g, at) =>
        InsertCounts(r.buffer, r.stats, s, Held(ControlSlot, 0, g, at, []));
        InsertCounted(r, s, InsertControl(r.buffer, r.stats, s, g, at), played, lost);
      case OpPop(now) =>
        PopCounts(r.buffer, r.stats, now);
        PopRunCounted(r, Pop(r.buffer, r.stats, now), if r.buffer.initialized then ControlRun(r.buffer) else 0, played, lost);
    }
  }

  /** Over every run the counters are the audio frames and the concealments given out, modulo 2^32. */
  lemma {:induction false} RunCounted(r: Run, ops: seq<Op>, played: nat, lost: nat)
    requires Counted(r, played, lost)
    ensures Counted(Steps(r, ops), played, lost)
    decreases |ops|
  {
    if ops != [] {
      StepCounted(r, ops[0], played, lost);
      RunCounted(Step(r, ops[0]), ops[1..], played, lost);
    }
  }

  // ---- What an insertion must do ---------------------------------------------------------------------

  /**
   Exactly what an insertion of the buffer's generation does.  With c the cursor, or the packet's
   own sequence when there is none yet: behind c it is late; held already it is a duplicate; within
   four of c it is held beside the others; further ahead it is held alone and the cursor jumps to it.
   */
  lemma ReserveDecides(b: Buffer, st: Stats, sequence: u32, held: Held)
    requires InWindow(b) && held.generation == b.generation
    ensures var c := if b.initialized then b.expected else sequence;
            var i := Reserve(b, st, sequence, held);
            && i.buffer.initialized && i.buffer.generation == b.generation
            && (sequence < c ==>
                  i.result.Late? && i.buffer == b && i.stats == st.(late := Wrap32(st.late + 1)))
            && (c <= sequence < c + 4 && sequence in b.slots ==> i.result.Duplicate? && i.buffer == b && i.stats == st)
            && (c <= sequence < c + 4 && sequence !in b.slots ==>
                  i.result.Accepted? && i.buffer.expected == c && i.buffer.slots == b.slots[sequence := held] && i.stats == st)
            && (sequence >= c + 4 ==>
                  && i.result.Accepted? && i.buffer.expected == sequence && i.buffer.slots == map[sequence := held]
                  && i.stats == st.(resyncTotal := Wrap32(st.resyncTotal + 1), skippedTotal := Wrap32(st.skippedTotal + (sequence - c))))
  {
    ReserveKeepsWindow(b, st, sequence, held);
  }

  /** A packet of another generation is refused and changes nothing. */
  lemma ReserveRefuses(b: Buffer, st: Stats, sequence: u32, held: Held)
    requires held.generation != b.generation
    ensures Reserve(b, st, sequence, held) == Inserted(b, st, OutOfWindow)
  {
  }

  /** Audio is inserted exactly with a payload of 1 to 1200 bytes. */
  lemma InsertAudioDecides(b: Buffer, st: Stats, sequence: u32, timestamp: u32, generation: u32, payload: seq<u8>, arrived: int)
    ensures InsertAudio(b, st, sequence, timestamp, generation, payload, arrived) ==
            if 1 <= |payload| <= 1200 then Reserve(b, st, sequence, Held(AudioSlot, timestamp, generation, arrived, payload))
            else Inserted(b, st, OutOfWindow)
  {
  }
}
