/**
 WebSocket callback fragments (transport_wss/wss_owner.cc): a bounded queue that coalesces
 adjacent fragments, and the assembler that rebuilds frames from them.
 */
module WssFragments {
  import opened Machine

  type Bytes = seq<u8>

  const MAX_CONTROL_BYTES := 32768
  const MAX_MEDIA_FRAME_BYTES := 32 + MAX_PAYLOAD_BYTES
  const MAX_FRAGMENT_BYTES := 2048
  const MAX_EVENTS := 18
  const MAX_QUEUED_BYTES := 65536

  datatype Kind = Connected | Disconnected | Text | Binary | Error

  datatype Event = Event(kind: Kind, data: Bytes, offset: nat, total: nat)

  function MaximumPayload(k: Kind): nat {
    match k case Text => MAX_CONTROL_BYTES case Binary => MAX_MEDIA_FRAME_BYTES case _ => 0
  }

  predicate CarriesData(e: Event) {
    e.kind.Text? || e.kind.Binary?
  }

  /** The checks on a single event before it may enter a queue with this slot size. */
  predicate Admissible(e: Event, slotCapacity: nat) {
    if CarriesData(e) then
      && 0 < |e.data| && 0 < e.total <= MaximumPayload(e.kind)
      && e.offset <= e.total && |e.data| <= e.total - e.offset && |e.data| <= slotCapacity
    else |e.data| == 0 && e.offset == 0 && e.total == 0
  }

  /** The second fragment continues the first. */
  predicate Continues(a: Event, b: Event) {
    a.kind == b.kind && a.total == b.total && a.offset + |a.data| == b.offset
  }

  function Merge(a: Event, b: Event): Event {
    a.(data := a.data + b.data)
  }

  function Bytes_(items: seq<Event>): nat {
    if items == [] then 0 else Bytes_(items[..|items| - 1]) + |items[|items| - 1].data|
  }

  // ---- Frame assembly ------------------------------------------------------------------------

  datatype Assembly = Assembly(kind: Kind, expected: nat, buffer: Bytes)

  const EMPTY := Assembly(Error, 0, [])

  datatype Assembled = Incomplete | Complete(frame: Bytes) | Rejected

  function Fits(e: Event): bool {
    && MaximumPayload(e.kind) > 0 && e.total <= MaximumPayload(e.kind)
    && 0 < |e.data| <= MAX_FRAGMENT_BYTES && e.offset + |e.data| <= e.total
  }

  function Consume(a: Assembly, e: Event): (Assembly, Assembled) {
    if !Fits(e) then (EMPTY, Rejected)
    else
      var s := if e.offset == 0 then Assembly(e.kind, e.total, []) else a;
      if s.kind != e.kind || s.expected != e.total || e.offset != |s.buffer| then (EMPTY, Rejected)
      else
        var buffer := s.buffer + e.data;
        if |buffer| == s.expected then (EMPTY, Complete(buffer)) else (s.(buffer := buffer), Incomplete)
  }

  /**
   Consuming two adjacent fragments one by one and consuming them merged complete the same
   frame and leave the same assembly; the merged event is rejected exactly when the first is.
   */
  lemma MergeInvisible(a: Assembly, x: Event, y: Event)
    requires CarriesData(x) && CarriesData(y) && Continues(x, y)
    requires Admissible(x, MAX_FRAGMENT_BYTES) && Admissible(y, MAX_FRAGMENT_BYTES) && |x.data| + |y.data| <= MAX_FRAGMENT_BYTES
    ensures var (b, first) := Consume(a, x);
            var (c, second) := Consume(b, y);
            !first.Complete? && Consume(a, Merge(x, y)) == (c, second) && (first.Rejected? <==> second.Rejected?)
  {
    var s := if x.offset == 0 then Assembly(x.kind, x.total, []) else a;
    assert s.buffer + (x.data + y.data) == s.buffer + x.data + y.data;
  }

  /**
   Exactly what a fragment does to the frame being assembled: a first fragment starts afresh; one that
   goes on where the bytes received stop is appended; the last one completes the frame; any other is
   rejected, and the partial frame with it.
   */
  lemma ConsumeDecides(a: Assembly, e: Event)
    ensures var (n, r) := Consume(a, e);
            var whole := (e.kind.Text? && e.total <= 32768) || (e.kind.Binary? && e.total <= 1232);
            var fits := whole && 0 < |e.data| <= 2048 && e.offset + |e.data| <= e.total;
            var follows := e.offset == 0 || (a.kind == e.kind && a.expected == e.total && |a.buffer| == e.offset);
            var bytes := if e.offset == 0 then e.data else a.buffer + e.data;
            && (r.Rejected? <==> !fits || !follows)
            && (fits && follows ==> r == if e.offset + |e.data| == e.total then Complete(bytes) else Incomplete)
            && n == (if r.Incomplete? then Assembly(e.kind, e.total, bytes) else EMPTY)
  {
    if e.offset == 0 {
      assert [] + e.data == e.data;
    }
  }

  /** The supervisor stops at a disconnect, an error or a rejected fragment, and at nothing else. */
  lemma HandleDecides(s: Supervisor, e: Event)
    requires s.running
    ensures var n := Handle(s, e); var data := e.kind.Text? || e.kind.Binary?;
            && (n.running <==> e.kind.Connected? || (data && !Consume(s.assembly, e).1.Rejected?))
            && (!data ==> n.delivered == s.delivered + [Signal(e.kind)] && n.assembly == s.assembly)
            && (data ==> n.assembly == Consume(s.assembly, e).0)
            && (data && Consume(s.assembly, e).1.Complete? ==> n.delivered == s.delivered + [Frame(e.kind, Consume(s.assembly, e).1.frame)])
            && (data && Consume(s.assembly, e).1.Incomplete? ==> n.delivered == s.delivered)
  {
  }

  /** The fragments of one frame, cut anywhere, rebuild exactly that frame. */
  function Cut(kind: Kind, pieces: seq<Bytes>, offset: nat, total: nat): (r: seq<Event>)
    ensures |r| == |pieces|
    decreases |pieces|
  {
    if pieces == [] then []
    else [Event(kind, pieces[0], offset, total)] + Cut(kind, pieces[1..], offset + |pieces[0]|, total)
  }

  // ---- The supervisor that drains the queue ----------------------------------------------------

  datatype Delivery = Signal(kind: Kind) | Frame(kind: Kind, bytes: Bytes) | Failure

  /** The supervisor stops at a disconnect, an error or the first rejected fragment. */
  datatype Supervisor = Supervisor(assembly: Assembly, running: bool, delivered: seq<Delivery>)

  const IDLE := Supervisor(EMPTY, true, [])

  function Handle(s: Supervisor, e: Event): Supervisor {
    if !s.running then s
    else if e.kind.Connected? then s.(delivered := s.delivered + [Signal(e.kind)])
    else if !CarriesData(e) then s.(running := false, delivered := s.delivered + [Signal(e.kind)])
    else
      var (a, r) := Consume(s.assembly, e);
      match r
      case Incomplete => s.(assembly := a)
      case Complete(f) => s.(assembly := a, delivered := s.delivered + [Frame(e.kind, f)])
      case Rejected => s.(assembly := a, running := false, delivered := s.delivered + [Failure])
  }

  function HandleAll(s: Supervisor, events: seq<Event>): Supervisor {
    if events == [] then s else Handle(HandleAll(s, events[..|events| - 1]), events[|events| - 1])
  }

  lemma HandleMerged(s: Supervisor, x: Event, y: Event)
    requires CarriesData(x) && CarriesData(y) && Continues(x, y)
    requires Admissible(x, MAX_FRAGMENT_BYTES) && Admissible(y, MAX_FRAGMENT_BYTES) && |x.data| + |y.data| <= MAX_FRAGMENT_BYTES
    ensures Handle(s, Merge(x, y)) == Handle(Handle(s, x), y)
  {
    if s.running {
      MergeInvisible(s.assembly, x, y);
    }
  }

  lemma HandleAppend(s: Supervisor, events: seq<Event>, e: Event)
    ensures HandleAll(s, events + [e]) == Handle(HandleAll(s, events), e)
  {
    assert (events + [e])[..|events|] == events;
  }

  lemma {:induction false} HandleJoin(s: Supervisor, a: seq<Event>, b: seq<Event>)
    ensures HandleAll(s, a + b) == HandleAll(HandleAll(s, a), b)
    decreases |b|
  {
    if b == [] {
      assert a + b == a;
    } else {
      var n := |b| - 1;
      assert a + b == (a + b[..n]) + [b[n]];
      HandleAppend(s, a + b[..n], b[n]);
      HandleJoin(s, a, b[..n]);
    }
  }

  lemma {:induction false} DeliveredOnlyGrows(s: Supervisor, events: seq<Event>)
    ensures s.delivered <= HandleAll(s, events).delivered
    decreases |events|
  {
    if events != [] {
      DeliveredOnlyGrows(s, events[..|events| - 1]);
    }
  }

  // ---- The queue -------------------------------------------------------------------------------

  datatype Queue = Queue(capacity: nat, byteCapacity: nat, slotCapacity: nat, items: seq<Event>)

  function Made(capacity: nat, byteCapacity: nat): Queue {
    var c := if capacity < MAX_EVENTS then capacity else MAX_EVENTS;
    var b := if byteCapacity < MAX_QUEUED_BYTES then byteCapacity else MAX_QUEUED_BYTES;
    var each := if c == 0 then 0 else b / c;
    var slot := if MAX_FRAGMENT_BYTES < each then MAX_FRAGMENT_BYTES else each;
    Queue(if slot == 0 then 0 else c, b, slot, [])
  }

  datatype Offer = Dropped | Merged | Queued

  predicate Coalesces(q: Queue, e: Event) {
    && CarriesData(e) && q.items != []
    && Continues(q.items[|q.items| - 1], e)
    && |e.data| + |q.items[|q.items| - 1].data| <= q.slotCapacity
  }

  function OfferOf(q: Queue, e: Event): Offer {
    if !Admissible(e, q.slotCapacity) then Dropped
    else if q.capacity == 0 || Bytes_(q.items) + |e.data| > q.byteCapacity then Dropped
    else if Coalesces(q, e) then Merged
    else if |q.items| >= q.capacity then Dropped
    else Queued
  }

  function AfterOffer(q: Queue, e: Event): Queue {
    match OfferOf(q, e)
    case Dropped => q
    case Merged => var n := |q.items| - 1; q.(items := q.items[..n] + [Merge(q.items[n], e)])
    case Queued => q.(items := q.items + [e])
  }

  ghost predicate Sound(q: Queue) {
    && q.slotCapacity <= MAX_FRAGMENT_BYTES && |q.items| <= q.capacity
    && Bytes_(q.items) <= q.byteCapacity
    && forall i :: 0 <= i < |q.items| ==> Admissible(q.items[i], q.slotCapacity)
  }

  lemma BytesAppend(items: seq<Event>, e: Event)
    ensures Bytes_(items + [e]) == Bytes_(items) + |e.data|
  {
    assert (items + [e])[..|items|] == items;
  }

  lemma {:induction false} BytesDropFirst(items: seq<Event>)
    requires items != []
    ensures Bytes_(items) == |items[0].data| + Bytes_(items[1..])
    decreases |items|
  {
    var n := |items| - 1;
    if n > 0 {
      BytesDropFirst(items[..n]);
      assert items[..n][1..] == items[1..][..n - 1];
    }
  }

  lemma MergeAdmissible(x: Event, y: Event, slotCapacity: nat)
    requires CarriesData(x) && Continues(x, y) && Admissible(x, slotCapacity) && Admissible(y, slotCapacity)
    requires |x.data| + |y.data| <= slotCapacity
    ensures Admissible(Merge(x, y), slotCapacity)
  {
  }

  lemma OfferSound(q: Queue, e: Event)
    requires Sound(q)
    ensures Sound(AfterOffer(q, e))
    ensures Bytes_(AfterOffer(q, e).items) == Bytes_(q.items) + if OfferOf(q, e).Dropped? then 0 else |e.data|
  {
    match OfferOf(q, e) {
      case Dropped =>
      case Queued => BytesAppend(q.items, e);
      case Merged =>
        var n := |q.items| - 1;
        MergeAdmissible(q.items[n], e, q.slotCapacity);
        BytesAppend(q.items[..n], Merge(q.items[n], e));
    }
  }

  // ---- What an offer must be answered --------------------------------------------------------------

  /** A signal without data, or a non-empty fragment of a frame that is not too long and fits a slot. */
  predicate WellFormed(e: Event, slotCapacity: nat) {
    if e.kind.Text? || e.kind.Binary? then
      && 0 < |e.data| <= slotCapacity && e.offset + |e.data| <= e.total
      && e.total <= if e.kind.Text? then 32768 else 1232
    else e.data == [] && e.offset == 0 && e.total == 0
  }

  /** The fragment goes on where the newest queued one of the same frame stops, and both fit one slot. */
  predicate Extends(q: Queue, e: Event) {
    && (e.kind.Text? || e.kind.Binary?) && q.items != []
    && var last := q.items[|q.items| - 1];
       last.kind == e.kind && last.total == e.total && last.offset + |last.data| == e.offset && |last.data| + |e.data| <= q.slotCapacity
  }

  /** The bytes queued, counted over the events. */
  function QueuedBytes(items: seq<Event>): nat {
    if items == [] then 0 else |items[0].data| + QueuedBytes(items[1..])
  }

  lemma {:induction false} BytesAreQueued(items: seq<Event>)
    ensures Bytes_(items) == QueuedBytes(items)
    decreases |items|
  {
    if items != [] {
      BytesDropFirst(items);
      BytesAreQueued(items[1..]);
    }
  }

  /**
   Exactly when an event is accepted: it is well formed, its bytes still fit, and it extends the
   newest slot or a slot is free; and what becomes of it.
   */
  lemma OfferDecides(q: Queue, e: Event)
    requires Sound(q) && q.capacity > 0
    ensures var n := AfterOffer(q, e);
            var room := WellFormed(e, q.slotCapacity) && QueuedBytes(q.items) + |e.data| <= q.byteCapacity;
            && (OfferOf(q, e).Dropped? <==> !room || (!Extends(q, e) && |q.items| >= q.capacity))
            && (OfferOf(q, e).Merged? <==> room && Extends(q, e))
            && (OfferOf(q, e).Dropped? ==> n == q)
            && (OfferOf(q, e).Queued? ==> n == q.(items := q.items + [e]))
            && (OfferOf(q, e).Merged? ==>
                  var last := q.items[|q.items| - 1];
                  n == q.(items := q.items[..|q.items| - 1] + [last.(data := last.data + e.data)]))
  {
    BytesAreQueued(q.items);
  }

  /** Each of the slots gets the greatest size up to 2048 for which there are bytes. */
  predicate SharedOut(slot: nat, slots: nat, bytes: nat) {
    && 0 < slot <= 2048 && slot * slots <= bytes
    && (slot == 2048 || (slot + 1) * slots > bytes)
  }

  /** A queue of up to 18 slots shares up to 65536 bytes among them, 2048 each at most; without a byte each it has no slots. */
  lemma MadeOf(capacity: nat, byteCapacity: nat)
    ensures var q := Made(capacity, byteCapacity);
            && Sound(q) && q.items == []
            && q.byteCapacity == (if byteCapacity <= 65536 then byteCapacity else 65536)
            && (0 < capacity <= 18 && byteCapacity >= capacity ==> q.capacity == capacity && SharedOut(q.slotCapacity, capacity, q.byteCapacity))
            && (capacity == 0 || byteCapacity == 0 ==> q.capacity == 0)
            && (capacity > 18 ==> q == Made(18, byteCapacity))
  {
    if 0 < capacity <= 18 && byteCapacity >= capacity {
      var b := if byteCapacity <= 65536 then byteCapacity else 65536;
      var each := b / capacity;
      ShareOfBytes(b, capacity, each);
      if each > 2048 {
        ScaleShare(2048, each, capacity);
      }
    }
  }

  lemma ShareOfBytes(bytes: nat, slots: nat, each: nat)
    requires 0 < slots <= bytes && each == bytes / slots
    ensures 0 < each && each * slots <= bytes < (each + 1) * slots
  {
    assert bytes == slots * each + bytes % slots;
    assert (each + 1) * slots == slots * each + slots;
  }

  lemma ScaleShare(a: nat, b: nat, m: nat)
    requires a <= b
    ensures a * m <= b * m
  {
  }

  // ---- Runs: pushes by the callback interleaved with pops by the supervisor ----------------------

  datatype Op = Push(event: Event) | Pop

  /** `raw` lists the accepted fragments as they were offered. */
  datatype Run = Run(queue: Queue, supervisor: Supervisor, raw: seq<Event>)

  function Step(r: Run, op: Op): Run {
    match op
    case Push(e) => r.(queue := AfterOffer(r.queue, e), raw := if OfferOf(r.queue, e).Dropped? then r.raw else r.raw + [e])
    case Pop =>
      if r.queue.items == [] then r
      else r.(queue := r.queue.(items := r.queue.items[1..]), supervisor := Handle(r.supervisor, r.queue.items[0]))
  }

  function Steps(r: Run, ops: seq<Op>): Run
    decreases |ops|
  {
    if ops == [] then r else Steps(Step(r, ops[0]), ops[1..])
  }

  /** What the supervisor will have done once it drains the queue is what the raw fragments call for. */
  ghost predicate Faithful(r: Run) {
    && Sound(r.queue)
    && HandleAll(r.supervisor, r.queue.items) == HandleAll(IDLE, r.raw)
  }

  lemma PushFaithful(r: Run, e: Event)
    requires Faithful(r)
    ensures Faithful(Step(r, Push(e)))
  {
    OfferSound(r.queue, e);
    var items := r.queue.items;
    match OfferOf(r.queue, e) {
      case Dropped =>
      case Queued =>
        HandleAppend(r.supervisor, items, e);
        HandleAppend(IDLE, r.raw, e);
      case Merged =>
        var n := |items| - 1;
        HandleMerged(HandleAll(r.supervisor, items[..n]), items[n], e);
        HandleAppend(r.supervisor, items[..n], Merge(items[n], e));
        HandleAppend(IDLE, r.raw, e);
    }
  }

  lemma PopFaithful(r: Run)
    requires Faithful(r)
    ensures Faithful(Step(r, Pop))
  {
    if r.queue.items != [] {
      var items := r.queue.items;
      BytesDropFirst(items);
      assert items == [items[0]] + items[1..];
      HandleJoin(r.supervisor, [items[0]], items[1..]);
      HandleAppend(r.supervisor, [], items[0]);
      assert [] + [items[0]] == [items[0]];
    }
  }

  lemma {:induction false} RunFaithful(r: Run, ops: seq<Op>)
    requires Faithful(r)
    ensures Faithful(Steps(r, ops))
    decreases |ops|
  {
    if ops != [] {
      match ops[0] {
        case Push(e) => PushFaithful(r, e);
        case Pop => PopFaithful(r);
      }
      RunFaithful(Step(r, ops[0]), ops[1..]);
    }
  }

  /**
   Coalescing is invisible: in every interleaving of pushes and pops the supervisor has
   delivered a prefix of what the accepted raw fragments deliver one by one, and once the
   queue is drained it has delivered all of it and its assembly is the same.
   */
  lemma CoalescingIsInvisible(capacity: nat, byteCapacity: nat, ops: seq<Op>)
    ensures var r := Steps(Run(Made(capacity, byteCapacity), IDLE, []), ops);
            && r.supervisor.delivered <= HandleAll(IDLE, r.raw).delivered
            && (r.queue.items == [] ==> r.supervisor == HandleAll(IDLE, r.raw))
            && Bytes_(r.queue.items) <= r.queue.byteCapacity <= MAX_QUEUED_BYTES
  {
    var start := Run(Made(capacity, byteCapacity), IDLE, []);
    RunFaithful(start, ops);
    var r := Steps(start, ops);
    DeliveredOnlyGrows(r.supervisor, r.queue.items);
    CapacityKept(start, ops);
  }

  lemma {:induction false} CapacityKept(r: Run, ops: seq<Op>)
    ensures Steps(r, ops).queue.byteCapacity == r.queue.byteCapacity
    decreases |ops|
  {
    if ops != [] {
      CapacityKept(Step(r, ops[0]), ops[1..]);
    }
  }

  function Joined(pieces: seq<Bytes>): Bytes {
    if pieces == [] then [] else pieces[0] + Joined(pieces[1..])
  }

  lemma HandleFirst(s: Supervisor, e: Event, rest: seq<Event>)
    ensures HandleAll(s, [e] + rest) == HandleAll(Handle(s, e), rest)
  {
    HandleJoin(s, [e], rest);
    HandleAppend(s, [], e);
    assert [] + [e] == [e];
  }

  /** A fragment that continues the bytes received so far is appended, and completes the frame at its total. */
  lemma NextPiece(kind: Kind, done: Bytes, piece: Bytes, total: nat, s: Supervisor)
    requires (kind.Text? || kind.Binary?) && s.running && 0 < |piece| <= MAX_FRAGMENT_BYTES
    requires |done| + |piece| <= total <= MaximumPayload(kind)
    requires done != [] ==> s.assembly == Assembly(kind, total, done)
    ensures Handle(s, Event(kind, piece, |done|, total)) ==
            if |done| + |piece| == total then s.(assembly := EMPTY, delivered := s.delivered + [Frame(kind, done + piece)])
            else s.(assembly := Assembly(kind, total, done + piece))
  {
    if done == [] {
      assert done + piece == [] + piece;
    }
  }

  /** The fragments of one frame, cut anywhere into non-empty pieces, rebuild exactly that frame. */
  lemma {:induction false} CutFrameIsRebuilt(kind: Kind, done: Bytes, pieces: seq<Bytes>, s: Supervisor)
    requires (kind.Text? || kind.Binary?) && pieces != [] && s.running
    requires forall i :: 0 <= i < |pieces| ==> 0 < |pieces[i]| <= MAX_FRAGMENT_BYTES
    requires |done| + |Joined(pieces)| <= MaximumPayload(kind)
    requires done != [] ==> s.assembly == Assembly(kind, |done| + |Joined(pieces)|, done)
    ensures HandleAll(s, Cut(kind, pieces, |done|, |done| + |Joined(pieces)|)) ==
            s.(assembly := EMPTY, delivered := s.delivered + [Frame(kind, done + Joined(pieces))])
    decreases |pieces|
  {
    var total := |done| + |Joined(pieces)|;
    var rest := pieces[1..];
    var first := Event(kind, pieces[0], |done|, total);
    JoinedSplit(done, pieces);
    NextPiece(kind, done, pieces[0], total, s);
    HandleFirst(s, first, Cut(kind, rest, |done| + |pieces[0]|, total));
    if rest == [] {
      assert Cut(kind, pieces, |done|, total) == [first];
    } else {
      JoinedPositive(rest);
      CutFrameIsRebuilt(kind, done + pieces[0], rest, Handle(s, first));
      assert total == |done + pieces[0]| + |Joined(rest)|;
    }
  }

  lemma JoinedPositive(pieces: seq<Bytes>)
    requires pieces != [] && |pieces[0]| > 0
    ensures |Joined(pieces)| > 0
  {
  }

  lemma JoinedSplit(done: Bytes, pieces: seq<Bytes>)
    requires pieces != []
    ensures done + Joined(pieces) == done + pieces[0] + Joined(pieces[1..])
    ensures |Joined(pieces)| == |pieces[0]| + |Joined(pieces[1..])|
    ensures |pieces| == 1 ==> Joined(pieces) == pieces[0]
  {
    JoinAssociates(done, pieces[0], Joined(pieces[1..]));
  }

  lemma JoinAssociates(a: Bytes, b: Bytes, c: Bytes)
    ensures a + (b + c) == a + b + c && b + [] == b
  {
  }
}
