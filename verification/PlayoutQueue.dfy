/** The bounded playout queue between the receive task and the playback task (transport_udp/playout_queue.cc). */
module Playout {
  import opened Machine
  import opened Jitter
  import opened Rings

  const CAPACITY := 4
  /** The age at which the runtime's poll discards a frame. */
  const MAXIMUM_MEDIA_AGE_US := 360000

  datatype Queue = Queue(open: bool, generation: u32, items: seq<PlayoutFrame>)

  datatype PushResult = Pushed | ReplacedOldest | Closed | Stale

  datatype Polled = Polled(queue: Queue, frame: Option<PlayoutFrame>, expired: nat)

  const CLOSED := Queue(false, 0, [])

  function Opened(generation: u32): Queue {
    Queue(generation != 0, generation, [])
  }

  function Advance(q: Queue, generation: u32): Queue {
    if q.open && generation > q.generation then q.(generation := generation, items := []) else q
  }

  function PushResultOf(q: Queue, f: PlayoutFrame): PushResult {
    if !q.open then Closed
    else if f.generation != q.generation then Stale
    else if |q.items| == CAPACITY then ReplacedOldest
    else Pushed
  }

  function AfterPush(q: Queue, f: PlayoutFrame): Queue {
    match PushResultOf(q, f)
    case Pushed => q.(items := q.items + [f])
    case ReplacedOldest => q.(items := q.items[1..] + [f])
    case _ => q
  }

  predicate Expired(f: PlayoutFrame, now: int, maximumAge: int) {
    maximumAge > 0 && now - f.arrived > maximumAge
  }

  /** Frames that a poll discards: another generation, or too old. */
  predicate Discarded(q: Queue, f: PlayoutFrame, now: int, maximumAge: int) {
    f.generation != q.generation || Expired(f, now, maximumAge)
  }

  /** Number of leading frames a poll discards. */
  function Leading(q: Queue, now: int, maximumAge: int): (n: nat)
    ensures n <= |q.items|
    ensures forall i :: 0 <= i < n ==> Discarded(q, q.items[i], now, maximumAge)
    ensures n < |q.items| ==> !Discarded(q, q.items[n], now, maximumAge)
    decreases |q.items|
  {
    if q.items == [] || !Discarded(q, q.items[0], now, maximumAge) then 0
    else 1 + Leading(q.(items := q.items[1..]), now, maximumAge)
  }

  /** How many of these frames are of the generation and expired. */
  function ExpiredAmong(generation: u32, fs: seq<PlayoutFrame>, now: int, maximumAge: int): nat {
    if fs == [] then 0
    else
      (if fs[0].generation == generation && Expired(fs[0], now, maximumAge) then 1 else 0)
      + ExpiredAmong(generation, fs[1..], now, maximumAge)
  }

  /** A poll gives out the first frame that is fresh and of the queue's generation. */
  function FreshPoll(q: Queue, now: int, maximumAge: int): Polled {
    if !q.open then Polled(q, None, 0)
    else
      var n := Leading(q, now, maximumAge);
      var expired := ExpiredAmong(q.generation, q.items[..n], now, maximumAge);
      if n == |q.items| then Polled(q.(items := []), None, expired)
      else Polled(q.(items := q.items[n + 1..]), Some(q.items[n]), expired)
  }

  /** A poll of a non-empty queue looks at the head frame first. */
  lemma PollHead(q: Queue, now: int, maximumAge: int)
    requires q.open && q.items != []
    ensures var head, rest := q.items[0], q.(items := q.items[1..]);
            FreshPoll(q, now, maximumAge) ==
            if !Discarded(q, head, now, maximumAge) then Polled(rest, Some(head), 0)
            else
              var p := FreshPoll(rest, now, maximumAge);
              p.(expired := p.expired + if head.generation == q.generation then 1 else 0)
  {
    var head, rest := q.items[0], q.(items := q.items[1..]);
    if Discarded(q, head, now, maximumAge) {
      var n := Leading(rest, now, maximumAge);
      assert Leading(q, now, maximumAge) == n + 1;
      assert q.items[..n + 1][1..] == rest.items[..n];
      assert n < |rest.items| ==> rest.items[n + 1..] == q.items[n + 2..];
    }
  }

  /** A closed queue is empty; an open one holds at most four frames, all of its own generation. */
  ghost predicate Sound(q: Queue) {
    && |q.items| <= CAPACITY
    && (!q.open ==> q.items == [])
    && forall f :: f in q.items ==> f.generation == q.generation
  }

  // ---- What a poll and a push must do ----------------------------------------------------------------

  /** The frame has been held longer than the age allowed; 0 allows any. */
  predicate TooOld(f: PlayoutFrame, now: int, maximumAge: int) {
    0 < maximumAge < now - f.arrived
  }

  /** A poll gives out the first queued frame that is not too old, drops those before it and keeps those behind it. */
  lemma PollWithin(q: Queue, now: int, maximumAge: int)
    requires Sound(q)
    ensures var p := FreshPoll(q, now, maximumAge);
            && p.queue.open == q.open && p.queue.generation == q.generation
            && (p.frame.None? <==> forall i :: 0 <= i < |q.items| ==> TooOld(q.items[i], now, maximumAge))
            && (p.frame.None? ==> p.queue.items == [] && p.expired == |q.items|)
            && (forall k :: 0 <= k < |q.items| && !TooOld(q.items[k], now, maximumAge)
                            && (forall i :: 0 <= i < k ==> TooOld(q.items[i], now, maximumAge)) ==>
                  p.frame == Some(q.items[k]) && p.queue.items == q.items[k + 1..] && p.expired == k)
  {
    if q.open {
      var n := Leading(q, now, maximumAge);
      forall i | 0 <= i < |q.items|
        ensures Discarded(q, q.items[i], now, maximumAge) <==> TooOld(q.items[i], now, maximumAge)
      {
        assert q.items[i] in q.items;
      }
      AllExpired(q.generation, q.items[..n], now, maximumAge);
      assert n == |q.items| ==> q.items[..n] == q.items;
    }
  }

  /** The runtime's poll: the first queued frame that is at most 360 ms old. */
  lemma PollDecides(q: Queue, now: int)
    requires Sound(q)
    ensures var p := FreshPoll(q, now, MAXIMUM_MEDIA_AGE_US);
            && (p.frame.None? <==> forall i :: 0 <= i < |q.items| ==> now - q.items[i].arrived > 360_000)
            && (forall k :: 0 <= k < |q.items| && now - q.items[k].arrived <= 360_000
                            && (forall i :: 0 <= i < k ==> now - q.items[i].arrived > 360_000) ==>
                  p.frame == Some(q.items[k]) && p.queue.items == q.items[k + 1..] && p.expired == k)
  {
    PollWithin(q, now, MAXIMUM_MEDIA_AGE_US);
  }

  lemma {:induction false} AllExpired(g: u32, fs: seq<PlayoutFrame>, now: int, maximumAge: int)
    requires forall i :: 0 <= i < |fs| ==> fs[i].generation == g && Expired(fs[i], now, maximumAge)
    ensures ExpiredAmong(g, fs, now, maximumAge) == |fs|
  {
    if fs != [] {
      AllExpired(g, fs[1..], now, maximumAge);
    }
  }

  /** An open queue keeps the newest four frames of its generation; anything else changes nothing. */
  lemma PushDecides(q: Queue, f: PlayoutFrame)
    requires Sound(q)
    ensures var n, all := AfterPush(q, f), q.items + [f];
            && (q.open && f.generation == q.generation ==>
                  n == q.(items := if |all| <= 4 then all else all[|all| - 4..]))
            && (!q.open || f.generation != q.generation ==> n == q)
            && (PushResultOf(q, f).ReplacedOldest? <==> q.open && f.generation == q.generation && |q.items| == 4)
  {
  }

  /** A queue opens empty for every generation but 0; moving to a strictly newer one empties it; otherwise nothing changes. */
  lemma GenerationDecides(q: Queue, g: u32)
    ensures Opened(g).items == [] && Opened(g).generation == g && (Opened(g).open <==> g > 0)
    ensures Advance(q, g) == if q.open && g > q.generation then Queue(true, g, []) else q
    ensures !CLOSED.open && CLOSED.items == []
  {
  }

  class PlayoutQueue {
    const slots: array<PlayoutFrame>
    var head: nat
    var size: nat
    var generation: u32
    var open: bool
    ghost var items: seq<PlayoutFrame>

    ghost predicate Valid()
      reads this, slots
    {
      slots.Length == CAPACITY && size == |items| && Ring(slots[..], head, CAPACITY, items)
    }

    ghost function Model(): Queue
      reads this
    {
      Queue(open, generation, items)
    }

    constructor ()
      ensures Valid() && fresh(slots) && Model() == CLOSED
    {
      slots := new PlayoutFrame[CAPACITY](_ => NO_FRAME);
      head, size, generation, open := 0, 0, 0, false;
      items := [];
    }

    method Clear()
      requires Valid()
      modifies this`head, this`size, this`items, slots
      ensures Valid() && items == []
    {
      for i := 0 to slots.Length
        invariant forall j :: 0 <= j < i ==> slots[j] == NO_FRAME
      {
        slots[i] := NO_FRAME;
      }
      head, size, items := 0, 0, [];
    }

    method Open(generation: u32)
      requires Valid()
      modifies this, slots
      ensures Valid() && Model() == Opened(generation)
    {
      Clear();
      this.generation := generation;
      open := generation != 0;
    }

    method AdvanceGeneration(generation: u32)
      requires Valid()
      modifies this, slots
      ensures Valid() && Model() == Advance(old(Model()), generation)
    {
      if !open || generation <= this.generation {
        return;
      }
      Clear();
      this.generation := generation;
    }

    method Close()
      requires Valid()
      modifies this, slots
      ensures Valid() && Model() == CLOSED
    {
      open := false;
      generation := 0;
      Clear();
    }

    /** Remove the frame at the head of a non-empty queue. */
    method DropHead() returns (f: PlayoutFrame)
      requires Valid() && size > 0
      modifies this`head, this`size, this`items, slots
      ensures Valid() && [f] + items == old(items)
    {
      f := slots[head];
      var next := SlotOf(head, 1, CAPACITY);
      RingDrop(slots[..], head, CAPACITY, items, NO_FRAME);
      Write(slots, head, NO_FRAME);
      head, size := next, size - 1;
      items := items[1..];
    }

    /** Write a frame behind the last one of a queue that is not full. */
    method Append(f: PlayoutFrame)
      requires Valid() && size < CAPACITY
      modifies this`size, this`items, slots
      ensures Valid() && items == old(items) + [f]
    {
      var free := SlotOf(head, size, CAPACITY);
      RingAppend(slots[..], head, CAPACITY, items, f);
      Write(slots, free, f);
      size := size + 1;
      items := items + [f];
    }

    method Push(f: PlayoutFrame) returns (result: PushResult)
      requires Valid()
      modifies this, slots
      ensures Valid()
      ensures result == PushResultOf(old(Model()), f)
      ensures Model() == AfterPush(old(Model()), f)
    {
      if !open {
        return Closed;
      }
      if f.generation != generation {
        return Stale;
      }
      result := Pushed;
      if size == CAPACITY {
        var oldest := DropHead();
        result := ReplacedOldest;
      }
      Append(f);
    }

    /** Size is read under the queue's lock, like every other operation. */
    method PopFresh(now: int, maximumAge: int) returns (frame: Option<PlayoutFrame>, expired: nat)
      requires Valid()
      modifies this, slots
      ensures Valid()
      ensures Polled(Model(), frame, expired) == FreshPoll(old(Model()), now, maximumAge)
    {
      expired := 0;
      while open && size > 0
        invariant Valid() && open == old(open) && generation == old(generation)
        invariant var p := FreshPoll(Model(), now, maximumAge);
                  p.(expired := p.expired + expired) == FreshPoll(old(Model()), now, maximumAge)
        decreases size
      {
        PollHead(Model(), now, maximumAge);
        ghost var before := Model();
        var candidate := DropHead();
        assert before.items[0] == candidate && Model() == before.(items := before.items[1..]);
        if candidate.generation != generation {
          continue;
        }
        if maximumAge > 0 && now >= candidate.arrived && now - candidate.arrived > maximumAge {
          expired := expired + 1;
          continue;
        }
        return Some(candidate), expired;
      }
      frame := None;
    }
  }
}
