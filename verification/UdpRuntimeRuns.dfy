/**
 The UDP runtime (transport_udp/udp_runtime.cc) as interleaved atomic steps of three
 actors: the control task, which holds one lock across its steps; the receive task, which
 pops from the session and then pushes to the queue; and the playback task, which polls.
 A step that its actor cannot take leaves the state alone, so every sequence of steps is
 an interleaving.
 */
module RuntimeRuns {
  import opened Machine
  import opened UdpWire
  import opened Jitter
  import opened SessionModel
  import opened SessionRuns
  import opened Playout

  /** Where the control task is inside a locked operation. */
  datatype Control =
    | Idle
    | Checked(fence: bool, generation: u32)
    | QueueMoved(fence: bool, generation: u32)
    | StopFlagged
    | StopRevoked

  /**
   `popped` lists every frame taken from the session; `polledAt`, `queuedAt` and `heldAt`
   give the places in it of the frames polled, queued and held by the receive task.
   */
  datatype Runtime = Runtime(
    tape: Tape, queue: Queue, stop: bool, control: Control, popped: seq<PlayoutFrame>,
    held: Option<PlayoutFrame>, heldAt: nat, queuedAt: seq<nat>, polled: seq<PlayoutFrame>, polledAt: seq<nat>)

  datatype Action =
    | CheckGeneration(fence: bool, generation: u32)
    | MoveQueue
    | MoveSession
    | FlagStop
    | RevokeSession
    | CloseQueue
    | TaskReceive(source: Endpoint, header: Option<Header>, plaintext: Option<Bytes>, now: int)
    | TaskPop(now: int)
    | TaskPush
    | Poll(now: int)

  ghost predicate ActionWellFormed(a: Action) {
    a.TaskReceive? ==> WellFormed(EvReceive(a.source, a.header, a.plaintext, a.now))
  }

  ghost function Do(r: Runtime, e: Event): Runtime {
    r.(tape := SessionRuns.Step(r.tape, e))
  }

  function AfterTaskPush(r: Runtime): Runtime
    requires r.held.Some?
  {
    var at := match PushResultOf(r.queue, r.held.value)
              case Pushed => r.queuedAt + [r.heldAt]
              case ReplacedOldest => if r.queuedAt == [] then [r.heldAt] else r.queuedAt[1..] + [r.heldAt]
              case _ => r.queuedAt;
    r.(queue := AfterPush(r.queue, r.held.value), queuedAt := at, held := None)
  }

  function AfterPoll(r: Runtime, now: int): Runtime {
    var p := FreshPoll(r.queue, now, MAXIMUM_MEDIA_AGE_US);
    var n := Leading(r.queue, now, MAXIMUM_MEDIA_AGE_US);
    if p.frame.None? || n >= |r.queuedAt| then r.(queue := p.queue, queuedAt := if r.queue.open then [] else r.queuedAt)
    else
      r.(queue := p.queue, polled := r.polled + [p.frame.value], polledAt := r.polledAt + [r.queuedAt[n]],
         queuedAt := r.queuedAt[n + 1..])
  }

  ghost function Act(r: Runtime, a: Action): Runtime {
    match a
    case CheckGeneration(fence, g) =>
      if r.control.Idle? && !r.stop && g >= r.tape.s.generation then r.(control := Checked(fence, g)) else r
    case MoveQueue =>
      if r.control.Checked? then
        var q := Playout.Advance(r.queue, r.control.generation);
        r.(queue := q, queuedAt := if q == r.queue then r.queuedAt else [],
           control := QueueMoved(r.control.fence, r.control.generation))
      else r
    case MoveSession =>
      if r.control.QueueMoved? then
        Do(r, if r.control.fence then EvFence(r.control.generation) else EvAdvance(r.control.generation)).(control := Idle)
      else r
    case FlagStop => if r.control.Idle? then r.(stop := true, control := StopFlagged) else r
    case RevokeSession => if r.control.StopFlagged? then Do(r, EvRevoke).(control := StopRevoked) else r
    case CloseQueue => if r.control.StopRevoked? then r.(queue := CLOSED, queuedAt := [], control := Idle) else r
    case TaskReceive(source, header, plaintext, now) =>
      if r.held.None? then Do(r, EvReceive(source, header, plaintext, now)) else r
    case TaskPop(now) =>
      if r.held.None? then
        var f := PopPlayout(r.tape.s, now).1;
        if f.kind.NoFrame? then Do(r, EvPop(now))
        else Do(r, EvPop(now)).(held := Some(f), heldAt := |r.popped|, popped := r.popped + [f])
      else r
    case TaskPush => if r.held.Some? then AfterTaskPush(r) else r
    case Poll(now) => AfterPoll(r, now)
  }

  ghost function Acts(r: Runtime, acts: seq<Action>): Runtime
    decreases |acts|
  {
    if acts == [] then r else Acts(Act(r, acts[0]), acts[1..])
  }

  /** `Start` opens the queue at the generation of a configured session. */
  ghost predicate Started(r: Runtime) {
    && SessionRuns.Sound(r.tape) && r.tape.played == []
    && r.queue == Opened(r.tape.s.generation)
    && r == Runtime(r.tape, r.queue, false, Idle, [], None, 0, [], [], [])
  }

  // ---- Generations ---------------------------------------------------------------------------

  /** The queue is never behind the session while open, nor behind a control operation that has moved it. */
  ghost predicate Ordered(r: Runtime) {
    && SessionRuns.Sound(r.tape) && Playout.Sound(r.queue)
    && (r.queue.open ==> r.queue.generation >= r.tape.s.generation)
    && (r.control.Checked? || r.control.QueueMoved? ==> r.control.generation >= r.tape.s.generation)
    && (r.control.QueueMoved? && r.queue.open ==> r.queue.generation >= r.control.generation)
  }

  lemma GenerationKept(t: Tape, e: Event)
    requires e.EvReceive? || e.EvPop? || e.EvRevoke?
    ensures SessionRuns.Step(t, e).s.generation == t.s.generation
  {
    if e.EvReceive? && Authenticates(t.s, e) {
      AdmitChanges(BindAndCommit(t.s, e.source, e.header.value.sequence), e.header.value, e.plaintext.value, e.now);
    }
  }

  lemma PushKeepsQueue(q: Queue, f: PlayoutFrame)
    requires Playout.Sound(q)
    ensures Playout.Sound(AfterPush(q, f)) && AfterPush(q, f).generation == q.generation && AfterPush(q, f).open == q.open
  {
  }

  lemma PollKeepsQueue(q: Queue, now: int, age: int)
    requires Playout.Sound(q)
    ensures var p := FreshPoll(q, now, age);
      && Playout.Sound(p.queue) && p.queue.generation == q.generation && p.queue.open == q.open
      && (p.frame.Some? ==> q.open && p.frame.value in q.items && p.frame.value.generation == q.generation
                            && !Expired(p.frame.value, now, age))
  {
    if q.open {
      var n := Leading(q, now, age);
      if n < |q.items| {
        assert q.items[n] in q.items;
      }
    }
  }

  lemma MoveSessionOrdered(r: Runtime)
    requires Ordered(r)
    ensures Ordered(Act(r, MoveSession))
  {
    if r.control.QueueMoved? {
      StepSound(r.tape, if r.control.fence then EvFence(r.control.generation) else EvAdvance(r.control.generation));
    }
  }

  /** The receive task changes neither the session's generation nor its soundness. */
  lemma TaskOrdered(r: Runtime, e: Event)
    requires Ordered(r) && (e.EvReceive? || e.EvPop? || e.EvRevoke?) && WellFormed(e)
    ensures Ordered(Do(r, e))
  {
    StepSound(r.tape, e);
    GenerationKept(r.tape, e);
  }

  /** Ordering does not depend on the records of frames. */
  lemma OrderedKept(r: Runtime, n: Runtime)
    requires Ordered(r) && n.tape == r.tape && Playout.Sound(n.queue) && n.control == r.control
    requires n.queue.open ==> r.queue.open && n.queue.generation == r.queue.generation
    ensures Ordered(n)
  {
  }

  lemma ActOrdered(r: Runtime, a: Action)
    requires Ordered(r) && ActionWellFormed(a)
    ensures Ordered(Act(r, a))
  {
    match a {
      case MoveSession => MoveSessionOrdered(r);
      case RevokeSession => TaskOrdered(r, EvRevoke);
      case TaskReceive(source, header, plaintext, now) => TaskOrdered(r, EvReceive(source, header, plaintext, now));
      case TaskPop(now) =>
        TaskOrdered(r, EvPop(now));
        OrderedKept(Do(r, EvPop(now)), if r.held.None? then Act(r, a) else Do(r, EvPop(now)));
      case TaskPush =>
        if r.held.Some? {
          PushKeepsQueue(r.queue, r.held.value);
          OrderedKept(r, Act(r, a));
        }
      case Poll(now) =>
        PollKeepsQueue(r.queue, now, MAXIMUM_MEDIA_AGE_US);
        OrderedKept(r, Act(r, a));
      case _ =>
    }
  }

  lemma {:induction false} RunOrdered(r: Runtime, acts: seq<Action>)
    requires Ordered(r) && forall a :: a in acts ==> ActionWellFormed(a)
    ensures Ordered(Acts(r, acts))
    decreases |acts|
  {
    if acts != [] {
      ActOrdered(r, acts[0]);
      RunOrdered(Act(r, acts[0]), acts[1..]);
    }
  }

  /** Nothing older than g can leave the queue any more. */
  predicate Fenced(q: Queue, g: u32) {
    q.open ==> q.generation >= g
  }

  /** `after` extends `before` by frames of generation g or newer. */
  ghost predicate NewerOnly(before: seq<PlayoutFrame>, after: seq<PlayoutFrame>, g: u32) {
    before <= after && forall i :: |before| <= i < |after| ==> after[i].generation >= g
  }

  lemma NewerJoin(a: seq<PlayoutFrame>, b: seq<PlayoutFrame>, c: seq<PlayoutFrame>, g: u32)
    requires NewerOnly(a, b, g) && NewerOnly(b, c, g)
    ensures NewerOnly(a, c, g)
  {
    forall i | |a| <= i < |c|
      ensures c[i].generation >= g
    {
      if i < |b| {
        assert c[i] == b[i];
      }
    }
  }

  lemma ActFenced(r: Runtime, a: Action, g: u32)
    requires Ordered(r) && Fenced(r.queue, g)
    ensures Fenced(Act(r, a).queue, g)
    ensures !r.queue.open ==> !Act(r, a).queue.open
    ensures Act(r, a).polled == r.polled || (NewerOnly(r.polled, Act(r, a).polled, g) && r.queue.open)
  {
    if a.TaskPush? && r.held.Some? {
      PushKeepsQueue(r.queue, r.held.value);
    }
    if a.Poll? {
      PollKeepsQueue(r.queue, a.now, MAXIMUM_MEDIA_AGE_US);
    }
  }

  lemma {:induction false} StaysFenced(r: Runtime, acts: seq<Action>, g: u32)
    requires Ordered(r) && Fenced(r.queue, g) && forall a :: a in acts ==> ActionWellFormed(a)
    ensures Acts(r, acts).polled == r.polled || (NewerOnly(r.polled, Acts(r, acts).polled, g) && r.queue.open)
    decreases |acts|
  {
    if acts != [] {
      var next := Act(r, acts[0]);
      ActOrdered(r, acts[0]);
      ActFenced(r, acts[0], g);
      StaysFenced(next, acts[1..], g);
      if next.polled != r.polled && Acts(r, acts).polled != next.polled {
        NewerJoin(r.polled, next.polled, Acts(r, acts).polled, g);
      }
    }
  }

  lemma {:induction false} PolledOnlyGrows(r: Runtime, acts: seq<Action>)
    ensures r.polled <= Acts(r, acts).polled
    decreases |acts|
  {
    if acts != [] {
      PolledOnlyGrows(Act(r, acts[0]), acts[1..]);
    }
  }

  /**
   Once a fence or an advance to g has taken its queue step, then in every interleaving
   of whatever follows no poll yields a frame older than g.
   */
  lemma FenceIsFinal(r0: Runtime, before: seq<Action>, after: seq<Action>, g: u32)
    requires Started(r0)
    requires forall a :: a in before || a in after ==> ActionWellFormed(a)
    requires var c := Acts(r0, before).control; c.Checked? && c.generation == g
    ensures var moved := Act(Acts(r0, before), MoveQueue);
            var end := Acts(moved, after);
            moved.polled <= end.polled && forall i :: |moved.polled| <= i < |end.polled| ==> end.polled[i].generation >= g
  {
    RunOrdered(r0, before);
    var r := Acts(r0, before);
    ActOrdered(r, MoveQueue);
    StaysFenced(Act(r, MoveQueue), after, g);
    PolledOnlyGrows(Act(r, MoveQueue), after);
  }

  /** After `RequestStop` has closed the queue, polls yield nothing, whatever the receive task still does. */
  lemma StopIsFinal(r0: Runtime, before: seq<Action>, after: seq<Action>)
    requires Started(r0)
    requires forall a :: a in before || a in after ==> ActionWellFormed(a)
    requires Acts(r0, before).control.StopRevoked?
    ensures var closed := Act(Acts(r0, before), CloseQueue); Acts(closed, after).polled == closed.polled
  {
    RunOrdered(r0, before);
    var r := Acts(r0, before);
    ActOrdered(r, CloseQueue);
    StaysFenced(Act(r, CloseQueue), after, 0);
  }

  // ---- End to end: what the playback task sees -------------------------------------------------

  ghost predicate At(popped: seq<PlayoutFrame>, places: seq<nat>, frames: seq<PlayoutFrame>) {
    |places| == |frames| && forall i :: 0 <= i < |places| ==> places[i] < |popped| && popped[places[i]] == frames[i]
  }

  ghost predicate AllBelow(a: seq<nat>, bound: nat) {
    forall i :: 0 <= i < |a| ==> a[i] < bound
  }

  /** Polled and then queued frames are popped frames at increasing places. */
  ghost predicate InOrder(popped: seq<PlayoutFrame>, polledAt: seq<nat>, polled: seq<PlayoutFrame>,
                          queuedAt: seq<nat>, items: seq<PlayoutFrame>) {
    && Increasing(polledAt) && Increasing(queuedAt)
    && (forall i :: 0 <= i < |queuedAt| ==> AllBelow(polledAt, queuedAt[i]))
    && At(popped, polledAt, polled) && At(popped, queuedAt, items)
  }

  lemma DropInOrder(popped: seq<PlayoutFrame>, polledAt: seq<nat>, polled: seq<PlayoutFrame>,
                    queuedAt: seq<nat>, items: seq<PlayoutFrame>, n: nat)
    requires InOrder(popped, polledAt, polled, queuedAt, items) && n <= |queuedAt|
    ensures InOrder(popped, polledAt, polled, queuedAt[n..], items[n..])
  {
  }

  lemma PollInOrder(popped: seq<PlayoutFrame>, polledAt: seq<nat>, polled: seq<PlayoutFrame>,
                    queuedAt: seq<nat>, items: seq<PlayoutFrame>)
    requires InOrder(popped, polledAt, polled, queuedAt, items) && queuedAt != []
    ensures InOrder(popped, polledAt + [queuedAt[0]], polled + [items[0]], queuedAt[1..], items[1..])
  {
    var rest := queuedAt[1..];
    forall i | 0 <= i < |rest|
      ensures AllBelow(polledAt + [queuedAt[0]], rest[i])
    {
      assert AllBelow(polledAt, queuedAt[i + 1]);
    }
  }

  lemma PushInOrder(popped: seq<PlayoutFrame>, polledAt: seq<nat>, polled: seq<PlayoutFrame>,
                    queuedAt: seq<nat>, items: seq<PlayoutFrame>, at: nat)
    requires InOrder(popped, polledAt, polled, queuedAt, items)
    requires at < |popped| && AllBelow(polledAt, at) && AllBelow(queuedAt, at)
    ensures InOrder(popped, polledAt, polled, queuedAt + [at], items + [popped[at]])
  {
  }

  lemma MoreInOrder(popped: seq<PlayoutFrame>, polledAt: seq<nat>, polled: seq<PlayoutFrame>,
                    queuedAt: seq<nat>, items: seq<PlayoutFrame>, f: PlayoutFrame)
    requires InOrder(popped, polledAt, polled, queuedAt, items)
    ensures InOrder(popped + [f], polledAt, polled, queuedAt, items)
    ensures AllBelow(polledAt, |popped|) && AllBelow(queuedAt, |popped|)
  {
  }

  /** The frame held by the receive task is the last popped one, later than everything queued or polled. */
  ghost predicate HeldLast(r: Runtime) {
    r.held.Some? ==>
      && r.heldAt + 1 == |r.popped| && r.popped[r.heldAt] == r.held.value
      && AllBelow(r.polledAt, r.heldAt) && AllBelow(r.queuedAt, r.heldAt)
  }

  ghost predicate Pipeline(r: Runtime) {
    InOrder(r.popped, r.polledAt, r.polled, r.queuedAt, r.queue.items) && HeldLast(r)
  }

  function AudioOf(frames: seq<PlayoutFrame>): seq<PlayoutFrame> {
    if frames == [] then []
    else
      var f := frames[|frames| - 1];
      AudioOf(frames[..|frames| - 1]) + if f.kind.AudioFrame? then [f] else []
  }

  lemma AudioOfAppend(frames: seq<PlayoutFrame>, f: PlayoutFrame)
    ensures AudioOf(frames + [f]) == AudioOf(frames) + if f.kind.AudioFrame? then [f] else []
  {
    assert (frames + [f])[..|frames|] == frames;
  }

  lemma PushPipeline(r: Runtime)
    requires Pipeline(r) && Playout.Sound(r.queue) && r.held.Some?
    ensures Pipeline(AfterTaskPush(r))
  {
    var result := PushResultOf(r.queue, r.held.value);
    var n := if result.ReplacedOldest? then 1 else 0;
    if result.Pushed? || result.ReplacedOldest? {
      DropInOrder(r.popped, r.polledAt, r.polled, r.queuedAt, r.queue.items, n);
      PushInOrder(r.popped, r.polledAt, r.polled, r.queuedAt[n..], r.queue.items[n..], r.heldAt);
      assert r.queuedAt[0..] == r.queuedAt && r.queue.items[0..] == r.queue.items;
    }
  }

  lemma PollPipeline(r: Runtime, now: int)
    requires Pipeline(r) && Playout.Sound(r.queue)
    ensures Pipeline(AfterPoll(r, now))
  {
    var n := Leading(r.queue, now, MAXIMUM_MEDIA_AGE_US);
    DropInOrder(r.popped, r.polledAt, r.polled, r.queuedAt, r.queue.items, n);
    if r.queue.open && n < |r.queuedAt| {
      PollInOrder(r.popped, r.polledAt, r.polled, r.queuedAt[n..], r.queue.items[n..]);
      assert r.queuedAt[n..][1..] == r.queuedAt[n + 1..] && r.queue.items[n..][1..] == r.queue.items[n + 1..];
    }
  }

  lemma PopPipeline(r: Runtime, now: int)
    requires Pipeline(r) && r.tape.played == AudioOf(r.popped)
    ensures Pipeline(Act(r, TaskPop(now))) && Act(r, TaskPop(now)).tape.played == AudioOf(Act(r, TaskPop(now)).popped)
  {
    var f := PopPlayout(r.tape.s, now).1;
    AudioOfAppend(r.popped, f);
    MoreInOrder(r.popped, r.polledAt, r.polled, r.queuedAt, r.queue.items, f);
  }

  lemma EmptiedPipeline(r: Runtime, q: Queue, control: Control)
    requires Pipeline(r) && q.items == []
    ensures Pipeline(r.(queue := q, queuedAt := [], control := control))
  {
  }

  /** The remaining actions touch neither the queue nor the frames given out. */
  lemma OtherPipeline(r: Runtime, a: Action)
    requires Pipeline(r) && r.tape.played == AudioOf(r.popped)
    requires !a.MoveQueue? && !a.CloseQueue? && !a.TaskPush? && !a.Poll? && !a.TaskPop?
    ensures Pipeline(Act(r, a)) && Act(r, a).tape.played == AudioOf(Act(r, a).popped)
  {
    OtherKeepsFrames(r, a);
    SamePipeline(r, Act(r, a));
  }

  lemma OtherKeepsFrames(r: Runtime, a: Action)
    requires !a.MoveQueue? && !a.CloseQueue? && !a.TaskPush? && !a.Poll? && !a.TaskPop?
    ensures SameFrames(r, Act(r, a)) && Act(r, a).tape.played == r.tape.played
  {
  }

  predicate SameFrames(r: Runtime, n: Runtime) {
    && n.queue == r.queue && n.popped == r.popped && n.held == r.held && n.heldAt == r.heldAt
    && n.queuedAt == r.queuedAt && n.polled == r.polled && n.polledAt == r.polledAt
  }

  lemma SamePipeline(r: Runtime, n: Runtime)
    requires Pipeline(r) && SameFrames(r, n)
    ensures Pipeline(n)
  {
  }

  lemma ActPipeline(r: Runtime, a: Action)
    requires Ordered(r) && Pipeline(r) && r.tape.played == AudioOf(r.popped)
    ensures Pipeline(Act(r, a)) && Act(r, a).tape.played == AudioOf(Act(r, a).popped)
  {
    match a {
      case MoveQueue =>
        if r.control.Checked? && Playout.Advance(r.queue, r.control.generation) != r.queue {
          EmptiedPipeline(r, Playout.Advance(r.queue, r.control.generation), Act(r, a).control);
        }
      case CloseQueue =>
        if r.control.StopRevoked? {
          EmptiedPipeline(r, CLOSED, Idle);
        }
      case TaskPush =>
        if r.held.Some? {
          PushPipeline(r);
        }
      case Poll(now) => PollPipeline(r, now);
      case TaskPop(now) => PopPipeline(r, now);
      case _ => OtherPipeline(r, a);
    }
  }

  lemma {:induction false} RunPipeline(r: Runtime, acts: seq<Action>)
    requires Ordered(r) && Pipeline(r) && r.tape.played == AudioOf(r.popped)
    requires forall a :: a in acts ==> ActionWellFormed(a)
    ensures Pipeline(Acts(r, acts)) && Acts(r, acts).tape.played == AudioOf(Acts(r, acts).popped)
    decreases |acts|
  {
    if acts != [] {
      ActOrdered(r, acts[0]);
      ActPipeline(r, acts[0]);
      RunPipeline(Act(r, acts[0]), acts[1..]);
    }
  }

  /** The audio frame at place a of a list is the one with as many audio frames before it. */
  lemma {:induction false} AudioIndex(frames: seq<PlayoutFrame>, a: nat)
    requires a < |frames| && frames[a].kind.AudioFrame?
    ensures |AudioOf(frames[..a])| < |AudioOf(frames)| && AudioOf(frames)[|AudioOf(frames[..a])|] == frames[a]
    decreases |frames|
  {
    var n := |frames| - 1;
    if a < n {
      assert frames[..n][..a] == frames[..a];
      AudioIndex(frames[..n], a);
    }
  }

  /** In every interleaving every polled audio frame is exactly what was authenticated under its sequence. */
  lemma PolledIsAuthentic(r0: Runtime, acts: seq<Action>, i: nat)
    requires Started(r0) && forall a :: a in acts ==> ActionWellFormed(a)
    requires i < |Acts(r0, acts).polled| && Acts(r0, acts).polled[i].kind.AudioFrame?
    ensures var r := Acts(r0, acts); var f := r.polled[i];
            f.sequence in r.tape.log && r.tape.log[f.sequence] == Authentic(true, f.timestamp, f.generation, f.payload)
  {
    RunOrdered(r0, acts);
    RunPipeline(r0, acts);
    var r := Acts(r0, acts);
    AudioIndex(r.popped, r.polledAt[i]);
  }

  /**
   End to end, in every interleaving: the polled frames are popped frames in popping order,
   and no audio sequence reaches the playback task twice.
   */
  lemma PolledExactlyOnce(r0: Runtime, acts: seq<Action>, i: nat, j: nat)
    requires Started(r0) && forall a :: a in acts ==> ActionWellFormed(a)
    requires var p := Acts(r0, acts).polled; i < j < |p|
    ensures var r := Acts(r0, acts); var f, g := r.polled[i], r.polled[j];
      && |r.polledAt| == |r.polled|
      && r.polledAt[i] < r.polledAt[j] < |r.popped| && r.popped[r.polledAt[i]] == f && r.popped[r.polledAt[j]] == g
      && (f.kind.AudioFrame? && g.kind.AudioFrame? ==> f.sequence != g.sequence)
  {
    RunOrdered(r0, acts);
    RunPipeline(r0, acts);
    var r := Acts(r0, acts);
    var a, b := r.polledAt[i], r.polledAt[j];
    if r.polled[i].kind.AudioFrame? && r.polled[j].kind.AudioFrame? {
      AudioIndex(r.popped, a);
      AudioIndex(r.popped, b);
      assert r.popped[..b][..a] == r.popped[..a];
      AudioIndex(r.popped[..b], a);
    }
  }

  // ---- The locked operations as steps ------------------------------------------------------------

  lemma OneMoreAct(r: Runtime, a: Action, rest: seq<Action>)
    ensures Acts(r, [a] + rest) == Acts(Act(r, a), rest)
  {
    assert ([a] + rest)[1..] == rest;
  }

  /** A fence or an advance that nothing interleaves with does to queue and session what the locked operation does. */
  lemma GenerationSteps(r: Runtime, fence: bool, g: u32)
    requires r.control.Idle?
    ensures var n := Acts(r, [CheckGeneration(fence, g), MoveQueue, MoveSession]);
            && n.control.Idle? && n.stop == r.stop
            && if r.stop || g < r.tape.s.generation then n == r
               else
                 && n.queue == Playout.Advance(r.queue, g)
                 && n.tape.s == if fence then Fence(r.tape.s, g) else SessionModel.Advance(r.tape.s, g)
  {
    var r1 := Act(r, CheckGeneration(fence, g));
    var r2 := Act(r1, MoveQueue);
    OneMoreAct(r, CheckGeneration(fence, g), [MoveQueue, MoveSession]);
    OneMoreAct(r1, MoveQueue, [MoveSession]);
    OneMoreAct(r2, MoveSession, []);
    assert [CheckGeneration(fence, g)] + [MoveQueue, MoveSession] == [CheckGeneration(fence, g), MoveQueue, MoveSession];
    assert [MoveQueue] + [MoveSession] == [MoveQueue, MoveSession];
    assert [MoveSession] + [] == [MoveSession];
  }

  lemma StopSteps(r: Runtime)
    requires r.control.Idle?
    ensures var n := Acts(r, [FlagStop, RevokeSession, CloseQueue]);
            n.stop && n.control.Idle? && n.queue == CLOSED && n.tape.s == Revoke(r.tape.s)
  {
    var r1 := Act(r, FlagStop);
    var r2 := Act(r1, RevokeSession);
    OneMoreAct(r, FlagStop, [RevokeSession, CloseQueue]);
    OneMoreAct(r1, RevokeSession, [CloseQueue]);
    OneMoreAct(r2, CloseQueue, []);
    assert [FlagStop] + [RevokeSession, CloseQueue] == [FlagStop, RevokeSession, CloseQueue];
    assert [RevokeSession] + [CloseQueue] == [RevokeSession, CloseQueue];
    assert [CloseQueue] + [] == [CloseQueue];
  }

  lemma PopAct(r: Runtime, now: int)
    requires r.held.None?
    ensures var n := Act(r, TaskPop(now));
            var (s, f) := PopPlayout(r.tape.s, now);
            n.tape.s == s && n.queue == r.queue && n.held == if f.kind.NoFrame? then None else Some(f)
  {
  }

  lemma PushAct(r: Runtime)
    ensures var n := Act(r, TaskPush);
            && n.held.None? && n.tape == r.tape
            && n.queue == if r.held.None? then r.queue else AfterPush(r.queue, r.held.value)
  {
  }

  /** One turn of the receive task's loop: a pop and, if it gave a frame, a push. */
  lemma PumpSteps(r: Runtime, now: int)
    requires r.held.None?
    ensures var (s, f) := PopPlayout(r.tape.s, now);
            var n := Act(Act(r, TaskPop(now)), TaskPush);
            && n.held.None? && n.tape.s == s
            && n.queue == if f.kind.NoFrame? then r.queue else AfterPush(r.queue, f)
  {
    PopAct(r, now);
    PushAct(Act(r, TaskPop(now)));
  }

  /** A poll takes from the queue exactly what the queue gives out, and the frame reaches the playback task. */
  lemma PollSteps(r: Runtime, now: int)
    requires Pipeline(r) && Playout.Sound(r.queue)
    ensures var p, n := FreshPoll(r.queue, now, MAXIMUM_MEDIA_AGE_US), Act(r, Poll(now));
            && n.queue == p.queue && n.tape == r.tape
            && n.polled == r.polled + if p.frame.Some? then [p.frame.value] else []
  {
  }

  /** A received datagram reaches the session. */
  lemma ReceiveSteps(r: Runtime, source: Endpoint, header: Option<Header>, plaintext: Option<Bytes>, now: int)
    requires r.held.None?
    ensures var n := Act(r, TaskReceive(source, header, plaintext, now));
            n.tape.s == Receive(r.tape.s, source, header, plaintext, now).session && n.queue == r.queue && n.polled == r.polled
  {
  }
}
