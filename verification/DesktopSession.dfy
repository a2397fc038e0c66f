/**
 The desktop client's view of one session (session/state.py): which control messages,
 media frames and local playback facts it accepts, and what it remembers of them.
 */
module DesktopSession {
  import opened Machine

  const TOMBSTONE_LIMIT := 64

  datatype Target = Target(id: string, generation: nat)

  datatype Playback = Playback(
    target: Target, started: bool, ended: bool, stopped: bool, final: Option<nat>, terminal: bool,
    stopFence: Option<nat>, stopCause: string, first: Option<u32>, last: Option<u32>)

  datatype State = State(
    wss: bool, closed: bool, fence: nat, highest: nat, current: Option<Target>, live: map<nat, Playback>,
    tombstones: seq<Playback>, transcripts: map<string, nat>, finalSet: set<string>, finalOrder: seq<string>,
    responseText: map<nat, nat>, lastTimestamp: map<nat, u32>, nextSequence: nat)

  function Opened(wss: bool): State {
    State(wss, false, 1, 0, None, map[], [], map[], {}, [], map[], map[], if wss then 0 else 1)
  }

  function NewPlayback(t: Target): Playback {
    Playback(t, false, false, false, None, false, None, "", None, None)
  }

  /** Index of the newest tombstone of a generation, or -1. */
  function TombstoneOf(ts: seq<Playback>, g: nat): (i: int)
    ensures -1 <= i < |ts|
    ensures i >= 0 ==> ts[i].target.generation == g
    ensures forall j :: i < j < |ts| ==> ts[j].target.generation != g
  {
    if ts == [] then -1
    else if ts[|ts| - 1].target.generation == g then |ts| - 1
    else TombstoneOf(ts[..|ts| - 1], g)
  }

  function Find(s: State, g: nat): Option<Playback> {
    if g in s.live then Some(s.live[g])
    else if TombstoneOf(s.tombstones, g) >= 0 then Some(s.tombstones[TombstoneOf(s.tombstones, g)])
    else None
  }

  predicate Known(s: State, t: Target) {
    Find(s, t.generation).Some? && Find(s, t.generation).value.target == t
  }

  /** The found playback object, updated in place. */
  function Put(s: State, g: nat, p: Playback): (r: State)
    ensures r == s.(live := r.live, tombstones := r.tombstones)
  {
    if g in s.live then s.(live := s.live[g := p])
    else
      var i := TombstoneOf(s.tombstones, g);
      if i >= 0 then s.(tombstones := s.tombstones[i := p]) else s
  }

  // ---- Control ---------------------------------------------------------------------------------

  datatype Ending = Completed | Cancelled | Failed

  /** Server messages of the right shape and session. */
  datatype Message =
    | Transcript(utterance: string, sequence: nat, isFinal: bool)
    | ResponseBegin(target: Target)
    | ResponseText(target: Target, sequence: nat)
    | ResponseEnd(target: Target, ending: Ending, final: nat)
    | PlaybackStop(target: Target, fence: nat, cause: string)
    | SessionClose

  /**
   `Event` reaches the application, `Silent` is accepted without one, `Rejected` is a raised
   protocol error, and `Crashed` a KeyError from removing a set member that is not there.
   */
  datatype Reply = Event | Silent | Rejected | Crashed

  datatype Step = Step(state: State, reply: Reply)

  function Reject(s: State): Step {
    Step(s, Rejected)
  }

  /** Remember a final utterance, forgetting the oldest of 64. */
  function Remember(s: State, u: string): Step {
    if |s.finalOrder| >= TOMBSTONE_LIMIT then
      var popped := s.(finalOrder := s.finalOrder[1..]);
      if s.finalOrder[0] !in s.finalSet then Step(popped, Crashed)
      else Step(popped.(finalOrder := popped.finalOrder + [u], finalSet := s.finalSet - {s.finalOrder[0]} + {u}), Event)
    else Step(s.(finalOrder := s.finalOrder + [u], finalSet := s.finalSet + {u}), Event)
  }

  function AcceptTranscript(s: State, u: string, sequence: nat, isFinal: bool): Step {
    var expected := if u in s.transcripts then s.transcripts[u] else 0;
    if u in s.finalSet || sequence != expected then Reject(s)
    else if !isFinal then Step(s.(transcripts := s.transcripts[u := expected + 1]), Event)
    else
      var r := Remember(s, u);
      Step(r.state.(transcripts := s.transcripts - {u}), r.reply)
  }

  function AcceptBegin(s: State, t: Target): Step {
    if t.generation <= s.highest || t.generation < s.fence || s.current.Some? then Reject(s)
    else Step(s.(highest := t.generation, current := Some(t), live := s.live[t.generation := NewPlayback(t)],
                 responseText := s.responseText[t.generation := 0]), Event)
  }

  function AcceptText(s: State, t: Target, sequence: nat): Step {
    var expected := if t.generation in s.responseText then s.responseText[t.generation] else 0;
    if s.current != Some(t) || !Known(s, t) || sequence != expected then Reject(s)
    else Step(s.(responseText := s.responseText[t.generation := expected + 1]), Event)
  }

  function AcceptEnd(s: State, t: Target, ending: Ending, final: nat): Step {
    if !Known(s, t) || Find(s, t.generation).value.terminal then Reject(s)
    else
      var p := Find(s, t.generation).value;
      Step(Put(s, t.generation, p.(final := if ending.Completed? then Some(final) else p.final, terminal := true)), Event)
  }

  function AcceptStop(s: State, t: Target, fence: nat, cause: string): Step {
    if !Known(s, t) || Find(s, t.generation).value.ended then Reject(s)
    else
      var p := Find(s, t.generation).value;
      if p.stopFence.Some? then (if p.stopFence == Some(fence) && p.stopCause == cause then Step(s, Silent) else Reject(s))
      else if fence <= t.generation || fence <= s.fence then Reject(s)
      else Step(Put(s, t.generation, p.(stopped := true, stopFence := Some(fence), stopCause := cause)).(fence := fence), Event)
  }

  function AcceptControl(s: State, m: Message): Step {
    if s.closed then Reject(s)
    else match m
      case Transcript(u, q, isFinal) => AcceptTranscript(s, u, q, isFinal)
      case ResponseBegin(t) => AcceptBegin(s, t)
      case ResponseText(t, q) => AcceptText(s, t, q)
      case ResponseEnd(t, ending, final) => AcceptEnd(s, t, ending, final)
      case PlaybackStop(t, fence, cause) => AcceptStop(s, t, fence, cause)
      case SessionClose => Step(s.(closed := true), Event)
  }

  // ---- Media -----------------------------------------------------------------------------------

  /** An audio frame of this session's media identity. */
  datatype Media = Media(sequence: u32, timestamp: u32, generation: nat)

  datatype Admission = Admit | Skip | Error

  predicate TimestampFollows(s: State, f: Media) {
    f.generation in s.lastTimestamp ==>
      var delta := (f.timestamp - s.lastTimestamp[f.generation]) % TWO_32;
      if s.wss then delta == SAMPLES_PER_FRAME else delta != 0 && delta % SAMPLES_PER_FRAME == 0
  }

  function Validate(s: State, f: Media): Admission {
    match Find(s, f.generation)
    case None => Error
    case Some(p) =>
      if f.generation < s.fence || p.stopped || p.ended then Skip
      else if s.current != Some(p.target) || !TimestampFollows(s, f) then Error
      else Admit
  }

  function AcceptMedia(s: State, f: Media): Step {
    var a := Validate(s, f);
    if s.closed || a.Error? || (if s.wss then f.sequence != s.nextSequence else f.sequence < s.nextSequence) then Reject(s)
    else
      var n := s.(nextSequence := f.sequence + 1);
      if a.Skip? then Step(n, Silent)
      else if f.generation !in s.live then Step(n.(lastTimestamp := s.lastTimestamp[f.generation := f.timestamp]), Crashed)
      else
        var p := s.live[f.generation];
        var q := p.(first := if p.first.None? then Some(f.sequence) else p.first, last := Some(f.sequence));
        Step(n.(lastTimestamp := s.lastTimestamp[f.generation := f.timestamp], live := s.live[f.generation := q]), Event)
  }

  // ---- Local playback facts ----------------------------------------------------------------------

  datatype Outcome = PlayedThrough | WasStopped | HasFailed

  function PlaybackStarted(s: State, t: Target, first: u32): Step {
    if !Known(s, t) then Reject(s)
    else
      var p := Find(s, t.generation).value;
      if p.started || p.ended || p.stopped || p.first != Some(first) then Reject(s)
      else Step(Put(s, t.generation, p.(started := true)), Event)
  }

  /** Played samples and the last sequence must agree with what was received and started. */
  predicate Evidence(p: Playback, outcome: Outcome, played: u64, last: Option<u32>) {
    && (played == 0 <==> last.None?)
    && (last.Some? ==> p.started && p.last == last)
    && !(p.started && played == 0)
    && (outcome.PlayedThrough? ==> p.started && p.terminal && p.final.Some? && played > 0 && last.Some? && last.value == p.final.value)
  }

  function Bury(ts: seq<Playback>, p: Playback): seq<Playback> {
    (if |ts| >= TOMBSTONE_LIMIT then ts[1..] else ts) + [p]
  }

  function PlaybackEnded(s: State, t: Target, outcome: Outcome, played: u64, last: Option<u32>): Step {
    if !Known(s, t) then Reject(s)
    else
      var p := Find(s, t.generation).value;
      if p.ended || !Evidence(p, outcome, played, last) then Reject(s)
      else
        var g := t.generation;
        Step(s.(current := if s.current == Some(t) then None else s.current, live := s.live - {g},
                responseText := s.responseText - {g}, lastTimestamp := s.lastTimestamp - {g},
                tombstones := Bury(s.tombstones, p.(ended := true))), Event)
  }
}

/** Every history of messages, media and local facts. */
module DesktopSessionRuns {
  import opened Machine
  import opened DesktopSession

  datatype Op =
    | OpControl(message: Message)
    | OpMedia(frame: Media)
    | OpStarted(target: Target, first: u32)
    | OpEnded(target: Target, outcome: Outcome, played: u64, last: Option<u32>)

  function Apply(s: State, op: Op): Step {
    match op
    case OpControl(m) => AcceptControl(s, m)
    case OpMedia(f) => AcceptMedia(s, f)
    case OpStarted(t, first) => PlaybackStarted(s, t, first)
    case OpEnded(t, outcome, played, last) => PlaybackEnded(s, t, outcome, played, last)
  }

  /** Accepted begins, facts and media events, by generation and in order. */
  datatype History = History(state: State, begun: seq<nat>, startedFacts: set<nat>, endedFacts: set<nat>, repeated: bool, media: seq<Media>)

  function Start(wss: bool): History {
    History(Opened(wss), [], {}, {}, false, [])
  }

  /** `repeated` records whether a fact was ever emitted twice for one generation. */
  function Next(h: History, op: Op): History {
    var r := Apply(h.state, op);
    var accepted := r.reply.Event?;
    History(r.state,
            if op.OpControl? && op.message.ResponseBegin? && accepted then h.begun + [op.message.target.generation] else h.begun,
            if op.OpStarted? && accepted then h.startedFacts + {op.target.generation} else h.startedFacts,
            if op.OpEnded? && accepted then h.endedFacts + {op.target.generation} else h.endedFacts,
            h.repeated || (op.OpStarted? && accepted && op.target.generation in h.startedFacts)
            || (op.OpEnded? && accepted && op.target.generation in h.endedFacts),
            if op.OpMedia? && accepted then h.media + [op.frame] else h.media)
  }

  // ---- Invariant ---------------------------------------------------------------------------------

  /** The live table is empty or holds exactly the current playback. */
  ghost predicate LiveIsCurrent(s: State) {
    && (forall g :: g in s.live <==> s.current.Some? && g == s.current.value.generation)
    && (forall g :: g in s.live ==> s.live[g].target == s.current.value && !s.live[g].ended)
    && (s.current.Some? ==> s.current.value.generation <= s.highest)
  }

  ghost predicate BuriedEnded(s: State) {
    && |s.tombstones| <= TOMBSTONE_LIMIT
    && forall i :: 0 <= i < |s.tombstones| ==>
         s.tombstones[i].ended && s.tombstones[i].target.generation <= s.highest && s.tombstones[i].target.generation !in s.live
  }

  ghost predicate FactsMatch(h: History) {
    && !h.repeated
    && (forall g :: g in h.startedFacts || g in h.endedFacts ==> g <= h.state.highest)
    && (forall g :: g in h.state.live ==> (h.state.live[g].started <==> g in h.startedFacts) && g !in h.endedFacts)
  }

  ghost predicate Kept(h: History) {
    && FinalsAgree(h.state) && LiveIsCurrent(h.state) && BuriedEnded(h.state) && FactsMatch(h)
    && Increasing(h.begun) && (forall i :: 0 <= i < |h.begun| ==> h.begun[i] <= h.state.highest)
  }

  /** The set of final transcripts is the deque's contents, without repetition. */
  ghost predicate FinalsAgree(s: State) {
    && (forall u :: u in s.finalSet <==> u in s.finalOrder)
    && (forall i, j :: 0 <= i < j < |s.finalOrder| ==> s.finalOrder[i] != s.finalOrder[j])
    && |s.finalOrder| <= TOMBSTONE_LIMIT
  }

  lemma DropFirst(order: seq<string>, u: string)
    requires order != [] && forall i, j :: 0 <= i < j < |order| ==> order[i] != order[j]
    ensures u in order[1..] <==> u in order && u != order[0]
  {
    if u in order && u != order[0] {
      var i :| 0 <= i < |order| && order[i] == u;
      assert order[1..][i - 1] == u;
    }
  }

  lemma RememberAgrees(s: State, u: string)
    requires FinalsAgree(s) && u !in s.finalSet
    ensures FinalsAgree(Remember(s, u).state) && Remember(s, u).reply.Event?
  {
    var r := Remember(s, u).state;
    if |s.finalOrder| >= TOMBSTONE_LIMIT {
      assert s.finalOrder[0] in s.finalOrder;
      forall x
        ensures x in r.finalSet <==> x in r.finalOrder
      {
        DropFirst(s.finalOrder, x);
      }
    }
  }

  lemma TombstoneReplaced(ts: seq<Playback>, g: nat, p: Playback)
    requires TombstoneOf(ts, g) >= 0 && p.target == ts[TombstoneOf(ts, g)].target && p.ended == ts[TombstoneOf(ts, g)].ended
    ensures var n := ts[TombstoneOf(ts, g) := p];
            |n| == |ts| && forall i :: 0 <= i < |n| ==> n[i].target == ts[i].target && n[i].ended == ts[i].ended
  {
  }

  lemma PutBuried(s: State, g: nat, p: Playback)
    requires LiveIsCurrent(s) && BuriedEnded(s) && FinalsAgree(s) && Find(s, g).Some?
    requires var old_ := Find(s, g).value; p.target == old_.target && p.ended == old_.ended
    ensures var r := Put(s, g, p);
      && LiveIsCurrent(r) && BuriedEnded(r) && FinalsAgree(r)
      && r.live.Keys == s.live.Keys
      && forall x :: x in r.live ==> r.live[x] == if x == g then p else s.live[x]
  {
    if g !in s.live {
      TombstoneReplaced(s.tombstones, g, p);
    }
  }

  lemma OnlyTranscriptsChanged(h: History, h': History)
    requires Kept(h) && FinalsAgree(h'.state)
    requires var s, s' := h.state, h'.state;
             h' == h.(state := s.(finalSet := s'.finalSet, finalOrder := s'.finalOrder, transcripts := s'.transcripts))
    ensures Kept(h')
  {
  }

  lemma TranscriptChanges(s: State, u: string, q: nat, isFinal: bool)
    requires FinalsAgree(s)
    ensures var n := AcceptTranscript(s, u, q, isFinal);
      && FinalsAgree(n.state) && !n.reply.Crashed?
      && n.state == s.(finalSet := n.state.finalSet, finalOrder := n.state.finalOrder, transcripts := n.state.transcripts)
  {
    if u !in s.finalSet {
      RememberAgrees(s, u);
    }
  }

  lemma TranscriptKept(h: History, u: string, q: nat, isFinal: bool)
    requires Kept(h)
    ensures Kept(Next(h, OpControl(Transcript(u, q, isFinal))))
    ensures !Apply(h.state, OpControl(Transcript(u, q, isFinal))).reply.Crashed?
  {
    TranscriptChanges(h.state, u, q, isFinal);
    OnlyTranscriptsChanged(h, Next(h, OpControl(Transcript(u, q, isFinal))));
  }

  lemma BeginKept(h: History, t: Target)
    requires Kept(h)
    ensures Kept(Next(h, OpControl(ResponseBegin(t))))
  {
  }

  lemma EndKept(h: History, t: Target, ending: Ending, final: nat)
    requires Kept(h)
    ensures Kept(Next(h, OpControl(ResponseEnd(t, ending, final))))
  {
    if Known(h.state, t) {
      var p := Find(h.state, t.generation).value;
      PutBuried(h.state, t.generation, p.(final := if ending.Completed? then Some(final) else p.final, terminal := true));
    }
  }

  lemma StopKept(h: History, t: Target, fence: nat, cause: string)
    requires Kept(h)
    ensures Kept(Next(h, OpControl(PlaybackStop(t, fence, cause))))
  {
    if Known(h.state, t) {
      var p := Find(h.state, t.generation).value;
      PutBuried(h.state, t.generation, p.(stopped := true, stopFence := Some(fence), stopCause := cause));
    }
  }

  lemma ControlKept(h: History, m: Message)
    requires Kept(h)
    ensures Kept(Next(h, OpControl(m)))
    ensures !Apply(h.state, OpControl(m)).reply.Crashed?
  {
    match m {
      case Transcript(u, q, isFinal) => TranscriptKept(h, u, q, isFinal);
      case ResponseBegin(t) => BeginKept(h, t);
      case ResponseText(t, q) =>
      case ResponseEnd(t, ending, final) => EndKept(h, t, ending, final);
      case PlaybackStop(t, fence, cause) => StopKept(h, t, fence, cause);
      case SessionClose =>
    }
  }

  lemma StartedKept(h: History, t: Target, first: u32)
    requires Kept(h)
    ensures Kept(Next(h, OpStarted(t, first)))
  {
    if Known(h.state, t) {
      PutBuried(h.state, t.generation, Find(h.state, t.generation).value.(started := true));
    }
  }

  lemma EndedKept(h: History, t: Target, outcome: Outcome, played: u64, last: Option<u32>)
    requires Kept(h)
    ensures Kept(Next(h, OpEnded(t, outcome, played, last)))
  {
  }

  /** Media changes only the sequences and timestamps remembered of a live playback. */
  lemma MediaChanges(s: State, f: Media)
    requires LiveIsCurrent(s)
    ensures var n := AcceptMedia(s, f);
      && !n.reply.Crashed?
      && n.state == s.(nextSequence := n.state.nextSequence, lastTimestamp := n.state.lastTimestamp, live := n.state.live)
      && n.state.live.Keys == s.live.Keys
      && forall g :: g in s.live ==> n.state.live[g] == s.live[g].(first := n.state.live[g].first, last := n.state.live[g].last)
  {
  }

  lemma MediaKept(h: History, f: Media)
    requires Kept(h)
    ensures Kept(Next(h, OpMedia(f))) && !Apply(h.state, OpMedia(f)).reply.Crashed?
  {
    MediaChanges(h.state, f);
  }

  lemma NextKept(h: History, op: Op)
    requires Kept(h)
    ensures Kept(Next(h, op))
    ensures !Apply(h.state, op).reply.Crashed?
  {
    match op {
      case OpControl(m) => ControlKept(h, m);
      case OpMedia(f) => MediaKept(h, f);
      case OpStarted(t, first) => StartedKept(h, t, first);
      case OpEnded(t, outcome, played, last) => EndedKept(h, t, outcome, played, last);
    }
  }

  ghost predicate IsRun(hs: seq<History>, ops: seq<Op>) {
    && |hs| == |ops| + 1
    && forall k {:trigger Next(hs[k], ops[k])} :: 0 <= k < |ops| ==> hs[k + 1] == Next(hs[k], ops[k])
  }

  lemma StartKept(wss: bool)
    ensures Kept(Start(wss))
  {
  }

  lemma {:induction false} RunKept(hs: seq<History>, ops: seq<Op>, wss: bool, n: nat)
    requires IsRun(hs, ops) && hs[0] == Start(wss) && n < |hs|
    ensures Kept(hs[n])
  {
    if n == 0 {
      StartKept(wss);
    } else {
      RunKept(hs, ops, wss, n - 1);
      NextKept(hs[n - 1], ops[n - 1]);
      assert hs[n - 1 + 1] == Next(hs[n - 1], ops[n - 1]);
    }
  }

  // ---- Main results --------------------------------------------------------------------------------

  /** The live table is empty or exactly the current playback; begun generations strictly increase; no fact is emitted twice. */
  lemma OneLivePlayback(hs: seq<History>, ops: seq<Op>, wss: bool, n: nat)
    requires IsRun(hs, ops) && hs[0] == Start(wss) && n < |hs|
    ensures var s := hs[n].state;
            && s.live.Keys == (if s.current.Some? then {s.current.value.generation} else {})
            && Increasing(hs[n].begun)
            && !hs[n].repeated
  {
    RunKept(hs, ops, wss, n);
  }

  /** The final-transcript set always is its 64-entry deque, so removing the evicted entry never fails. */
  lemma FinalTranscriptsAgree(hs: seq<History>, ops: seq<Op>, wss: bool, n: nat, next: Op)
    requires IsRun(hs, ops) && hs[0] == Start(wss) && n < |hs|
    ensures !Apply(hs[n].state, next).reply.Crashed?
    ensures var s := hs[n].state;
            && |s.finalSet| == |s.finalOrder| <= 64
            && forall u :: u in s.finalSet <==> u in s.finalOrder
  {
    RunKept(hs, ops, wss, n);
    NextKept(hs[n], next);
    DistinctCount(hs[n].state.finalOrder, hs[n].state.finalSet);
  }

  lemma {:induction false} DistinctCount(order: seq<string>, all: set<string>)
    requires forall u :: u in all <==> u in order
    requires forall i, j :: 0 <= i < j < |order| ==> order[i] != order[j]
    ensures |all| == |order|
    decreases |order|
  {
    if order == [] {
      assert all == {};
    } else {
      var n := |order| - 1;
      assert order == order[..n] + [order[n]];
      DistinctCount(order[..n], all - {order[n]});
    }
  }

  lemma ControlKeepsFence(s: State, m: Message)
    ensures AcceptControl(s, m).state.fence >= s.fence
    ensures m.PlaybackStop? && AcceptControl(s, m).reply.Event? ==> AcceptControl(s, m).state.fence == m.fence
  {
  }

  lemma MediaKeepsFence(s: State, f: Media)
    ensures AcceptMedia(s, f).state.fence == s.fence
    ensures AcceptMedia(s, f).reply.Event? ==> f.generation >= s.fence
  {
  }

  lemma ApplyKeepsFence(s: State, op: Op)
    ensures Apply(s, op).state.fence >= s.fence
  {
    match op {
      case OpControl(m) => ControlKeepsFence(s, m);
      case OpMedia(f) => MediaKeepsFence(s, f);
      case OpStarted(t, first) =>
      case OpEnded(t, outcome, played, last) =>
    }
  }

  lemma {:induction false} FenceGrows(hs: seq<History>, ops: seq<Op>, m: nat, n: nat)
    requires IsRun(hs, ops) && m <= n < |hs|
    ensures hs[m].state.fence <= hs[n].state.fence
    decreases n - m
  {
    if m < n {
      var k := n - 1;
      FenceGrows(hs, ops, m, k);
      ApplyKeepsFence(hs[k].state, ops[k]);
      assert hs[k + 1] == Next(hs[k], ops[k]);
    }
  }

  /** After an accepted stop with fence f no media event below f is ever returned. */
  lemma NoMediaBelowFence(hs: seq<History>, ops: seq<Op>, stop: nat, media: nat)
    requires IsRun(hs, ops) && stop < media < |ops|
    requires ops[stop].OpControl? && ops[stop].message.PlaybackStop? && Apply(hs[stop].state, ops[stop]).reply.Event?
    requires ops[media].OpMedia? && Apply(hs[media].state, ops[media]).reply.Event?
    ensures ops[media].frame.generation >= ops[stop].message.fence
  {
    assert hs[stop + 1] == Next(hs[stop], ops[stop]);
    ControlKeepsFence(hs[stop].state, ops[stop].message);
    FenceGrows(hs, ops, stop + 1, media);
    MediaKeepsFence(hs[media].state, ops[media].frame);
  }

  /** The server announced completion of this target, ending with media sequence f. */
  predicate Announces(s: State, op: Op, t: Target, f: nat) {
    op == OpControl(ResponseEnd(t, Completed, f)) && Apply(s, op).reply.Event?
  }

  /** A media event of generation g was returned. */
  predicate Hears(s: State, op: Op, g: nat) {
    op.OpMedia? && op.frame.generation == g && Apply(s, op).reply.Event?
  }

  /** How one operation may change what is known of a live playback. */
  ghost predicate Follows(s: State, op: Op, g: nat) {
    var after := Apply(s, op).state.live;
    g in after ==>
      if g in s.live && !(op.OpControl? && op.message.ResponseBegin? && op.message.target.generation == g && after[g] == NewPlayback(op.message.target))
      then
        && after[g].target == s.live[g].target
        && (after[g].final == s.live[g].final || (after[g].final.Some? && Announces(s, op, after[g].target, after[g].final.value)))
        && (if Hears(s, op, g) then after[g].last == Some(op.frame.sequence) else after[g].last == s.live[g].last)
      else after[g].final.None? && after[g].last.None? && !Hears(s, op, g)
  }

  lemma ControlFollows(s: State, m: Message, g: nat)
    requires !m.ResponseEnd? && !m.ResponseBegin? && !m.PlaybackStop?
    ensures Follows(s, OpControl(m), g)
  {
  }

  lemma StopFollows(s: State, t: Target, fence: nat, cause: string, g: nat)
    ensures Follows(s, OpControl(PlaybackStop(t, fence, cause)), g)
  {
  }

  lemma BeginFollows(s: State, t: Target, g: nat)
    ensures Follows(s, OpControl(ResponseBegin(t)), g)
  {
  }

  lemma EndFollows(s: State, t: Target, ending: Ending, final: nat, g: nat)
    ensures Follows(s, OpControl(ResponseEnd(t, ending, final)), g)
  {
  }

  lemma StartedFollows(s: State, t: Target, first: u32, g: nat)
    ensures Follows(s, OpStarted(t, first), g)
  {
  }

  lemma EndedFollows(s: State, t: Target, outcome: Outcome, played: u64, last: Option<u32>, g: nat)
    ensures Follows(s, OpEnded(t, outcome, played, last), g)
  {
  }

  lemma MediaFollows(s: State, f: Media, g: nat)
    ensures Follows(s, OpMedia(f), g)
  {
  }

  lemma ApplyFollows(s: State, op: Op, g: nat)
    ensures Follows(s, op, g)
  {
    match op {
      case OpControl(ResponseBegin(t)) => BeginFollows(s, t, g);
      case OpControl(PlaybackStop(t, fence, cause)) => StopFollows(s, t, fence, cause, g);
      case OpControl(ResponseEnd(t, ending, final)) => EndFollows(s, t, ending, final, g);
      case OpControl(m) => ControlFollows(s, m, g);
      case OpMedia(f) => MediaFollows(s, f, g);
      case OpStarted(t, first) => StartedFollows(s, t, first, g);
      case OpEnded(t, outcome, played, last) => EndedFollows(s, t, outcome, played, last, g);
    }
  }

  /** A final sequence recorded for a live playback was announced earlier in the run. */
  lemma {:induction false} FinalWasAnnounced(hs: seq<History>, ops: seq<Op>, wss: bool, n: nat, g: nat) returns (k: nat)
    requires IsRun(hs, ops) && hs[0] == Start(wss) && n < |hs|
    requires g in hs[n].state.live && hs[n].state.live[g].final.Some?
    ensures k < n && Announces(hs[k].state, ops[k], hs[n].state.live[g].target, hs[n].state.live[g].final.value)
  {
    var before, op := hs[n - 1].state, ops[n - 1];
    assert hs[n - 1 + 1] == Next(hs[n - 1], op);
    ApplyFollows(before, op, g);
    var p := hs[n].state.live[g];
    if Announces(before, op, p.target, p.final.value) {
      k := n - 1;
    } else {
      k := FinalWasAnnounced(hs, ops, wss, n - 1, g);
    }
  }

  lemma LastStep(hs: seq<History>, ops: seq<Op>, wss: bool, n: nat, g: nat)
    requires IsRun(hs, ops) && hs[0] == Start(wss) && n < |hs|
    requires g in hs[n].state.live && hs[n].state.live[g].last.Some?
    ensures n > 0
    ensures var before, last := hs[n - 1].state, hs[n].state.live[g].last;
            if Hears(before, ops[n - 1], g) then last == Some(ops[n - 1].frame.sequence)
            else g in before.live && before.live[g].last == last
  {
    assert hs[n - 1 + 1] == Next(hs[n - 1], ops[n - 1]);
    ApplyFollows(hs[n - 1].state, ops[n - 1], g);
  }

  /** The last sequence recorded for a live playback is that of the last media event of its generation. */
  lemma {:induction false} LastWasHeard(hs: seq<History>, ops: seq<Op>, wss: bool, n: nat, g: nat) returns (k: nat)
    requires IsRun(hs, ops) && hs[0] == Start(wss) && n < |hs|
    requires g in hs[n].state.live && hs[n].state.live[g].last.Some?
    ensures k < n && Hears(hs[k].state, ops[k], g) && ops[k].frame.sequence == hs[n].state.live[g].last.value
    ensures forall m :: k < m < n ==> !Hears(hs[m].state, ops[m], g)
  {
    LastStep(hs, ops, wss, n, g);
    if Hears(hs[n - 1].state, ops[n - 1], g) {
      k := n - 1;
    } else {
      k := LastWasHeard(hs, ops, wss, n - 1, g);
    }
  }

  /**
   A completion is accepted only after the server announced completion of that very response
   with some final sequence, and the last media event of its generation carried that sequence.
   */
  lemma CompletionIsEvidenced(hs: seq<History>, ops: seq<Op>, wss: bool, n: nat) returns (announced: nat, heard: nat)
    requires IsRun(hs, ops) && hs[0] == Start(wss) && n < |ops|
    requires ops[n].OpEnded? && ops[n].outcome.PlayedThrough? && Apply(hs[n].state, ops[n]).reply.Event?
    ensures ops[n].played > 0 && ops[n].last.Some?
    ensures announced < n && Announces(hs[announced].state, ops[announced], ops[n].target, ops[n].last.value)
    ensures heard < n && Hears(hs[heard].state, ops[heard], ops[n].target.generation)
    ensures ops[heard].frame.sequence == ops[n].last.value
    ensures forall m :: heard < m < n ==> !Hears(hs[m].state, ops[m], ops[n].target.generation)
  {
    RunKept(hs, ops, wss, n);
    var g := ops[n].target.generation;
    assert g in hs[n].state.live;
    announced := FinalWasAnnounced(hs, ops, wss, n, g);
    heard := LastWasHeard(hs, ops, wss, n, g);
  }
}
