/**
 What the desktop session must answer, over every history: which media frames it returns,
 skips and rejects, and which completions it accepts.
 */
module DesktopSessionAnswers {
  import opened Machine
  import opened DesktopSession
  import opened DesktopSessionRuns

  // ---- What is remembered of media ------------------------------------------------------------------

  /** Timestamps are remembered of live playbacks only. */
  ghost predicate TimestampsLive(s: State) {
    LiveIsCurrent(s) && forall g :: g in s.lastTimestamp ==> g in s.live
  }

  /** How one operation changes the timestamp remembered of a playback that is live after it. */
  ghost predicate TimestampFollowsStep(s: State, op: Op, g: nat) {
    var n := Apply(s, op).state;
    g in n.live ==>
      if Hears(s, op, g) then g in s.live && g in n.lastTimestamp && n.lastTimestamp[g] == op.frame.timestamp
      else if g in s.live then (g in n.lastTimestamp <==> g in s.lastTimestamp) && (g in s.lastTimestamp ==> n.lastTimestamp[g] == s.lastTimestamp[g])
      else g !in n.lastTimestamp && g > s.highest
  }

  lemma PutKeepsTables(s: State, g: nat, p: Playback)
    ensures Put(s, g, p).lastTimestamp == s.lastTimestamp && Put(s, g, p).live.Keys == s.live.Keys
  {
  }

  /** Of control messages only a begin touches the tables, by adding one playback. */
  lemma ControlKeepsTables(s: State, m: Message)
    ensures var n := AcceptControl(s, m).state;
            && n.lastTimestamp == s.lastTimestamp
            && n.live.Keys == if m.ResponseBegin? && AcceptControl(s, m).reply.Event? then s.live.Keys + {m.target.generation} else s.live.Keys
  {
    match m {
      case ResponseEnd(t, ending, final) => EndKeepsTables(s, t, ending, final);
      case PlaybackStop(t, fence, cause) => StopKeepsTables(s, t, fence, cause);
      case _ =>
    }
  }

  lemma EndKeepsTables(s: State, t: Target, ending: Ending, final: nat)
    ensures var n := AcceptEnd(s, t, ending, final).state; n.lastTimestamp == s.lastTimestamp && n.live.Keys == s.live.Keys
  {
    if Known(s, t) {
      var p := Find(s, t.generation).value;
      PutKeepsTables(s, t.generation, p.(final := if ending.Completed? then Some(final) else p.final, terminal := true));
    }
  }

  lemma StopKeepsTables(s: State, t: Target, fence: nat, cause: string)
    ensures var n := AcceptStop(s, t, fence, cause).state; n.lastTimestamp == s.lastTimestamp && n.live.Keys == s.live.Keys
  {
    if Known(s, t) {
      var p := Find(s, t.generation).value;
      PutKeepsTables(s, t.generation, p.(stopped := true, stopFence := Some(fence), stopCause := cause));
    }
  }

  lemma ControlTimestamps(s: State, m: Message, g: nat)
    requires TimestampsLive(s)
    ensures TimestampFollowsStep(s, OpControl(m), g)
    ensures forall x :: x in AcceptControl(s, m).state.lastTimestamp ==> x in AcceptControl(s, m).state.live
  {
    ControlKeepsTables(s, m);
    var n := AcceptControl(s, m).state;
    assert forall x :: x in s.live.Keys ==> x in n.live.Keys;
    assert g in n.live ==> g in n.live.Keys;
  }

  lemma MediaTimestamps(s: State, f: Media, g: nat)
    requires TimestampsLive(s)
    ensures TimestampFollowsStep(s, OpMedia(f), g)
    ensures forall x :: x in AcceptMedia(s, f).state.lastTimestamp ==> x in AcceptMedia(s, f).state.live
  {
  }

  lemma StartedTimestamps(s: State, t: Target, first: u32, g: nat)
    requires TimestampsLive(s)
    ensures TimestampFollowsStep(s, OpStarted(t, first), g)
    ensures forall x :: x in PlaybackStarted(s, t, first).state.lastTimestamp ==> x in PlaybackStarted(s, t, first).state.live
  {
    if Known(s, t) {
      var p := Find(s, t.generation).value.(started := true);
      PutKeepsTables(s, t.generation, p);
      var n := Put(s, t.generation, p);
      assert forall x :: x in n.live.Keys <==> x in s.live.Keys;
    }
  }

  lemma EndedTimestamps(s: State, t: Target, outcome: Outcome, played: u64, last: Option<u32>, g: nat)
    requires TimestampsLive(s)
    ensures TimestampFollowsStep(s, OpEnded(t, outcome, played, last), g)
    ensures var n := PlaybackEnded(s, t, outcome, played, last).state; forall x :: x in n.lastTimestamp ==> x in n.live
  {
    EndDropsOne(s, t, outcome, played, last);
  }

  lemma EndDropsOne(s: State, t: Target, outcome: Outcome, played: u64, last: Option<u32>)
    ensures var r := PlaybackEnded(s, t, outcome, played, last);
            && (r.reply.Rejected? ==> r.state == s)
            && (!r.reply.Rejected? ==>
                  r.reply.Event? && r.state.live == s.live - {t.generation} && r.state.lastTimestamp == s.lastTimestamp - {t.generation})
  {
  }

  lemma ApplyTimestamps(s: State, op: Op, g: nat)
    requires TimestampsLive(s)
    ensures TimestampFollowsStep(s, op, g)
    ensures forall x :: x in Apply(s, op).state.lastTimestamp ==> x in Apply(s, op).state.live
  {
    match op {
      case OpControl(m) => ControlTimestamps(s, m, g);
      case OpMedia(f) => MediaTimestamps(s, f, g);
      case OpStarted(t, first) => StartedTimestamps(s, t, first, g);
      case OpEnded(t, outcome, played, last) => EndedTimestamps(s, t, outcome, played, last, g);
    }
  }

  lemma {:induction false} RunTimestamps(hs: seq<History>, ops: seq<Op>, wss: bool, n: nat)
    requires IsRun(hs, ops) && hs[0] == Start(wss) && n < |hs|
    ensures Kept(hs[n]) && TimestampsLive(hs[n].state)
  {
    RunKept(hs, ops, wss, n);
    if n > 0 {
      RunTimestamps(hs, ops, wss, n - 1);
      ApplyTimestamps(hs[n - 1].state, ops[n - 1], 0);
      assert hs[n - 1 + 1] == Next(hs[n - 1], ops[n - 1]);
    }
  }

  // ---- The last media event ------------------------------------------------------------------------

  /** Operation k returned the last media event of generation g before n. */
  ghost predicate LastHeard(hs: seq<History>, ops: seq<Op>, n: nat, g: nat, k: nat)
    requires |hs| == |ops| + 1 && n <= |ops|
  {
    k < n && Hears(hs[k].state, ops[k], g) && forall m :: k < m < n ==> !Hears(hs[m].state, ops[m], g)
  }

  lemma {:induction false} TimestampHeard(hs: seq<History>, ops: seq<Op>, wss: bool, n: nat, g: nat) returns (k: nat)
    requires IsRun(hs, ops) && hs[0] == Start(wss) && n < |hs|
    requires g in hs[n].state.live && g in hs[n].state.lastTimestamp
    ensures LastHeard(hs, ops, n, g, k) && ops[k].frame.timestamp == hs[n].state.lastTimestamp[g]
  {
    StepBack(hs, ops, wss, n, g);
    if Hears(hs[n - 1].state, ops[n - 1], g) {
      k := n - 1;
    } else {
      k := TimestampHeard(hs, ops, wss, n - 1, g);
    }
  }

  /** What the state after n operations says about the one before. */
  lemma StepBack(hs: seq<History>, ops: seq<Op>, wss: bool, n: nat, g: nat)
    requires IsRun(hs, ops) && hs[0] == Start(wss) && n < |hs| && g in hs[n].state.live
    ensures n > 0
    ensures var s, after := hs[n - 1].state, hs[n].state;
            if Hears(s, ops[n - 1], g) then g in after.lastTimestamp && after.lastTimestamp[g] == ops[n - 1].frame.timestamp
            else if g in s.live then (g in after.lastTimestamp <==> g in s.lastTimestamp) && (g in s.lastTimestamp ==> after.lastTimestamp[g] == s.lastTimestamp[g])
            else g !in after.lastTimestamp && g > s.highest
  {
    assert hs[n - 1 + 1] == Next(hs[n - 1], ops[n - 1]);
    RunTimestamps(hs, ops, wss, n - 1);
    ApplyTimestamps(hs[n - 1].state, ops[n - 1], g);
  }

  lemma HighestStep(s: State, op: Op)
    ensures Apply(s, op).state.highest >= s.highest
  {
    if op.OpControl? {
      ControlHighest(s, op.message);
    }
  }

  lemma ControlHighest(s: State, m: Message)
    ensures AcceptControl(s, m).state.highest >= s.highest
  {
  }

  lemma {:induction false} HighestGrows(hs: seq<History>, ops: seq<Op>, m: nat, n: nat)
    requires IsRun(hs, ops) && m <= n < |hs|
    ensures hs[m].state.highest <= hs[n].state.highest
    decreases n - m
  {
    if m < n {
      HighestGrows(hs, ops, m, n - 1);
      HighestStep(hs[n - 1].state, ops[n - 1]);
      assert hs[n - 1 + 1] == Next(hs[n - 1], ops[n - 1]);
    }
  }

  /** Media is returned only of generations already begun. */
  lemma HeardWasBegun(hs: seq<History>, ops: seq<Op>, wss: bool, k: nat, g: nat)
    requires IsRun(hs, ops) && hs[0] == Start(wss) && k < |ops| && Hears(hs[k].state, ops[k], g)
    ensures g <= hs[k].state.highest
  {
    RunTimestamps(hs, ops, wss, k);
    MediaTimestamps(hs[k].state, ops[k].frame, g);
    assert g in hs[k].state.live by {
      HeardIsLive(hs[k].state, ops[k], g);
    }
  }

  lemma HeardIsLive(s: State, op: Op, g: nat)
    requires Hears(s, op, g)
    ensures g in s.live
  {
  }

  /** With no timestamp remembered of a live playback, no media event of its generation was ever returned. */
  lemma {:induction false} NothingHeard(hs: seq<History>, ops: seq<Op>, wss: bool, n: nat, g: nat, k: nat)
    requires IsRun(hs, ops) && hs[0] == Start(wss) && n < |hs| && k < n
    requires g in hs[n].state.live && g !in hs[n].state.lastTimestamp
    ensures !Hears(hs[k].state, ops[k], g)
  {
    StepBack(hs, ops, wss, n, g);
    if k < n - 1 {
      if g in hs[n - 1].state.live {
        NothingHeard(hs, ops, wss, n - 1, g, k);
      } else if Hears(hs[k].state, ops[k], g) {
        HeardWasBegun(hs, ops, wss, k, g);
        HighestGrows(hs, ops, k, n - 1);
      }
    }
  }

  // ---- What is answered to media --------------------------------------------------------------------

  /** The sequence is the next one, or in UDP one at or past it. */
  predicate SequenceFits(s: State, f: Media) {
    if s.wss then f.sequence == s.nextSequence else f.sequence >= s.nextSequence
  }

  /** The playback is live and was not stopped, and the fence has not passed it. */
  predicate Playable(s: State, g: nat) {
    g in s.live && !s.live[g].stopped && g >= s.fence
  }

  /** The playback is known, but nothing of it may be played any more. */
  ghost predicate Silenced(s: State, g: nat) {
    if g in s.live then s.live[g].stopped || g < s.fence
    else exists i :: 0 <= i < |s.tombstones| && s.tombstones[i].target.generation == g
  }

  /** In WSS every frame steps by exactly one frame; in UDP by one or more whole frames. */
  predicate BadStep(wss: bool, from: u32, to: u32) {
    var step := (to - from) % 0x1_0000_0000;
    if wss then step != 960 else step == 0 || step % 960 != 0
  }

  /** The last media event of this generation does not lead to this frame. */
  ghost predicate OutOfStep(hs: seq<History>, ops: seq<Op>, wss: bool, n: nat, f: Media)
    requires |hs| == |ops| + 1 && n <= |ops|
  {
    exists k: nat :: LastHeard(hs, ops, n, f.generation, k) && BadStep(wss, ops[k].frame.timestamp, f.timestamp)
  }

  lemma OneLastHeard(hs: seq<History>, ops: seq<Op>, n: nat, g: nat, j: nat, k: nat)
    requires |hs| == |ops| + 1 && n <= |ops| && LastHeard(hs, ops, n, g, j) && LastHeard(hs, ops, n, g, k)
    ensures j == k
  {
  }

  lemma StepDecides(hs: seq<History>, ops: seq<Op>, wss: bool, n: nat, f: Media)
    requires IsRun(hs, ops) && hs[0] == Start(wss) && n < |hs| && f.generation in hs[n].state.live && hs[n].state.wss == wss
    ensures TimestampFollows(hs[n].state, f) <==> !OutOfStep(hs, ops, wss, n, f)
  {
    var g := f.generation;
    if g in hs[n].state.lastTimestamp {
      var k := TimestampHeard(hs, ops, wss, n, g);
      forall j: nat | LastHeard(hs, ops, n, g, j)
        ensures j == k
      {
        OneLastHeard(hs, ops, n, g, j, k);
      }
    } else {
      forall j: nat
        ensures !LastHeard(hs, ops, n, g, j)
      {
        if j < n {
          NothingHeard(hs, ops, wss, n, g, j);
        }
      }
    }
  }

  lemma ProfileStep(s: State, op: Op)
    ensures Apply(s, op).state.wss == s.wss
  {
    if op.OpControl? {
      ControlProfile(s, op.message);
    }
  }

  lemma ControlProfile(s: State, m: Message)
    ensures AcceptControl(s, m).state.wss == s.wss
  {
  }

  lemma {:induction false} ProfileStays(hs: seq<History>, ops: seq<Op>, wss: bool, n: nat)
    requires IsRun(hs, ops) && hs[0] == Start(wss) && n < |hs|
    ensures hs[n].state.wss == wss
  {
    if n > 0 {
      ProfileStays(hs, ops, wss, n - 1);
      ProfileStep(hs[n - 1].state, ops[n - 1]);
      assert hs[n - 1 + 1] == Next(hs[n - 1], ops[n - 1]);
    }
  }

  /**
   Exactly what is answered to a media frame, in every history.  An open session that is given a
   fitting sequence returns a frame of the playable playback unless its timestamp is out of
   step, skips a frame of one that was silenced, and rejects every other.
   */
  lemma MediaDecides(hs: seq<History>, ops: seq<Op>, wss: bool, n: nat, f: Media)
    requires IsRun(hs, ops) && hs[0] == Start(wss) && n < |hs|
    ensures var s, g := hs[n].state, f.generation;
            var heard := !s.closed && SequenceFits(s, f);
            var r := AcceptMedia(s, f);
            && (r.reply.Event? <==> heard && Playable(s, g) && !OutOfStep(hs, ops, wss, n, f))
            && (r.reply.Silent? <==> heard && Silenced(s, g))
            && (r.reply.Rejected? <==>
                  !heard || (!Playable(s, g) && !Silenced(s, g)) || (Playable(s, g) && OutOfStep(hs, ops, wss, n, f)))
            && r.state.nextSequence == (if r.reply.Rejected? then s.nextSequence else f.sequence + 1)
  {
    RunTimestamps(hs, ops, wss, n);
    ProfileStays(hs, ops, wss, n);
    if f.generation in hs[n].state.live {
      StepDecides(hs, ops, wss, n, f);
    }
    ValidateDecides(hs[n].state, f);
  }

  /** Admission by state alone; the history enters through the timestamp. */
  lemma ValidateDecides(s: State, f: Media)
    requires LiveIsCurrent(s) && BuriedEnded(s)
    ensures Validate(s, f) ==
            if Silenced(s, f.generation) then Skip
            else if Playable(s, f.generation) && TimestampFollows(s, f) then Admit
            else Error
  {
    if f.generation !in s.live && TombstoneOf(s.tombstones, f.generation) >= 0 {
      assert s.tombstones[TombstoneOf(s.tombstones, f.generation)].target.generation == f.generation;
    }
  }

  // ---- The first media event -------------------------------------------------------------------------

  /** How one operation changes the first sequence remembered of a playback that is live after it. */
  ghost predicate FirstFollows(s: State, op: Op, g: nat) {
    var n := Apply(s, op).state;
    g in n.live ==>
      if g in s.live && s.live[g].first.Some? && g <= s.highest then n.live[g].first == s.live[g].first
      else if Hears(s, op, g) then n.live[g].first == Some(op.frame.sequence)
      else n.live[g].first.None? && (g in s.live || g > s.highest)
  }

  lemma ControlFirst(s: State, m: Message, g: nat)
    requires LiveIsCurrent(s)
    ensures FirstFollows(s, OpControl(m), g)
  {
    match m {
      case ResponseEnd(t, ending, final) => TerminalFirst(s, t, ending, final, g);
      case PlaybackStop(t, fence, cause) => StopFirst(s, t, fence, cause, g);
      case ResponseBegin(t) => BeginFirst(s, t, g);
      case _ => OtherFirst(s, m, g);
    }
  }

  lemma TerminalFirst(s: State, t: Target, ending: Ending, final: nat, g: nat)
    requires LiveIsCurrent(s)
    ensures FirstFollows(s, OpControl(ResponseEnd(t, ending, final)), g)
  {
  }

  lemma StopFirst(s: State, t: Target, fence: nat, cause: string, g: nat)
    requires LiveIsCurrent(s)
    ensures FirstFollows(s, OpControl(PlaybackStop(t, fence, cause)), g)
  {
  }

  lemma BeginFirst(s: State, t: Target, g: nat)
    requires LiveIsCurrent(s)
    ensures FirstFollows(s, OpControl(ResponseBegin(t)), g)
  {
  }

  lemma OtherFirst(s: State, m: Message, g: nat)
    requires LiveIsCurrent(s) && !m.ResponseEnd? && !m.PlaybackStop? && !m.ResponseBegin?
    ensures FirstFollows(s, OpControl(m), g)
  {
  }

  lemma MediaFirst(s: State, f: Media, g: nat)
    requires LiveIsCurrent(s)
    ensures FirstFollows(s, OpMedia(f), g)
  {
  }

  lemma StartedFirst(s: State, t: Target, first: u32, g: nat)
    requires LiveIsCurrent(s)
    ensures FirstFollows(s, OpStarted(t, first), g)
  {
  }

  lemma EndedFirst(s: State, t: Target, outcome: Outcome, played: u64, last: Option<u32>, g: nat)
    requires LiveIsCurrent(s)
    ensures FirstFollows(s, OpEnded(t, outcome, played, last), g)
  {
  }

  lemma FirstBack(hs: seq<History>, ops: seq<Op>, wss: bool, n: nat, g: nat)
    requires IsRun(hs, ops) && hs[0] == Start(wss) && n < |hs| && g in hs[n].state.live
    ensures n > 0
    ensures var s, first := hs[n - 1].state, hs[n].state.live[g].first;
            if g in s.live && s.live[g].first.Some? then first == s.live[g].first
            else if Hears(s, ops[n - 1], g) then g in s.live && first == Some(ops[n - 1].frame.sequence)
            else first.None? && (g in s.live || g > s.highest)
  {
    assert hs[n - 1 + 1] == Next(hs[n - 1], ops[n - 1]);
    RunKept(hs, ops, wss, n - 1);
    var s := hs[n - 1].state;
    match ops[n - 1] {
      case OpControl(m) => ControlFirst(s, m, g);
      case OpMedia(f) => MediaFirst(s, f, g);
      case OpStarted(t, first) => StartedFirst(s, t, first, g);
      case OpEnded(t, outcome, played, last) => EndedFirst(s, t, outcome, played, last, g);
    }
    if Hears(s, ops[n - 1], g) {
      HeardIsLive(s, ops[n - 1], g);
    }
  }

  /** With no first sequence remembered of a live playback, none of its media was returned yet. */
  lemma {:induction false} NoneHeardYet(hs: seq<History>, ops: seq<Op>, wss: bool, n: nat, g: nat, k: nat)
    requires IsRun(hs, ops) && hs[0] == Start(wss) && n < |hs| && k < n
    requires g in hs[n].state.live && hs[n].state.live[g].first.None?
    ensures !Hears(hs[k].state, ops[k], g)
  {
    FirstBack(hs, ops, wss, n, g);
    if k < n - 1 {
      if g in hs[n - 1].state.live {
        NoneHeardYet(hs, ops, wss, n - 1, g, k);
      } else if Hears(hs[k].state, ops[k], g) {
        HeardWasBegun(hs, ops, wss, k, g);
        HighestGrows(hs, ops, k, n - 1);
      }
    }
  }

  /** The first sequence remembered of a live playback is that of the first media event of its generation. */
  lemma {:induction false} FirstWasHeard(hs: seq<History>, ops: seq<Op>, wss: bool, n: nat, g: nat) returns (k: nat)
    requires IsRun(hs, ops) && hs[0] == Start(wss) && n < |hs|
    requires g in hs[n].state.live && hs[n].state.live[g].first.Some?
    ensures k < n && Hears(hs[k].state, ops[k], g) && ops[k].frame.sequence == hs[n].state.live[g].first.value
    ensures forall m :: 0 <= m < k ==> !Hears(hs[m].state, ops[m], g)
  {
    FirstBack(hs, ops, wss, n, g);
    var s := hs[n - 1].state;
    if g in s.live && s.live[g].first.Some? {
      k := FirstWasHeard(hs, ops, wss, n - 1, g);
    } else {
      k := n - 1;
      forall m | 0 <= m < k
        ensures !Hears(hs[m].state, ops[m], g)
      {
        NoneHeardYet(hs, ops, wss, n - 1, g, m);
      }
    }
  }

  // ---- Local facts ---------------------------------------------------------------------------------

  /**
   A start is accepted exactly for the live playback, once, before it is stopped, and with the
   sequence of the first media event of its generation.
   */
  lemma StartDecides(hs: seq<History>, ops: seq<Op>, wss: bool, n: nat, t: Target, first: u32)
    requires IsRun(hs, ops) && hs[0] == Start(wss) && n < |hs|
    ensures var s, g := hs[n].state, t.generation;
            PlaybackStarted(s, t, first).reply.Event? <==>
              && s.current == Some(t) && g in s.live && !s.live[g].started && !s.live[g].stopped
              && exists k: nat :: FirstHeard(hs, ops, n, g, k) && ops[k].frame.sequence == first
  {
    RunKept(hs, ops, wss, n);
    var s, g := hs[n].state, t.generation;
    if g in s.live {
      if s.live[g].first.Some? {
        var k := FirstWasHeard(hs, ops, wss, n, g);
        assert FirstHeard(hs, ops, n, g, k);
      } else {
        forall k: nat
          ensures !FirstHeard(hs, ops, n, g, k)
        {
          if k < n {
            NoneHeardYet(hs, ops, wss, n, g, k);
          }
        }
      }
    }
  }

  /** Operation k returned the first media event of generation g. */
  ghost predicate FirstHeard(hs: seq<History>, ops: seq<Op>, n: nat, g: nat, k: nat)
    requires |hs| == |ops| + 1 && n <= |ops|
  {
    k < n && Hears(hs[k].state, ops[k], g) && forall m :: 0 <= m < k ==> !Hears(hs[m].state, ops[m], g)
  }

  /**
   An end is accepted exactly for the live playback and with true evidence: after a start, some
   samples and the last sequence received; without one, neither; and to have played through, the
   announced final sequence as well.
   */
  lemma EndDecides(hs: seq<History>, ops: seq<Op>, wss: bool, n: nat, t: Target, outcome: Outcome, played: u64, last: Option<u32>)
    requires IsRun(hs, ops) && hs[0] == Start(wss) && n < |hs|
    ensures var s, g := hs[n].state, t.generation;
            PlaybackEnded(s, t, outcome, played, last).reply.Event? <==>
              && s.current == Some(t) && g in s.live
              && (if s.live[g].started then played > 0 && last.Some? && last == s.live[g].last else played == 0 && last.None?)
              && (outcome.PlayedThrough? ==> last.Some? && s.live[g].terminal && s.live[g].final.Some? && last.value == s.live[g].final.value)
  {
    RunKept(hs, ops, wss, n);
  }

  // ---- Messages ------------------------------------------------------------------------------------

  /** Parts of an utterance accepted since it last was final. */
  ghost function PartsHeard(hs: seq<History>, ops: seq<Op>, n: nat, u: string): nat
    requires |hs| == |ops| + 1 && n <= |ops|
  {
    if n == 0 then 0
    else
      var op := ops[n - 1];
      if op.OpControl? && op.message.Transcript? && op.message.utterance == u && Apply(hs[n - 1].state, op).reply.Event?
      then (if op.message.isFinal then 0 else PartsHeard(hs, ops, n - 1, u) + 1)
      else PartsHeard(hs, ops, n - 1, u)
  }

  /** Texts of a response accepted since it began. */
  ghost function TextsHeard(hs: seq<History>, ops: seq<Op>, n: nat, g: nat): nat
    requires |hs| == |ops| + 1 && n <= |ops|
  {
    if n == 0 then 0
    else
      var op := ops[n - 1];
      if op.OpControl? && op.message.ResponseBegin? && op.message.target.generation == g && Apply(hs[n - 1].state, op).reply.Event? then 0
      else if op.OpControl? && op.message.ResponseText? && op.message.target.generation == g && Apply(hs[n - 1].state, op).reply.Event?
      then TextsHeard(hs, ops, n - 1, g) + 1
      else TextsHeard(hs, ops, n - 1, g)
  }

  function NextPart(s: State, u: string): nat {
    if u in s.transcripts then s.transcripts[u] else 0
  }

  function NextText(s: State, g: nat): nat {
    if g in s.responseText then s.responseText[g] else 0
  }

  lemma PartsStep(s: State, op: Op, u: string)
    ensures NextPart(Apply(s, op).state, u) ==
            if op.OpControl? && op.message.Transcript? && op.message.utterance == u && Apply(s, op).reply.Event?
            then (if op.message.isFinal then 0 else NextPart(s, u) + 1)
            else if Apply(s, op).reply.Crashed? then NextPart(Apply(s, op).state, u)
            else NextPart(s, u)
  {
    match op {
      case OpControl(m) => ControlParts(s, m, u);
      case _ =>
    }
  }

  lemma ControlParts(s: State, m: Message, u: string)
    ensures var r := AcceptControl(s, m);
            !r.reply.Crashed? ==>
              NextPart(r.state, u) ==
              if m.Transcript? && m.utterance == u && r.reply.Event? then (if m.isFinal then 0 else NextPart(s, u) + 1) else NextPart(s, u)
  {
  }

  lemma {:induction false} PartsCounted(hs: seq<History>, ops: seq<Op>, wss: bool, n: nat, u: string)
    requires IsRun(hs, ops) && hs[0] == Start(wss) && n <= |ops|
    ensures NextPart(hs[n].state, u) == PartsHeard(hs, ops, n, u)
  {
    if n > 0 {
      PartsCounted(hs, ops, wss, n - 1, u);
      RunKept(hs, ops, wss, n - 1);
      NextKept(hs[n - 1], ops[n - 1]);
      PartsStep(hs[n - 1].state, ops[n - 1], u);
      assert hs[n - 1 + 1] == Next(hs[n - 1], ops[n - 1]);
    }
  }

  /** A transcript part is accepted exactly when its utterance is not among the last 64 final ones and its number is the next. */
  lemma TranscriptDecides(hs: seq<History>, ops: seq<Op>, wss: bool, n: nat, u: string, q: nat, isFinal: bool)
    requires IsRun(hs, ops) && hs[0] == Start(wss) && n <= |ops|
    ensures var s, r := hs[n].state, AcceptControl(hs[n].state, Transcript(u, q, isFinal));
            && (r.reply.Event? <==> !s.closed && u !in s.finalOrder && q == PartsHeard(hs, ops, n, u))
            && (r.reply.Event? && isFinal ==> |r.state.finalOrder| > 0 && r.state.finalOrder[|r.state.finalOrder| - 1] == u)
  {
    PartsCounted(hs, ops, wss, n, u);
    RunKept(hs, ops, wss, n);
    PartDecides(hs[n].state, u, q, isFinal);
  }

  lemma PartDecides(s: State, u: string, q: nat, isFinal: bool)
    requires FinalsAgree(s)
    ensures var r := AcceptControl(s, Transcript(u, q, isFinal));
            && (r.reply.Event? <==> !s.closed && u !in s.finalOrder && q == NextPart(s, u))
            && (r.reply.Event? && isFinal ==> |r.state.finalOrder| > 0 && r.state.finalOrder[|r.state.finalOrder| - 1] == u)
  {
    if u !in s.finalSet {
      RememberAgrees(s, u);
    }
  }

  lemma TextStep(s: State, op: Op, g: nat)
    requires LiveIsCurrent(s)
    ensures g in Apply(s, op).state.live ==>
              NextText(Apply(s, op).state, g) ==
              if op.OpControl? && op.message.ResponseBegin? && op.message.target.generation == g && Apply(s, op).reply.Event? then 0
              else if op.OpControl? && op.message.ResponseText? && op.message.target.generation == g && Apply(s, op).reply.Event?
              then NextText(s, g) + 1
              else NextText(s, g)
  {
    match op {
      case OpControl(m) => ControlText(s, m, g);
      case _ =>
    }
  }

  lemma ControlText(s: State, m: Message, g: nat)
    ensures var r := AcceptControl(s, m);
            NextText(r.state, g) ==
            if m.ResponseBegin? && m.target.generation == g && r.reply.Event? then 0
            else if m.ResponseText? && m.target.generation == g && r.reply.Event? then NextText(s, g) + 1
            else NextText(s, g)
  {
  }

  /** A playback that is live after an operation other than its begin was live before it. */
  lemma LiveBefore(s: State, op: Op, g: nat)
    requires LiveIsCurrent(s) && g in Apply(s, op).state.live
    ensures g in s.live || (op.OpControl? && op.message.ResponseBegin? && op.message.target.generation == g && Apply(s, op).reply.Event?)
  {
    match op {
      case OpControl(m) => ControlKeepsTables(s, m); assert g in AcceptControl(s, m).state.live.Keys;
      case OpStarted(t, first) =>
        if Known(s, t) {
          PutKeepsTables(s, t.generation, Find(s, t.generation).value.(started := true));
          assert g in Apply(s, op).state.live.Keys;
        }
      case _ =>
    }
  }

  lemma {:induction false} TextsCounted(hs: seq<History>, ops: seq<Op>, wss: bool, n: nat, g: nat)
    requires IsRun(hs, ops) && hs[0] == Start(wss) && n <= |ops| && g in hs[n].state.live
    ensures NextText(hs[n].state, g) == TextsHeard(hs, ops, n, g)
  {
    if n > 0 {
      var s, op := hs[n - 1].state, ops[n - 1];
      assert hs[n - 1 + 1] == Next(hs[n - 1], ops[n - 1]);
      RunKept(hs, ops, wss, n - 1);
      TextStep(s, op, g);
      LiveBefore(s, op, g);
      if g in s.live {
        TextsCounted(hs, ops, wss, n - 1, g);
      }
    }
  }

  /** A text is accepted exactly for the current response and when its number is the next. */
  lemma TextDecides(hs: seq<History>, ops: seq<Op>, wss: bool, n: nat, t: Target, q: nat)
    requires IsRun(hs, ops) && hs[0] == Start(wss) && n <= |ops|
    ensures var s := hs[n].state;
            AcceptControl(s, ResponseText(t, q)).reply.Event? <==>
              !s.closed && s.current == Some(t) && q == TextsHeard(hs, ops, n, t.generation)
  {
    RunKept(hs, ops, wss, n);
    if hs[n].state.current == Some(t) {
      TextsCounted(hs, ops, wss, n, t.generation);
    }
  }

  /** A response begins exactly when none is current, with a generation above every earlier one and not below the fence. */
  lemma BeginDecides(s: State, t: Target)
    ensures var r := AcceptControl(s, ResponseBegin(t));
            && (r.reply.Event? <==> !s.closed && s.current.None? && t.generation > s.highest && t.generation >= s.fence)
            && (r.reply.Event? ==>
                  && r.state.current == Some(t) && r.state.highest == t.generation && t.generation in r.state.live
                  && r.state.live[t.generation] == Playback(t, false, false, false, None, false, None, "", None, None))
  {
  }

  /** A stop of the live playback: the first must raise the fence past it; later ones must repeat it. */
  lemma StopDecides(s: State, t: Target, fence: nat, cause: string)
    requires LiveIsCurrent(s) && !s.closed && s.current == Some(t)
    ensures var p, r := s.live[t.generation], AcceptControl(s, PlaybackStop(t, fence, cause));
            && (p.stopFence.None? ==> (r.reply.Event? <==> fence > t.generation && fence > s.fence) && !r.reply.Silent?)
            && (p.stopFence.Some? ==> (r.reply.Silent? <==> p.stopFence == Some(fence) && p.stopCause == cause) && !r.reply.Event?)
            && (r.reply.Event? ==> r.state.fence == fence && r.state.live[t.generation].stopped)
            && (!r.reply.Event? ==> r.state == s)
  {
  }

  /** One terminal message per playback; a completion announces its final sequence. */
  lemma TerminalDecides(s: State, t: Target, ending: Ending, final: nat)
    requires LiveIsCurrent(s) && !s.closed && s.current == Some(t)
    ensures var p, r := s.live[t.generation], AcceptControl(s, ResponseEnd(t, ending, final));
            && (r.reply.Event? <==> !p.terminal) && (!r.reply.Event? ==> r.state == s)
            && (r.reply.Event? ==>
                  r.state.live[t.generation] == p.(terminal := true, final := if ending.Completed? then Some(final) else p.final))
  {
  }

  // ---- The session's own numbers ---------------------------------------------------------------------

  /** Whether the session was closed, its fence, the greatest generation begun, and the media sequence expected. */
  datatype Marks = Marks(closed: bool, fence: nat, highest: nat, nextSequence: nat)

  /** What one operation and the answer to it make of these. */
  function MarksAfter(k: Marks, op: Op, reply: Reply): Marks {
    match op
    case OpControl(SessionClose) => if reply.Event? then k.(closed := true) else k
    case OpControl(PlaybackStop(_, fence, _)) => if reply.Event? then k.(fence := fence) else k
    case OpControl(ResponseBegin(t)) => if reply.Event? then k.(highest := t.generation) else k
    case OpMedia(f) => if reply.Rejected? then k else k.(nextSequence := f.sequence + 1)
    case _ => k
  }

  /** A WSS session expects media from 0 on, a UDP session from 1 on; both begin with fence 1 and nothing begun. */
  ghost function MarksHeard(hs: seq<History>, ops: seq<Op>, wss: bool, n: nat): Marks
    requires |hs| == |ops| + 1 && n <= |ops|
  {
    if n == 0 then Marks(false, 1, 0, if wss then 0 else 1)
    else MarksAfter(MarksHeard(hs, ops, wss, n - 1), ops[n - 1], Apply(hs[n - 1].state, ops[n - 1]).reply)
  }

  function MarksOf(s: State): Marks {
    Marks(s.closed, s.fence, s.highest, s.nextSequence)
  }

  lemma ControlMarks(s: State, m: Message)
    ensures MarksOf(AcceptControl(s, m).state) == MarksAfter(MarksOf(s), OpControl(m), AcceptControl(s, m).reply)
  {
  }

  lemma ApplyMarks(s: State, op: Op)
    ensures MarksOf(Apply(s, op).state) == MarksAfter(MarksOf(s), op, Apply(s, op).reply)
  {
    if op.OpControl? {
      ControlMarks(s, op.message);
    }
  }

  /** In every history these numbers are what the accepted operations make them. */
  lemma {:induction false} HistoryTells(hs: seq<History>, ops: seq<Op>, wss: bool, n: nat)
    requires IsRun(hs, ops) && hs[0] == Start(wss) && n <= |ops|
    ensures MarksOf(hs[n].state) == MarksHeard(hs, ops, wss, n)
  {
    if n > 0 {
      HistoryTells(hs, ops, wss, n - 1);
      ApplyMarks(hs[n - 1].state, ops[n - 1]);
      assert hs[n - 1 + 1] == Next(hs[n - 1], ops[n - 1]);
    }
  }

  // ---- What is remembered ---------------------------------------------------------------------------

  /** The last n elements of a list. */
  function Newest<T>(s: seq<T>, n: nat): seq<T> {
    if |s| <= n then s else s[|s| - n..]
  }

  /** The last 64 final utterances are remembered, in order. */
  lemma FinalsRemembered(s: State, u: string)
    requires FinalsAgree(s) && u !in s.finalSet
    ensures Remember(s, u).reply.Event? && Remember(s, u).state.finalOrder == Newest(s.finalOrder + [u], 64)
  {
    RememberAgrees(s, u);
  }

  /** An accepted end takes the playback out of the live table and buries it as the newest of 64. */
  lemma EndBuries(s: State, t: Target, outcome: Outcome, played: u64, last: Option<u32>)
    requires LiveIsCurrent(s) && |s.tombstones| <= 64 && s.current == Some(t)
    requires PlaybackEnded(s, t, outcome, played, last).reply.Event?
    ensures var n := PlaybackEnded(s, t, outcome, played, last).state; var g := t.generation;
            && n.current.None? && g !in n.live && g !in n.lastTimestamp && g !in n.responseText
            && n.tombstones == Newest(s.tombstones + [s.live[g].(ended := true)], 64)
            && n.fence == s.fence && n.highest == s.highest && n.nextSequence == s.nextSequence
  {
  }

  /** An accepted start is remembered and changes nothing else. */
  lemma StartRemembers(s: State, t: Target, first: u32)
    requires LiveIsCurrent(s) && s.current == Some(t) && PlaybackStarted(s, t, first).reply.Event?
    ensures var g := t.generation;
            PlaybackStarted(s, t, first).state == s.(live := s.live[g := s.live[g].(started := true)])
  {
  }

  /** Of a buried playback only its terminal message may still arrive, once. */
  lemma BuriedDecides(s: State, t: Target, i: int)
    requires LiveIsCurrent(s) && BuriedEnded(s) && !s.closed && t.generation !in s.live
    requires i == TombstoneOf(s.tombstones, t.generation) && i >= 0 && s.tombstones[i].target == t
    ensures forall fence: nat, cause :: AcceptControl(s, PlaybackStop(t, fence, cause)).reply.Rejected?
    ensures forall first: u32 :: PlaybackStarted(s, t, first).reply.Rejected?
    ensures forall outcome, played: u64, last :: PlaybackEnded(s, t, outcome, played, last).reply.Rejected?
    ensures forall ending, final: nat :: AcceptControl(s, ResponseEnd(t, ending, final)).reply.Event? <==> !s.tombstones[i].terminal
    ensures forall ending: Ending, final: nat :: !s.tombstones[i].terminal ==>
              var p := s.tombstones[i].(terminal := true, final := if ending.Completed? then Some(final) else s.tombstones[i].final);
              AcceptControl(s, ResponseEnd(t, ending, final)).state == s.(tombstones := s.tombstones[i := p])
  {
  }

  /** A close is accepted once; after it every message and every media frame is rejected. */
  lemma CloseDecides(s: State)
    ensures AcceptControl(s, SessionClose).reply.Event? <==> !s.closed
    ensures !s.closed ==> AcceptControl(s, SessionClose).state == s.(closed := true)
    ensures s.closed ==> (forall m: Message :: AcceptControl(s, m) == Step(s, Rejected)) && forall f: Media :: AcceptMedia(s, f) == Step(s, Rejected)
  {
  }
}
