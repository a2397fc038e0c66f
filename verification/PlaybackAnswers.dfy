/**
 What the playback state must answer, over every run: when a response completes, when its
 drain comes due, and which operations are accepted.
 */
module PlaybackAnswers {
  import opened Machine
  import opened Playback
  import opened PlaybackRuns

  // ---- Completion ----------------------------------------------------------------------------------

  /** The response of generation g was announced to end with a sequence, and that sequence was finished. */
  predicate PlayedOut(h: History, g: u32) {
    g in h.finals && (g, h.finals[g]) in h.finished
  }

  /** Its end was reported with this outcome. */
  ghost predicate Reported(h: History, g: u32, ending: Ending) {
    exists i :: 0 <= i < |h.facts| && h.facts[i].Ended? && h.facts[i].target.generation == g && h.facts[i].ending == ending
  }

  function Deserved(h: History, g: u32): Ending {
    if g in h.degraded then Failed else Completed
  }

  /** What was finished belongs to the past, or is not beyond the last finished frame of the response in progress. */
  ghost predicate FinishedTracked(h: History) {
    var s := h.state;
    && (forall p :: p in h.finished ==>
          p.0 <= s.fence || (s.active && p.0 == s.target.generation && s.lastCompleted.Some? && p.1 <= s.lastCompleted.value))
    && (s.active && s.lastCompleted.Some? ==> (s.target.generation, s.lastCompleted.value) in h.finished)
    && (s.active && s.final.Some? ==> (s.target.generation, s.final.value) !in h.finished)
  }

  /** Responses that played out were reported as they deserve, and only they as completed. */
  ghost predicate OutcomesTrue(h: History) {
    && (forall g: u32 :: PlayedOut(h, g) ==> Reported(h, g, Deserved(h, g)))
    && (forall i :: 0 <= i < |h.facts| && h.facts[i].Ended? && h.facts[i].ending.Completed? ==> PlayedOut(h, h.facts[i].target.generation))
  }

  ghost predicate Answered(h: History) {
    Kept(h) && FinishedTracked(h) && OutcomesTrue(h)
  }

  /** A response in progress has not played out. */
  lemma NotYet(h: History)
    requires Answered(h) && h.state.active
    ensures !PlayedOut(h, h.state.target.generation)
  {
    var g := h.state.target.generation;
    if g in h.finals {
      assert h.state.final == Some(h.finals[g]);
    }
  }

  /** The evidence about past responses is settled: a step changes only what concerns the response in progress. */
  ghost predicate PastKept(h: History, r: History, g: u32) {
    && (g in r.finals <==> g in h.finals) && (g in h.finals ==> r.finals[g] == h.finals[g])
    && (forall q: u32 :: (g, q) in r.finished <==> (g, q) in h.finished)
    && (g in r.degraded <==> g in h.degraded)
  }

  lemma StepKeepsPast(h: History, op: Op, g: u32)
    requires Answered(h)
    requires g <= h.state.fence || !h.state.active || g != h.state.target.generation
    ensures PastKept(h, Step(h, op), g)
    ensures h.facts <= Step(h, op).facts
  {
  }

  lemma ReportedStays(h: History, r: History, g: u32, ending: Ending)
    requires Reported(h, g, ending) && h.facts <= r.facts
    ensures Reported(r, g, ending)
  {
    var i :| 0 <= i < |h.facts| && h.facts[i].Ended? && h.facts[i].target.generation == g && h.facts[i].ending == ending;
    assert r.facts[i] == h.facts[i];
  }

  /** The operation by which the response in progress plays out reports its end at once, and only then. */
  lemma PlaysOutNow(h: History, op: Op)
    requires Answered(h) && h.state.active
    ensures var g, r := h.state.target.generation, Step(h, op);
            && (PlayedOut(r, g) ==>
                  r.facts == h.facts + [Ended(h.state.target, if h.state.degraded then Failed else Completed, h.written[g], Some(r.finals[g]))])
            && (!PlayedOut(r, g) ==>
                  forall i :: |h.facts| <= i < |r.facts| ==> !(r.facts[i].Ended? && r.facts[i].ending.Completed?))
  {
    NotYet(h);
    match op {
      case OpFinal(t, f, now) => FinalPlaysOut(h, t, f, now);
      case OpFinish(q) => FinishPlaysOut(h, q);
      case _ => OtherPlaysOut(h, op);
    }
  }

  lemma FinalPlaysOut(h: History, t: Target, f: u32, now: int)
    requires Answered(h) && h.state.active && !PlayedOut(h, h.state.target.generation)
    ensures var g, r := h.state.target.generation, Step(h, OpFinal(t, f, now));
            if PlayedOut(r, g) then
              r.facts == h.facts + [Ended(h.state.target, if h.state.degraded then Failed else Completed, h.written[g], Some(r.finals[g]))]
            else r.facts == h.facts
  {
  }

  lemma FinishPlaysOut(h: History, q: u32)
    requires Answered(h) && h.state.active && !PlayedOut(h, h.state.target.generation)
    ensures var g, r := h.state.target.generation, Step(h, OpFinish(q));
            if PlayedOut(r, g) then
              r.facts == h.facts + [Ended(h.state.target, if h.state.degraded then Failed else Completed, h.written[g], Some(r.finals[g]))]
            else r.facts == h.facts
  {
  }

  lemma OtherPlaysOut(h: History, op: Op)
    requires Answered(h) && h.state.active && !PlayedOut(h, h.state.target.generation) && !op.OpFinal? && !op.OpFinish?
    ensures var r := Step(h, op);
            && !PlayedOut(r, h.state.target.generation)
            && forall i :: |h.facts| <= i < |r.facts| ==> !(r.facts[i].Ended? && r.facts[i].ending.Completed?)
  {
  }

  lemma StepTracked(h: History, op: Op)
    requires Answered(h)
    ensures FinishedTracked(Step(h, op))
  {
    match op {
      case OpFinal(t, f, now) => FinalTracked(h, t, f, now);
      case OpFinish(q) => FinishTracked(h, q);
      case OpBegin(t) => BeginTracked(h, t);
      case _ => OtherTracked(h, op);
    }
  }

  lemma BeginTracked(h: History, t: Target)
    requires Answered(h)
    ensures FinishedTracked(Step(h, OpBegin(t)))
  {
  }

  lemma FinalTracked(h: History, t: Target, f: u32, now: int)
    requires Answered(h)
    ensures FinishedTracked(Step(h, OpFinal(t, f, now)))
  {
  }

  lemma FinishTracked(h: History, q: u32)
    requires Answered(h)
    ensures FinishedTracked(Step(h, OpFinish(q)))
  {
  }

  lemma OtherTracked(h: History, op: Op)
    requires Answered(h) && !op.OpFinal? && !op.OpFinish? && !op.OpBegin?
    ensures FinishedTracked(Step(h, op))
  {
    ApplyConsistent(h.state, op);
  }

  lemma StepOutcomes(h: History, op: Op)
    requires Answered(h)
    ensures OutcomesTrue(Step(h, op))
  {
    var r := Step(h, op);
    var current := if h.state.active then Some(h.state.target.generation) else None;
    if h.state.active {
      PlaysOutNow(h, op);
    } else {
      IdleReports(h, op);
    }
    forall g: u32 | PlayedOut(r, g)
      ensures Reported(r, g, Deserved(r, g))
    {
      if current == Some(g) {
        assert r.facts[|h.facts|].Ended? && r.facts[|h.facts|].target.generation == g;
        PlayedOutDegraded(h, op);
      } else {
        StepKeepsPast(h, op, g);
        ReportedStays(h, r, g, Deserved(h, g));
      }
    }
    forall i | 0 <= i < |r.facts| && r.facts[i].Ended? && r.facts[i].ending.Completed?
      ensures PlayedOut(r, r.facts[i].target.generation)
    {
      OldCompletionsStay(h, op, i);
    }
  }

  /** An operation that plays a response out does not change whether it was degraded. */
  lemma PlayedOutDegraded(h: History, op: Op)
    requires Answered(h) && h.state.active && PlayedOut(Step(h, op), h.state.target.generation)
    ensures Deserved(Step(h, op), h.state.target.generation) == if h.state.degraded then Failed else Completed
  {
    NotYet(h);
  }

  lemma IdleReports(h: History, op: Op)
    requires Answered(h) && !h.state.active
    ensures Step(h, op).facts == h.facts
  {
  }

  lemma OldCompletionsStay(h: History, op: Op, i: nat)
    requires Answered(h) && i < |Step(h, op).facts|
    requires Step(h, op).facts[i].Ended? && Step(h, op).facts[i].ending.Completed?
    ensures PlayedOut(Step(h, op), Step(h, op).facts[i].target.generation)
  {
    var r := Step(h, op);
    if i < |h.facts| {
      var g := h.facts[i].target.generation;
      StepKeepsPast(h, op, h.state.fence);
      assert r.facts[i] == h.facts[i];
      StepKeepsPast(h, op, g);
    } else if h.state.active {
      PlaysOutNow(h, op);
    } else {
      IdleReports(h, op);
    }
  }

  lemma {:induction false} RunAnswered(h: History, ops: seq<Op>)
    requires Answered(h)
    ensures Answered(Steps(h, ops))
    decreases |ops|
  {
    if ops != [] {
      StepKept(h, ops[0]);
      StepTracked(h, ops[0]);
      StepOutcomes(h, ops[0]);
      RunAnswered(Step(h, ops[0]), ops[1..]);
    }
  }

  /**
   In every run a response is reported as completed if and only if it was announced to end with
   a sequence, that sequence was finished, in whichever order, and it was never degraded.
   */
  lemma CompletedIff(ops: seq<Op>, g: u32)
    ensures var h := Steps(START, ops); Reported(h, g, Completed) <==> PlayedOut(h, g) && g !in h.degraded
  {
    RunAnswered(START, ops);
    var h := Steps(START, ops);
    if Reported(h, g, Completed) {
      var i :| 0 <= i < |h.facts| && h.facts[i].Ended? && h.facts[i].target.generation == g && h.facts[i].ending == Completed;
      EndFactsAreEvidence(ops, i);
    }
  }

  /** A degraded response that plays out is reported as failed. */
  lemma DegradedFails(ops: seq<Op>, g: u32)
    requires PlayedOut(Steps(START, ops), g) && g in Steps(START, ops).degraded
    ensures Reported(Steps(START, ops), g, Failed)
  {
    RunAnswered(START, ops);
  }

  // ---- The drain deadline --------------------------------------------------------------------------

  /** The response in progress, its announced end and its deadline. */
  ghost predicate Drains(h: History, g: u32, final: u32, deadline: int) {
    Over(h, g) || (h.state.active && h.state.target.generation == g && h.state.final == Some(final) && h.state.deadline == deadline)
  }

  lemma StepDrains(h: History, op: Op, g: u32, final: u32, deadline: int)
    requires Kept(h) && Drains(h, g, final, deadline)
    ensures Drains(Step(h, op), g, final, deadline)
  {
    if Over(h, g) || !Step(h, op).state.active {
      StepOver(h, op, g);
    }
  }

  lemma {:induction false} RunDrains(h: History, ops: seq<Op>, g: u32, final: u32, deadline: int)
    requires Kept(h) && Drains(h, g, final, deadline)
    ensures Kept(Steps(h, ops)) && Drains(Steps(h, ops), g, final, deadline)
    decreases |ops|
  {
    if ops != [] {
      StepKept(h, ops[0]);
      StepDrains(h, ops[0], g, final, deadline);
      RunDrains(Step(h, ops[0]), ops[1..], g, final, deadline);
    }
  }

  /**
   A response announced at `now` comes due 1.5 s later and not before: until then neither drain
   operation succeeds, and from then on, while it is still in progress, exactly one does.
   */
  lemma DrainComesDue(h: History, f: u32, now: int, mid: seq<Op>, later: int)
    requires Kept(h) && h.state.active && SetFinal(h.state, h.state.target, f, now).ok
    requires now + 1_500_000 <= 0x7fff_ffff_ffff_ffff
    ensures var m := Steps(Step(h, OpFinal(h.state.target, f, now)), mid);
            Over(m, h.state.target.generation) ||
            ((RequestFinalPlc(m.state, later).ok || ExpireDrain(m.state, later).ok) <==> later >= now + 1_500_000)
  {
    var t, n := h.state.target, Step(h, OpFinal(h.state.target, f, now));
    StepKept(h, OpFinal(t, f, now));
    AnnouncementDrains(h, f, now);
    RunDrains(n, mid, t.generation, f, now + 1_500_000);
  }

  lemma AnnouncementDrains(h: History, f: u32, now: int)
    requires Kept(h) && h.state.active && SetFinal(h.state, h.state.target, f, now).ok
    requires now + 1_500_000 <= 0x7fff_ffff_ffff_ffff
    ensures Drains(Step(h, OpFinal(h.state.target, f, now)), h.state.target.generation, f, now + 1_500_000)
  {
    if !Step(h, OpFinal(h.state.target, f, now)).state.active {
      StepOver(h, OpFinal(h.state.target, f, now), h.state.target.generation);
    }
  }

  // ---- Acceptance ----------------------------------------------------------------------------------

  /** A response begins exactly when none is in progress and its generation is past the fence, and then is to be played. */
  lemma BeginIff(ops: seq<Op>, t: Target)
    ensures var s := Steps(START, ops).state;
            && (Begin(s, t).ok <==> !s.active && t.id != "" && t.generation > s.fence)
            && (Begin(s, t).ok ==> CanPlay(Begin(s, t).state, t.generation))
  {
    RunKept(START, ops);
  }

  /** The fence an end leaves: that of the stop, else the generation that ended. */
  ghost function FenceAfter(before: u32, op: Op, fact: Option<Fact>): u32 {
    if fact.None? || fact.value.Started? then before
    else if op.OpStop? then op.fence
    else fact.value.target.generation
  }

  /** The fence that a list of operations leaves, from its facts alone. */
  ghost function FenceOf(h: History, before: u32, ops: seq<Op>): u32
    decreases |ops|
  {
    if ops == [] then before else FenceOf(Step(h, ops[0]), FenceAfter(before, ops[0], Apply(h.state, ops[0]).fact), ops[1..])
  }

  lemma FenceMoves(s: State, op: Op)
    ensures Apply(s, op).state.fence == FenceAfter(s.fence, op, Apply(s, op).fact)
  {
  }

  lemma {:induction false} RunFence(h: History, ops: seq<Op>)
    ensures Steps(h, ops).state.fence == FenceOf(h, h.state.fence, ops)
    decreases |ops|
  {
    if ops != [] {
      FenceMoves(h.state, ops[0]);
      RunFence(Step(h, ops[0]), ops[1..]);
    }
  }

  /** From 0 on, the fence is what the last end left: every response is open to the first begin. */
  lemma FenceIsLastEnd(ops: seq<Op>)
    ensures Steps(START, ops).state.fence == FenceOf(START, 0, ops)
  {
    RunFence(START, ops);
  }

  /** The response in progress is stopped exactly by a fence past its generation, which then is the fence. */
  lemma StopIff(ops: seq<Op>, t: Target, fence: u32)
    requires Steps(START, ops).state.active
    ensures var s, r := Steps(START, ops).state, Stop(Steps(START, ops).state, t, fence);
            && (r.ok <==> t == s.target && fence > t.generation)
            && (r.ok ==> r.state.fence == fence && !r.state.active
                         && r.fact == Some(Ended(t, Stopped, s.played, if s.started then s.lastSample else None)))
            && (!r.ok ==> r == Refused(s))
  {
    RunKept(START, ops);
    NoStopInProgress(START, ops);
  }

  /** A response in progress has no stop on record. */
  lemma {:induction false} NoStopInProgress(h: History, ops: seq<Op>)
    requires h.state.active ==> !h.state.stopRecorded
    ensures Steps(h, ops).state.active ==> !Steps(h, ops).state.stopRecorded
    decreases |ops|
  {
    if ops != [] {
      NoStopInProgress(Step(h, ops[0]), ops[1..]);
    }
  }

  /** Samples are recorded exactly for the response in progress, forward, up to its announced end, and without overflow. */
  lemma WrittenIff(s: State, q: u32, samples: nat)
    ensures var r := RecordWritten(s, q, samples);
            && (r.ok <==> s.active && samples > 0 && s.played + samples < 0x1_0000_0000_0000_0000
                          && (s.lastSample.Some? ==> q >= s.lastSample.value) && (s.final.Some? ==> q <= s.final.value))
            && (r.ok ==> r.state == s.(played := s.played + samples, lastSample := Some(q), started := true))
            && (r.ok && !s.started ==> r.fact == Some(Started(s.target, s.played + samples, q)))
            && (!r.ok || s.started ==> r.fact == None)
  {
  }

  /** A frame is finished exactly when it is the one written last, not finished before, and not past the announced end. */
  lemma FinishIff(s: State, q: u32)
    ensures FinishFrame(s, q).ok <==>
              && s.active && s.started && s.lastSample == Some(q)
              && (s.lastCompleted.Some? ==> q > s.lastCompleted.value) && (s.final.Some? ==> q <= s.final.value)
  {
  }

  /** The final concealment is granted exactly once, when due, to a started response of which only the final frame is missing. */
  lemma FinalPlcIff(s: State, now: int)
    ensures var r := RequestFinalPlc(s, now);
            && (r.ok <==> s.active && s.started && !s.plcRequested && s.deadline != 0 && now >= s.deadline
                          && s.final.Some? && s.lastCompleted.Some? && s.lastCompleted.value + 1 == s.final.value)
            && (r.ok ==> r.state == s.(plcRequested := true)) && (!r.ok ==> r.state == s) && r.fact.None?
  {
  }

  /** A drain expires exactly when due and no concealment is still to be granted; the response then failed. */
  lemma ExpireIff(s: State, now: int)
    ensures var r := ExpireDrain(s, now);
            && (r.ok <==> s.active && s.final.Some? && s.deadline != 0 && now >= s.deadline
                          && (s.plcRequested || !s.started || s.lastCompleted.None? || s.lastCompleted.value + 1 != s.final.value))
            && (r.ok ==> r.fact == Some(Ended(s.target, Failed, s.played, if s.started then s.lastSample else None)) && !r.state.active
                         && r.state.fence == s.target.generation)
            && (!r.ok ==> r == Refused(s))
  {
  }

  /** An active response can be failed or marked as degraded at any time, and only an active one. */
  lemma FailIff(s: State)
    ensures Fail(s).ok <==> s.active
    ensures s.active ==> Fail(s).fact == Some(Ended(s.target, Failed, s.played, if s.started then s.lastSample else None))
                         && !Fail(s).state.active && Fail(s).state.fence == s.target.generation
    ensures MarkDegraded(s).ok <==> s.active
    ensures s.active ==> MarkDegraded(s).state == s.(degraded := true) && MarkDegraded(s).fact.None?
    ensures !s.active ==> Fail(s) == Refused(s) && MarkDegraded(s) == Refused(s)
  {
  }

  /** The stop of a response is on record, and none has begun since. */
  predicate StoppedAt(s: State, t: Target, fence: u32) {
    !s.active && s.stopRecorded && s.target == t && s.lastStopFence == fence
  }

  lemma StepStaysStopped(h: History, op: Op, t: Target, fence: u32)
    requires StoppedAt(h.state, t, fence)
    ensures StoppedAt(Step(h, op).state, t, fence) || |Step(h, op).begun| > |h.begun|
    ensures |Step(h, op).begun| >= |h.begun|
  {
  }

  lemma {:induction false} BegunGrows(h: History, ops: seq<Op>)
    ensures |Steps(h, ops).begun| >= |h.begun|
    decreases |ops|
  {
    if ops != [] {
      BegunGrows(Step(h, ops[0]), ops[1..]);
    }
  }

  lemma {:induction false} StaysStopped(h: History, ops: seq<Op>, t: Target, fence: u32)
    requires StoppedAt(h.state, t, fence) && |Steps(h, ops).begun| == |h.begun|
    ensures StoppedAt(Steps(h, ops).state, t, fence)
    decreases |ops|
  {
    if ops != [] {
      StepStaysStopped(h, ops[0], t, fence);
      BegunGrows(Step(h, ops[0]), ops[1..]);
      StaysStopped(Step(h, ops[0]), ops[1..], t, fence);
    }
  }

  /**
   After a response was stopped, and whatever follows until the next one begins, its stop is
   accepted again exactly when it repeats the fence; it then reports and changes nothing.
   */
  lemma StopRepeats(ops: seq<Op>, t: Target, fence: u32, later: seq<Op>, again: u32)
    requires Steps(START, ops).state.active && Stop(Steps(START, ops).state, t, fence).ok
    requires var h := Step(Steps(START, ops), OpStop(t, fence)); |Steps(h, later).begun| == |h.begun|
    ensures var s := Steps(Step(Steps(START, ops), OpStop(t, fence)), later).state;
            Stop(s, t, again) == Outcome(s, again == fence, None)
  {
    NoStopInProgress(START, ops);
    StaysStopped(Step(Steps(START, ops), OpStop(t, fence)), later, t, fence);
  }

  /** The end is announced exactly once, to the response in progress, and not before what was written or finished; it must play out within 1.5 s. */
  lemma AnnounceIff(s: State, t: Target, f: u32, now: int)
    ensures SetFinal(s, t, f, now).ok <==>
              && now >= 0 && s.active && t == s.target && s.final.None?
              && (s.lastSample.Some? ==> s.lastSample.value <= f) && (s.lastCompleted.Some? ==> s.lastCompleted.value <= f)
    ensures SetFinal(s, t, f, now).ok && SetFinal(s, t, f, now).state.active ==>
              SetFinal(s, t, f, now).state.deadline == if now + 1_500_000 < 0x8000_0000_0000_0000 then now + 1_500_000 else 0x7FFF_FFFF_FFFF_FFFF
  {
  }

  /** Frames of the response in progress, past the fence, may be played. */
  lemma CanPlayIff(ops: seq<Op>, g: u32)
    ensures var s := Steps(START, ops).state; CanPlay(s, g) <==> s.active && g == s.target.generation
  {
    RunKept(START, ops);
  }
}
