/** Whole runs of the playback state between two resets. */
module PlaybackRuns {
  import opened Machine
  import opened Playback

  datatype Op =
    | OpBegin(target: Target)
    | OpFinal(target: Target, final: u32, now: int)
    | OpStop(target: Target, fence: u32)
    | OpFail
    | OpDegraded
    | OpFinalPlc(now: int)
    | OpExpire(now: int)
    | OpWritten(sequence: u32, samples: nat)
    | OpFinish(sequence: u32)

  function Apply(s: State, op: Op): Outcome {
    match op
    case OpBegin(t) => Begin(s, t)
    case OpFinal(t, f, now) => SetFinal(s, t, f, now)
    case OpStop(t, fence) => Stop(s, t, fence)
    case OpFail => Fail(s)
    case OpDegraded => MarkDegraded(s)
    case OpFinalPlc(now) => RequestFinalPlc(s, now)
    case OpExpire(now) => ExpireDrain(s, now)
    case OpWritten(q, n) => RecordWritten(s, q, n)
    case OpFinish(q) => FinishFrame(s, q)
  }

  /** What happened since the last reset, by response generation where several matter; `finished` pairs it with a sequence. */
  datatype History = History(
    state: State, begun: seq<u32>, facts: seq<Fact>, degraded: set<u32>, finals: map<u32, u32>, written: map<u32, nat>, plcs: seq<u32>,
    finished: set<(u32, u32)>)

  const START := History(IDLE, [], [], {}, map[], map[], [], {})

  function Step(h: History, op: Op): History {
    var o := Apply(h.state, op);
    var g := h.state.target.generation;
    History(o.state,
            if op.OpBegin? && o.ok then h.begun + [op.target.generation] else h.begun,
            if o.fact.Some? then h.facts + [o.fact.value] else h.facts,
            if op.OpDegraded? && o.ok then h.degraded + {g} else h.degraded,
            if op.OpFinal? && o.ok then h.finals[g := op.final] else h.finals,
            if op.OpBegin? && o.ok then h.written[op.target.generation := 0]
            else if op.OpWritten? && o.ok && g in h.written then h.written[g := h.written[g] + op.samples] else h.written,
            if op.OpFinalPlc? && o.ok then h.plcs + [g] else h.plcs,
            if op.OpFinish? && o.ok then h.finished + {(g, op.sequence)} else h.finished)
  }

  function Steps(h: History, ops: seq<Op>): History
    decreases |ops|
  {
    if ops == [] then h else Steps(Step(h, ops[0]), ops[1..])
  }

  /** Evidence within one response: samples, sequences and flags agree. */
  ghost predicate Consistent(s: State) {
    && (s.active ==> s.target.generation > s.fence)
    && (s.started ==> s.active)
    && (s.started <==> s.lastSample.Some?) && (s.started <==> s.played > 0)
    && (s.lastCompleted.Some? ==> s.lastSample.Some? && s.lastCompleted.value <= s.lastSample.value)
    && (s.final.Some? ==> s.active && s.deadline > 0)
  }

  /** A recorded final fact is what the history of its response calls for. */
  ghost predicate Justified(h: History, f: Fact) {
    f.Ended? ==>
      && (f.played > 0 <==> f.last.Some?)
      && f.target.generation in h.written && f.played == h.written[f.target.generation]
      && (f.ending.Completed? ==>
            f.target.generation !in h.degraded && f.target.generation in h.finals && f.last == Some(h.finals[f.target.generation]))
  }

  /** Two facts about one response are its start followed by its end. */
  ghost predicate FactsOrdered(facts: seq<Fact>) {
    forall i, j :: 0 <= i < j < |facts| ==>
      && facts[i].target.generation <= facts[j].target.generation
      && (facts[i].target.generation == facts[j].target.generation ==> facts[i].Started? && facts[j].Ended?)
  }

  /** How the record relates to the response in progress. */
  ghost predicate Current(h: History) {
    var s := h.state;
    && (forall i :: 0 <= i < |h.facts| ==>
          h.facts[i].target.generation <= s.fence
          || (s.active && h.facts[i].target.generation == s.target.generation && h.facts[i].Started? && s.started))
    && (forall i :: 0 <= i < |h.begun| ==> h.begun[i] <= s.fence || (s.active && h.begun[i] == s.target.generation))
    && (forall i :: 0 <= i < |h.plcs| ==>
          h.plcs[i] <= s.fence || (s.active && h.plcs[i] == s.target.generation && s.plcRequested))
    && (forall g :: g in h.degraded ==> g <= s.fence || (s.active && g == s.target.generation && s.degraded))
    && (forall g :: g in h.finals ==> g <= s.fence || (s.active && g == s.target.generation && s.final == Some(h.finals[g])))
    && (forall g :: g in h.written ==> g <= s.fence || (s.active && g == s.target.generation))
    && (s.active ==> s.target.generation in h.written && h.written[s.target.generation] == s.played)
    && (s.active && s.final.Some? ==> s.target.generation in h.finals)
    && (s.active && s.degraded <==> s.active && s.target.generation in h.degraded)
  }

  ghost predicate Kept(h: History) {
    && Consistent(h.state) && Current(h)
    && Increasing(h.begun) && FactsOrdered(h.facts) && Increasing(h.plcs)
    && forall i :: 0 <= i < |h.facts| ==> Justified(h, h.facts[i])
  }

  lemma ApplyConsistent(s: State, op: Op)
    requires Consistent(s)
    ensures Consistent(Apply(s, op).state)
    ensures Apply(s, op).state.fence >= s.fence
  {
  }

  // ---- Preservation ------------------------------------------------------------------------

  lemma BeginKept(h: History, t: Target)
    requires Kept(h)
    ensures Kept(Step(h, OpBegin(t)))
  {
    ApplyConsistent(h.state, OpBegin(t));
    var r := Step(h, OpBegin(t));
    if Begin(h.state, t).ok {
      assert Current(r);
      JustifiedStays(h, r);
    }
  }

  /** Facts already recorded stay justified when only the response in progress gains evidence. */
  lemma JustifiedStays(h: History, r: History)
    requires Kept(h)
    requires forall g :: g in r.degraded && g <= h.state.fence ==> g in h.degraded
    requires forall g :: g in h.finals && g <= h.state.fence ==> g in r.finals && r.finals[g] == h.finals[g]
    requires forall g :: g in h.written && g <= h.state.fence ==> g in r.written && r.written[g] == h.written[g]
    ensures forall i :: 0 <= i < |h.facts| ==> Justified(r, h.facts[i])
  {
  }

  lemma FactRecorded(h: History, f: Fact)
    requires Kept(h) && h.state.active && f.target == h.state.target
    requires f.Started? ==> !h.state.started
    ensures FactsOrdered(h.facts + [f])
  {
    var all := h.facts + [f];
    forall i, j | 0 <= i < j < |all|
      ensures all[i].target.generation <= all[j].target.generation
      ensures all[i].target.generation == all[j].target.generation ==> all[i].Started? && all[j].Ended?
    {
      if j < |h.facts| {
        assert h.facts[i].target.generation <= h.facts[j].target.generation;
      }
    }
  }

  /** A completed end needs a clean record whose last sample is the announced final sequence. */
  ghost predicate MayComplete(s: State) {
    s.active && !s.degraded && s.final.Some? && s.started && s.lastSample == s.final
  }

  lemma EndKept(h: History, ending: Ending)
    requires Kept(h) && h.state.active && !ending.Stopped? && (ending.Completed? ==> MayComplete(h.state))
    ensures Kept(h.(state := AfterEnd(h.state, ending), facts := h.facts + [EndFact(h.state, ending)]))
  {
    var f := EndFact(h.state, ending);
    var r := h.(state := AfterEnd(h.state, ending), facts := h.facts + [f]);
    FactRecorded(h, f);
    JustifiedStays(h, r);
    assert Justified(r, f);
    assert Current(r);
  }

  lemma StopKept(h: History, t: Target, fence: u32)
    requires Kept(h)
    ensures Kept(Step(h, OpStop(t, fence)))
  {
    ApplyConsistent(h.state, OpStop(t, fence));
    var o := Stop(h.state, t, fence);
    var r := Step(h, OpStop(t, fence));
    if o.fact.Some? {
      FactRecorded(h, o.fact.value);
      JustifiedStays(h, r);
      assert Justified(r, o.fact.value);
      assert Current(r);
    } else {
      assert r == h;
    }
  }

  /** Announcing the final sequence without ending. */
  lemma AnnouncedKept(h: History, final: u32, deadline: int)
    requires Kept(h) && h.state.active && h.state.final.None? && deadline > 0
    ensures var r := h.(state := h.state.(final := Some(final), deadline := deadline),
                        finals := h.finals[h.state.target.generation := final]); Kept(r)
  {
    var r := h.(state := h.state.(final := Some(final), deadline := deadline), finals := h.finals[h.state.target.generation := final]);
    assert Consistent(r.state);
    assert Current(r);
    JustifiedStays(h, r);
  }

  lemma FinalKept(h: History, t: Target, final: u32, now: int)
    requires Kept(h)
    ensures Kept(Step(h, OpFinal(t, final, now)))
  {
    var o := SetFinal(h.state, t, final, now);
    if o.ok {
      var deadline := if now > I64_MAX - DRAIN_DEADLINE_US then I64_MAX else now + DRAIN_DEADLINE_US;
      AnnouncedKept(h, final, deadline);
      var r := h.(state := h.state.(final := Some(final), deadline := deadline), finals := h.finals[h.state.target.generation := final]);
      if o.fact.Some? {
        EndKept(r, if h.state.degraded then Failed else Completed);
      }
    }
  }

  lemma CompletedFrameKept(h: History, q: u32)
    requires Kept(h) && h.state.active && h.state.lastSample == Some(q)
    ensures Kept(h.(state := h.state.(lastCompleted := Some(q)), finished := h.finished + {(h.state.target.generation, q)}))
  {
    var r := h.(state := h.state.(lastCompleted := Some(q)), finished := h.finished + {(h.state.target.generation, q)});
    assert Consistent(r.state);
    assert Current(r);
    JustifiedStays(h, r);
  }

  lemma FinishKept(h: History, q: u32)
    requires Kept(h)
    ensures Kept(Step(h, OpFinish(q)))
  {
    var o := FinishFrame(h.state, q);
    if o.ok {
      CompletedFrameKept(h, q);
      if o.fact.Some? {
        EndKept(h.(state := h.state.(lastCompleted := Some(q)), finished := Step(h, OpFinish(q)).finished),
                if h.state.degraded then Failed else Completed);
      }
    }
  }

  lemma WrittenKept(h: History, q: u32, samples: nat)
    requires Kept(h)
    ensures Kept(Step(h, OpWritten(q, samples)))
  {
    ApplyConsistent(h.state, OpWritten(q, samples));
    var o := RecordWritten(h.state, q, samples);
    var r := Step(h, OpWritten(q, samples));
    if o.ok {
      if o.fact.Some? {
        FactRecorded(h, o.fact.value);
      }
      JustifiedStays(h, r);
      assert Current(r);
    } else {
      assert r == h;
    }
  }

  lemma DegradedKept(h: History)
    requires Kept(h)
    ensures Kept(Step(h, OpDegraded))
  {
    ApplyConsistent(h.state, OpDegraded);
    var r := Step(h, OpDegraded);
    JustifiedStays(h, r);
    assert Current(r);
  }

  lemma PlcKept(h: History, now: int)
    requires Kept(h)
    ensures Kept(Step(h, OpFinalPlc(now)))
  {
    ApplyConsistent(h.state, OpFinalPlc(now));
    var r := Step(h, OpFinalPlc(now));
    JustifiedStays(h, r);
    assert Current(r);
  }

  lemma StepKept(h: History, op: Op)
    requires Kept(h)
    ensures Kept(Step(h, op))
  {
    match op {
      case OpBegin(t) => BeginKept(h, t);
      case OpFinal(t, f, now) => FinalKept(h, t, f, now);
      case OpStop(t, fence) => StopKept(h, t, fence);
      case OpFail =>
        if h.state.active {
          EndKept(h, Failed);
        }
      case OpDegraded => DegradedKept(h);
      case OpFinalPlc(now) => PlcKept(h, now);
      case OpExpire(now) =>
        if ExpireDrain(h.state, now).ok {
          EndKept(h, Failed);
        }
      case OpWritten(q, n) => WrittenKept(h, q, n);
      case OpFinish(q) => FinishKept(h, q);
    }
  }

  lemma {:induction false} RunKept(h: History, ops: seq<Op>)
    requires Kept(h)
    ensures Kept(Steps(h, ops))
    decreases |ops|
  {
    if ops != [] {
      StepKept(h, ops[0]);
      RunKept(Step(h, ops[0]), ops[1..]);
    }
  }

  // ---- Main results ----------------------------------------------------------------------------

  /** Begun generations strictly increase. */
  lemma GenerationsIncrease(ops: seq<Op>, i: nat, j: nat)
    requires i < j < |Steps(START, ops).begun|
    ensures Steps(START, ops).begun[i] < Steps(START, ops).begun[j]
  {
    RunKept(START, ops);
  }

  /** The fence never goes back, from any reachable state on. */
  lemma {:induction false} FenceNeverDecreases(h: History, ops: seq<Op>)
    requires Kept(h)
    ensures Steps(h, ops).state.fence >= h.state.fence
    decreases |ops|
  {
    if ops != [] {
      ApplyConsistent(h.state, ops[0]);
      StepKept(h, ops[0]);
      FenceNeverDecreases(Step(h, ops[0]), ops[1..]);
    }
  }

  /** Each response emits at most a start and then at most an end, and responses do not overlap. */
  lemma OneStartThenOneEnd(ops: seq<Op>, i: nat, j: nat)
    requires i < j < |Steps(START, ops).facts|
    ensures var f, g := Steps(START, ops).facts[i], Steps(START, ops).facts[j];
            && f.target.generation <= g.target.generation
            && (f.target.generation == g.target.generation ==> f.Started? && g.Ended?)
  {
    RunKept(START, ops);
  }

  /**
   Every end fact reports exactly the samples written, passes the encoder up to its sample
   bound, and if completed was never degraded and ends at the announced final sequence.
   */
  lemma EndFactsAreEvidence(ops: seq<Op>, i: nat)
    requires i < |Steps(START, ops).facts| && Steps(START, ops).facts[i].Ended?
    ensures var h := Steps(START, ops); var f := h.facts[i]; var g := f.target.generation;
            && (Encodable(f) <==> f.played <= 9007199254740991)
            && g in h.written && f.played == h.written[g]
            && (f.ending.Completed? ==> g !in h.degraded && g in h.finals && f.last == Some(h.finals[g]))
  {
    RunKept(START, ops);
    var h := Steps(START, ops);
    assert Justified(h, h.facts[i]);
  }

  /** Final concealment is requested at most once per response. */
  lemma OneFinalPlc(ops: seq<Op>, i: nat, j: nat)
    requires i < j < |Steps(START, ops).plcs|
    ensures Steps(START, ops).plcs[i] != Steps(START, ops).plcs[j]
  {
    RunKept(START, ops);
  }

  /** Once the drain deadline has passed, exactly one of the two drain operations succeeds. */
  lemma ExactlyOneDrains(s: State, now: int)
    requires DrainDue(s, now)
    ensures RequestFinalPlc(s, now).ok <==> !ExpireDrain(s, now).ok
    ensures RequestFinalPlc(s, now).ok <==> PlcEligible(s) && !s.plcRequested
  {
  }

  // ---- Draining ----------------------------------------------------------------------------

  /** One turn of the playback task with no frame to play: ask for the final concealment, else expire the drain. */
  function Poll(h: History, now: int): History {
    if RequestFinalPlc(h.state, now).ok then Step(h, OpFinalPlc(now)) else Step(h, OpExpire(now))
  }

  /** The response of generation g is over: behind the fence, and its end was reported. */
  ghost predicate Over(h: History, g: u32) {
    && h.state.fence >= g
    && exists i :: 0 <= i < |h.facts| && h.facts[i].Ended? && h.facts[i].target.generation == g
  }

  /** The response is over, or still in progress with its concealment granted and its deadline unchanged. */
  ghost predicate Draining(h: History, g: u32, final: Option<u32>, deadline: int) {
    Over(h, g)
    || (h.state.active && h.state.target.generation == g && h.state.plcRequested && h.state.final == final && h.state.deadline == deadline)
  }

  /** An over response stays over, and the first end reported for a response in progress ends it. */
  lemma StepOver(h: History, op: Op, g: u32)
    requires Kept(h)
    requires Over(h, g) || (h.state.active && h.state.target.generation == g && !Step(h, op).state.active)
    ensures Over(Step(h, op), g)
  {
    ApplyConsistent(h.state, op);
    var r := Step(h, op);
    if Over(h, g) {
      var i :| 0 <= i < |h.facts| && h.facts[i].Ended? && h.facts[i].target.generation == g;
      assert r.facts[i] == h.facts[i];
    } else {
      EndIsReported(h.state, op);
      assert r.facts[|h.facts|].Ended? && r.facts[|h.facts|].target.generation == g;
    }
  }

  /** A response leaves the active state only with an end fact, and the fence then covers it. */
  lemma EndIsReported(s: State, op: Op)
    requires Consistent(s) && s.active && !Apply(s, op).state.active
    ensures var o := Apply(s, op);
            o.fact.Some? && o.fact.value.Ended? && o.fact.value.target == s.target && o.state.fence >= s.target.generation
  {
  }

  lemma StepDraining(h: History, op: Op, g: u32, final: Option<u32>, deadline: int)
    requires Kept(h) && final.Some? && Draining(h, g, final, deadline)
    ensures Draining(Step(h, op), g, final, deadline)
  {
    if Over(h, g) || !Step(h, op).state.active {
      StepOver(h, op, g);
    }
  }

  lemma {:induction false} RunDraining(h: History, ops: seq<Op>, g: u32, final: Option<u32>, deadline: int)
    requires Kept(h) && final.Some? && Draining(h, g, final, deadline)
    ensures Kept(Steps(h, ops)) && Draining(Steps(h, ops), g, final, deadline)
    decreases |ops|
  {
    if ops != [] {
      StepKept(h, ops[0]);
      StepDraining(h, ops[0], g, final, deadline);
      RunDraining(Step(h, ops[0]), ops[1..], g, final, deadline);
    }
  }

  /** The first due poll ends the response as failed, or grants the one concealment exactly when only the final frame is missing. */
  lemma FirstPollDrains(h: History, now: int)
    requires Kept(h) && DrainDue(h.state, now)
    ensures var g, p := h.state.target.generation, Poll(h, now);
            && Kept(p) && Draining(p, g, h.state.final, h.state.deadline)
            && if PlcEligible(h.state) && !h.state.plcRequested then p.state.active && p.plcs == h.plcs + [g] && p.facts == h.facts
               else Over(p, g) && p.plcs == h.plcs && p.facts == h.facts + [EndFact(h.state, Failed)]
  {
    StepKept(h, OpFinalPlc(now));
    StepKept(h, OpExpire(now));
    if !RequestFinalPlc(h.state, now).ok {
      StepOver(h, OpExpire(now), h.state.target.generation);
    }
  }

  /**
   Draining makes progress: once the deadline has passed, a poll, whatever happens next in
   whatever order, and one later poll leave the response over, with its end reported.
   */
  lemma DrainPollEnds(h: History, now: int, mid: seq<Op>, later: int)
    requires Kept(h) && DrainDue(h.state, now) && later >= now
    ensures Over(Poll(Steps(Poll(h, now), mid), later), h.state.target.generation)
  {
    var g, final, deadline := h.state.target.generation, h.state.final, h.state.deadline;
    FirstPollDrains(h, now);
    RunDraining(Poll(h, now), mid, g, final, deadline);
    var m := Steps(Poll(h, now), mid);
    if Over(m, g) {
      StepOver(m, OpFinalPlc(later), g);
      StepOver(m, OpExpire(later), g);
    } else {
      assert DrainDue(m.state, later) && !RequestFinalPlc(m.state, later).ok;
      StepOver(m, OpExpire(later), g);
    }
  }

  /** A granted concealment that is written and finished in time completes an undegraded response. */
  lemma GrantedPlcCompletes(h: History, now: int, samples: nat)
    requires Kept(h) && DrainDue(h.state, now) && PlcEligible(h.state) && !h.state.plcRequested && !h.state.degraded
    requires !Above(h.state.lastSample, h.state.final.value) && 0 < samples <= U64_MAX - h.state.played
    ensures var f := h.state.final.value;
            var r := Step(Step(Poll(h, now), OpWritten(f, samples)), OpFinish(f));
            r.facts == h.facts + [Ended(h.state.target, Completed, h.state.played + samples, Some(f))]
  {
  }

  /** Nothing of a response that is over may play again, whatever happens later. */
  lemma OverIsSilent(h: History, ops: seq<Op>, g: u32)
    requires Kept(h) && Over(h, g)
    ensures !CanPlay(Steps(h, ops).state, g)
  {
    FenceNeverDecreases(h, ops);
  }
}
