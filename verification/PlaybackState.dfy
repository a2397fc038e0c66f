/**
 Response playout on the device (native_runtime/playback_state.cc): which facts about a
 response reach the server, and when a response drains.
 */
module Playback {
  import opened Machine

  const DRAIN_DEADLINE_US := 1_500_000
  const I64_MAX := 0x7fff_ffff_ffff_ffff
  const MAX_EXACT_JSON_INTEGER := 9007199254740991

  datatype Target = Target(id: string, generation: u32)

  const NO_TARGET := Target("", 0)

  datatype Ending = Completed | Stopped | Failed

  datatype Fact =
    | Started(target: Target, played: u64, first: u32)
    | Ended(target: Target, ending: Ending, played: u64, last: Option<u32>)

  datatype State = State(
    target: Target, fence: u32, lastStopFence: u32, final: Option<u32>, lastSample: Option<u32>, lastCompleted: Option<u32>,
    played: u64, deadline: int, active: bool, started: bool, stopRecorded: bool, degraded: bool, plcRequested: bool)

  const IDLE := State(NO_TARGET, 0, 0, None, None, None, 0, 0, false, false, false, false, false)

  datatype Outcome = Outcome(state: State, ok: bool, fact: Option<Fact>)

  function Refused(s: State): Outcome {
    Outcome(s, false, None)
  }

  predicate Above(x: Option<u32>, y: u32) {
    x.Some? && x.value > y
  }

  /** The final fact of a response, and the state after it. */
  function EndFact(s: State, ending: Ending): Fact {
    Ended(s.target, ending, s.played, if s.started then s.lastSample else None)
  }

  function AfterEnd(s: State, ending: Ending): State {
    s.(fence := if ending.Stopped? then s.fence else s.target.generation,
       target := if ending.Stopped? then s.target else NO_TARGET,
       final := None, lastSample := None, lastCompleted := None, played := 0, deadline := 0,
       active := false, started := false, degraded := false, plcRequested := false)
  }

  function End(s: State, ending: Ending): Outcome {
    Outcome(AfterEnd(s, ending), true, Some(EndFact(s, ending)))
  }

  function Begin(s: State, t: Target): Outcome {
    if s.active || t.id == "" || t.generation == 0 || t.generation <= s.fence then Refused(s)
    else Outcome(IDLE.(target := t, fence := s.fence, active := true), true, None)
  }

  function SetFinal(s: State, t: Target, final: u32, now: int): Outcome {
    if now < 0 || !s.active || t != s.target || s.final.Some? || Above(s.lastSample, final) || Above(s.lastCompleted, final) then Refused(s)
    else
      var r := s.(final := Some(final), deadline := if now > I64_MAX - DRAIN_DEADLINE_US then I64_MAX else now + DRAIN_DEADLINE_US);
      if s.lastCompleted == Some(final) then End(r, if s.degraded then Failed else Completed) else Outcome(r, true, None)
  }

  function Stop(s: State, t: Target, fence: u32): Outcome {
    if s.stopRecorded && t == s.target then Outcome(s, fence == s.lastStopFence, None)
    else if !s.active || t != s.target || fence <= t.generation || fence <= s.fence then Refused(s)
    else End(s.(lastStopFence := fence, stopRecorded := true, fence := fence), Stopped)
  }

  function Fail(s: State): Outcome {
    if !s.active then Refused(s) else End(s, Failed)
  }

  function MarkDegraded(s: State): Outcome {
    if !s.active then Refused(s) else Outcome(s.(degraded := true), true, None)
  }

  /** Only the final frame is missing: the one case where concealment may complete a response. */
  predicate PlcEligible(s: State) {
    s.started && s.lastCompleted.Some? && s.final.Some? && s.lastCompleted.value != U32_MAX
    && s.lastCompleted.value + 1 == s.final.value
  }

  /** The drain deadline of an announced final sequence has passed. */
  predicate DrainDue(s: State, now: int) {
    s.active && s.final.Some? && s.deadline != 0 && now >= s.deadline
  }

  function RequestFinalPlc(s: State, now: int): Outcome {
    if DrainDue(s, now) && PlcEligible(s) && !s.plcRequested then Outcome(s.(plcRequested := true), true, None) else Refused(s)
  }

  function ExpireDrain(s: State, now: int): Outcome {
    if !DrainDue(s, now) || (PlcEligible(s) && !s.plcRequested) then Refused(s) else End(s, Failed)
  }

  predicate CanPlay(s: State, generation: u32) {
    s.active && generation == s.target.generation && generation > s.fence
  }

  function RecordWritten(s: State, q: u32, samples: nat): Outcome {
    if !s.active || samples == 0 || samples > U64_MAX - s.played || (s.final.Some? && q > s.final.value) || Above(s.lastSample, q) then Refused(s)
    else
      var r := s.(played := s.played + samples, lastSample := Some(q), started := true);
      Outcome(r, true, if s.started then None else Some(Started(s.target, r.played, q)))
  }

  function FinishFrame(s: State, q: u32): Outcome {
    if !s.active || !s.started || s.lastSample != Some(q) || (s.lastCompleted.Some? && q <= s.lastCompleted.value)
       || (s.final.Some? && q > s.final.value) then Refused(s)
    else
      var r := s.(lastCompleted := Some(q));
      if s.final == Some(q) then End(r, if s.degraded then Failed else Completed) else Outcome(r, true, None)
  }

  /** The guard of the playback.ended encoder (voice_protocol/control.cc). */
  predicate Encodable(f: Fact)
    requires f.Ended?
  {
    !(f.played > MAX_EXACT_JSON_INTEGER
      || (f.ending.Completed? && f.last.None?)
      || (!f.ending.Completed? && f.played == 0 && f.last.Some?))
  }
}
