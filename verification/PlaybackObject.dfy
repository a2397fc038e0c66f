/** The playback state as the object the firmware updates in place (native_runtime/playback_state.cc). */
module PlaybackObject {
  import opened Machine
  import opened Playback

  class PlaybackState {
    var target: Target
    var fence: u32
    var lastStopFence: u32
    var final: Option<u32>
    var lastSample: Option<u32>
    var lastCompleted: Option<u32>
    var played: u64
    var deadline: int
    var active: bool
    var started: bool
    var stopRecorded: bool
    var degraded: bool
    var plcRequested: bool

    function Model(): State
      reads this
    {
      State(target, fence, lastStopFence, final, lastSample, lastCompleted, played, deadline,
            active, started, stopRecorded, degraded, plcRequested)
    }

    constructor ()
      ensures Model() == IDLE
    {
      target, fence, lastStopFence, final, lastSample, lastCompleted := NO_TARGET, 0, 0, None, None, None;
      played, deadline, active, started, stopRecorded, degraded, plcRequested := 0, 0, false, false, false, false, false;
    }

    method Reset()
      modifies this
      ensures Model() == IDLE
    {
      target, fence, lastStopFence, final, lastSample, lastCompleted := NO_TARGET, 0, 0, None, None, None;
      played, deadline, active, started, stopRecorded, degraded, plcRequested := 0, 0, false, false, false, false, false;
    }

    /** Forget the progress of one response: the assignments `Begin` and `End` share. */
    method ClearProgress()
      modifies this`final, this`lastSample, this`lastCompleted, this`played, this`deadline,
               this`active, this`started, this`degraded, this`plcRequested
      ensures final == None && lastSample == None && lastCompleted == None && played == 0 && deadline == 0
      ensures !active && !started && !degraded && !plcRequested
    {
      final, lastSample, lastCompleted := None, None, None;
      played, deadline := 0, 0;
      active, started, degraded, plcRequested := false, false, false, false;
    }

    method Begin(t: Target) returns (ok: bool)
      modifies this
      ensures Outcome(Model(), ok, None) == Playback.Begin(old(Model()), t)
    {
      if active || t.id == "" || t.generation == 0 || t.generation <= fence {
        return false;
      }
      target := t;
      ClearProgress();
      active := true;
      lastStopFence, stopRecorded := 0, false;
      return true;
    }

    method End(ending: Ending) returns (fact: Fact)
      modifies this
      ensures fact == EndFact(old(Model()), ending) && Model() == AfterEnd(old(Model()), ending)
    {
      fact := Ended(target, ending, played, if started then lastSample else None);
      if !ending.Stopped? {
        fence := target.generation;
        target := NO_TARGET;
      }
      ClearProgress();
    }

    method SetFinalMediaSequence(t: Target, f: u32, now: int) returns (ok: bool, fact: Option<Fact>)
      modifies this
      ensures Outcome(Model(), ok, fact) == SetFinal(old(Model()), t, f, now)
    {
      fact := None;
      if now < 0 || !active || t != target || final.Some? || Above(lastSample, f) || Above(lastCompleted, f) {
        return false, None;
      }
      final := Some(f);
      deadline := if now > I64_MAX - DRAIN_DEADLINE_US then I64_MAX else now + DRAIN_DEADLINE_US;
      if lastCompleted == final {
        var e := End(if degraded then Failed else Completed);
        fact := Some(e);
      }
      ok := true;
    }

    method Stop(t: Target, fenceGeneration: u32) returns (ok: bool, fact: Option<Fact>)
      modifies this
      ensures Outcome(Model(), ok, fact) == Playback.Stop(old(Model()), t, fenceGeneration)
    {
      fact := None;
      if stopRecorded && t == target {
        return fenceGeneration == lastStopFence, None;
      }
      if !active || t != target || fenceGeneration <= t.generation || fenceGeneration <= fence {
        return false, None;
      }
      lastStopFence := fenceGeneration;
      stopRecorded := true;
      fence := fenceGeneration;
      var e := End(Stopped);
      return true, Some(e);
    }

    method Fail() returns (ok: bool, fact: Option<Fact>)
      modifies this
      ensures Outcome(Model(), ok, fact) == Playback.Fail(old(Model()))
    {
      if !active {
        return false, None;
      }
      var e := End(Failed);
      return true, Some(e);
    }

    method MarkDegraded() returns (ok: bool)
      modifies this
      ensures Outcome(Model(), ok, None) == Playback.MarkDegraded(old(Model()))
    {
      if !active {
        return false;
      }
      degraded := true;
      return true;
    }

    method RequestFinalPlc(now: int) returns (ok: bool, sequence: u32)
      modifies this
      ensures Outcome(Model(), ok, None) == Playback.RequestFinalPlc(old(Model()), now)
      ensures ok ==> final == Some(sequence)
    {
      if !active || !started || final.None? || deadline == 0 || now < deadline || plcRequested || lastCompleted.None?
         || lastCompleted.value == U32_MAX || lastCompleted.value + 1 != final.value {
        return false, 0;
      }
      plcRequested := true;
      return true, final.value;
    }

    method ExpireDrain(now: int) returns (ok: bool, fact: Option<Fact>)
      modifies this
      ensures Outcome(Model(), ok, fact) == Playback.ExpireDrain(old(Model()), now)
    {
      if !active || final.None? || deadline == 0 || now < deadline {
        return false, None;
      }
      var plcEligible := started && lastCompleted.Some? && lastCompleted.value != U32_MAX && lastCompleted.value + 1 == final.value;
      if plcEligible && !plcRequested {
        return false, None;
      }
      var e := End(Failed);
      return true, Some(e);
    }

    method RecordWritten(q: u32, samples: nat) returns (ok: bool, fact: Option<Fact>)
      modifies this
      ensures Outcome(Model(), ok, fact) == Playback.RecordWritten(old(Model()), q, samples)
    {
      fact := None;
      if !active || samples == 0 || samples > U64_MAX - played || (final.Some? && q > final.value) || Above(lastSample, q) {
        return false, None;
      }
      played := played + samples;
      lastSample := Some(q);
      if !started {
        started := true;
        fact := Some(Started(target, played, q));
      }
      ok := true;
    }

    method FinishFrame(q: u32) returns (ok: bool, fact: Option<Fact>)
      modifies this
      ensures Outcome(Model(), ok, fact) == Playback.FinishFrame(old(Model()), q)
    {
      fact := None;
      if !active || !started || lastSample != Some(q) || (lastCompleted.Some? && q <= lastCompleted.value)
         || (final.Some? && q > final.value) {
        return false, None;
      }
      lastCompleted := Some(q);
      if final == lastCompleted {
        var e := End(if degraded then Failed else Completed);
        fact := Some(e);
      }
      ok := true;
    }
  }
}
