/**
 The session gate and the session core as objects (voice_core/session_gate.cc, session.cc).
 Each method of `Session` is one block that runs under the state lock; the callbacks
 between blocks are the steps of `VoiceSessionRuns`.
 */
module VoiceSessionObject {
  import opened Machine
  import opened VoiceSession

  class SessionGate {
    var phase: Phase
    var owner: Owner
    var profile: Option<Profile>
    var last: u32
    var session: u32
    var playback: u32

    function Model(): Gate
      reads this
    {
      Gate(phase, owner, profile, last, session, playback)
    }

    constructor ()
      ensures Model() == NEW_GATE
    {
      phase, owner, profile, last, session, playback := Idle, NoOwner, None, 0, 0, 0;
    }

    method BeginFreshSession(generation: u32) returns (ok: bool)
      modifies this
      ensures ok == MayBeginFresh(old(Model()), generation) && Model() == BeginFresh(old(Model()), generation)
    {
      if !phase.Idle? || generation == 0 || generation <= last {
        return false;
      }
      phase, session, playback, owner, profile := Opening, generation, 0, NoOwner, None;
      return true;
    }

    method CommitMedia(p: Profile, o: Owner) returns (ok: bool)
      modifies this
      ensures ok == MayCommit(old(Model()), p, o) && Model() == VoiceSession.CommitMedia(old(Model()), p, o)
    {
      if !phase.Opening? || !OwnerMatchesProfile(p, o) {
        return false;
      }
      profile, owner, phase := Some(p), o, Active;
      return true;
    }

    method AdvancePlaybackGeneration(generation: u32) returns (ok: bool)
      modifies this
      ensures ok == MayAdvance(old(Model()), generation) && Model() == Advance(old(Model()), generation)
    {
      if !phase.Active? || generation <= playback {
        return false;
      }
      playback := generation;
      return true;
    }

    method BeginClose() returns (ok: bool)
      modifies this
      ensures ok == MayClose(old(Model())) && Model() == VoiceSession.BeginClose(old(Model()))
    {
      if !phase.Opening? && !phase.Active? {
        return false;
      }
      phase, owner, profile := Closing, NoOwner, None;
      return true;
    }

    method FinishClose() returns (ok: bool)
      modifies this
      ensures ok == old(phase).Closing? && Model() == VoiceSession.FinishClose(old(Model()))
    {
      if !phase.Closing? {
        return false;
      }
      last, session, playback, phase := session, 0, 0, Idle;
      return true;
    }
  }

  class Session {
    const gate: SessionGate
    var snapshot: Option<Snapshot>
    var closing: Option<Snapshot>
    var revoking: bool

    function Model(): Core
      reads this, gate
    {
      Core(gate.Model(), snapshot, closing, revoking)
    }

    constructor ()
      ensures Model() == NEW_CORE && fresh(gate)
    {
      gate := new SessionGate();
      snapshot, closing, revoking := None, None, false;
    }

    method BeginFreshSession(generation: u32) returns (ok: bool)
      modifies this, gate
      ensures Block(Model(), ok, None) == BeginFreshBlock(old(Model()), generation)
    {
      ok := gate.BeginFreshSession(generation);
    }

    method CommitLocked(connection: u32, p: Profile, o: Owner) returns (committed: Option<Snapshot>)
      modifies this, gate
      ensures Block(Model(), committed.Some?, committed) == CommitBlock(old(Model()), connection, p, o)
    {
      if gate.session != connection {
        return None;
      }
      var ok := gate.CommitMedia(p, o);
      if !ok {
        return None;
      }
      snapshot := Some(Snapshot(connection, gate.playback, p, o));
      committed := snapshot;
    }

    method AdvanceLocked(owner: Snapshot, generation: u32) returns (advanced: Option<Snapshot>)
      modifies this, gate
      ensures Block(Model(), advanced.Some?, advanced) == AdvanceBlock(old(Model()), owner, generation)
    {
      if !OwnerMatches(Model(), owner) {
        return None;
      }
      var ok := gate.AdvancePlaybackGeneration(generation);
      if !ok {
        return None;
      }
      snapshot := Some(Snapshot(owner.connection, generation, owner.profile, owner.owner));
      advanced := snapshot;
    }

    method CloseByOwnerLocked(owner: Snapshot) returns (ok: bool, revoked: Option<Snapshot>)
      modifies this, gate
      ensures Block(Model(), ok, revoked) == CloseByOwnerBlock(old(Model()), owner)
    {
      if gate.phase.Closing? {
        return closing.Some? && SameOwner(closing.value, owner), None;
      }
      if !OwnerMatches(Model(), owner) {
        return false, None;
      }
      revoked := snapshot;
      ok := gate.BeginClose();
      if !ok {
        return false, None;
      }
      closing, snapshot, revoking := revoked, None, true;
    }

    method CloseByGenerationLocked(connection: u32) returns (ok: bool, revoked: Option<Snapshot>)
      modifies this, gate
      ensures Block(Model(), ok, revoked) == CloseByGenerationBlock(old(Model()), connection)
    {
      if gate.session != connection {
        return false, None;
      }
      if gate.phase.Closing? {
        return true, None;
      }
      if !gate.phase.Opening? && !gate.phase.Active? {
        return false, None;
      }
      revoked := snapshot;
      ok := gate.BeginClose();
      if !ok {
        return false, None;
      }
      closing := None;
      if revoked.Some? {
        closing := revoked;
        revoking := true;
      }
      snapshot := None;
    }

    method EndRevocationLocked()
      modifies this
      ensures Model() == EndRevocation(old(Model()))
    {
      revoking := false;
    }

    method FinishClose(connection: u32) returns (ok: bool)
      modifies this, gate
      ensures Block(Model(), ok, None) == FinishCloseBlock(old(Model()), connection)
    {
      if revoking || gate.session != connection {
        return false;
      }
      ok := gate.FinishClose();
      if ok {
        closing := None;
      }
    }
  }
}
