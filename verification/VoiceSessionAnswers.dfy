/**
 What the session core must answer, over every re-entrant run: what its callbacks are told,
 which calls it accepts, and that closing leads to idle.
 */
module VoiceSessionAnswers {
  import opened Machine
  import opened VoiceSession
  import opened VoiceSessionRuns

  /** The snapshot of an active session says what its gate says. */
  ghost predicate Mirrors(c: Core) {
    && (c.snapshot.Some? ==>
          c.gate.profile == Some(c.snapshot.value.profile)
          && c.snapshot.value == Snapshot(c.gate.session, c.gate.playback, c.snapshot.value.profile, c.gate.owner))
    && (c.snapshot.Some? ==> if c.snapshot.value.profile.WssOpusV1? then c.gate.owner.Wss? else c.gate.owner.Udp?)
    && (c.gate.phase.Opening? ==> c.gate.playback == 0)
  }

  lemma NextMirrors(w: World, step: Step)
    requires Kept(w) && Mirrors(w.core)
    ensures Mirrors(Next(w, step).core)
  {
  }

  lemma {:induction false} RunMirrors(w: World, steps: seq<Step>)
    requires Kept(w) && Mirrors(w.core)
    ensures Mirrors(Run(w, steps).core)
    decreases |steps|
  {
    if steps != [] {
      NextMirrors(w, steps[0]);
      NextKept(w, steps[0]);
      RunMirrors(Next(w, steps[0]), steps[1..]);
    }
  }

  /** In every run the snapshot that callbacks receive has the gate's session, playback, profile and owner. */
  lemma SnapshotIsTrue(steps: seq<Step>)
    requires Run(START, steps).core.snapshot.Some?
    ensures var c := Run(START, steps).core; var s := c.snapshot.value;
            && c.gate.phase.Active? && s.connection == c.gate.session && s.playback == c.gate.playback
            && c.gate.profile == Some(s.profile) && s.owner == c.gate.owner
            && s.owner == if s.profile.WssOpusV1? then Wss else Udp
  {
    RunMirrors(START, steps);
    RunKept(START, steps);
  }

  /** The number of the session opened last, by the accepted calls alone. */
  ghost function LastOpened(w: World, before: u32, steps: seq<Step>): u32
    decreases |steps|
  {
    if steps == [] then before
    else
      var opens := steps[0].CallBeginFresh? && BeginFreshBlock(w.core, steps[0].generation).ok;
      LastOpened(Next(w, steps[0]), if opens then steps[0].generation else before, steps[1..])
  }

  /** The session in progress, or the one before. */
  function NumberOf(g: Gate): u32 {
    if g.phase.Idle? then g.last else g.session
  }

  lemma NumberMoves(w: World, step: Step)
    ensures NumberOf(Next(w, step).core.gate) ==
            if step.CallBeginFresh? && BeginFreshBlock(w.core, step.generation).ok then step.generation else NumberOf(w.core.gate)
  {
  }

  lemma {:induction false} NumberIsLastOpened(w: World, steps: seq<Step>)
    ensures NumberOf(Run(w, steps).core.gate) == LastOpened(w, NumberOf(w.core.gate), steps)
    decreases |steps|
  {
    if steps != [] {
      NumberMoves(w, steps[0]);
      NumberIsLastOpened(Next(w, steps[0]), steps[1..]);
    }
  }

  /** In every run a session opens exactly from idle and with a larger number than the one opened before, 0 at first. */
  lemma BeginIff(steps: seq<Step>, g: u32)
    ensures var c, b := Run(START, steps).core, BeginFreshBlock(Run(START, steps).core, g);
            && (b.ok <==> c.gate.phase.Idle? && g > LastOpened(START, 0, steps))
            && (b.ok ==> b.core.gate == Gate(Opening, NoOwner, None, c.gate.last, g, 0))
            && (!b.ok ==> b.core == c)
  {
    NumberIsLastOpened(START, steps);
  }

  /** A hello is committed exactly for the session being opened and by the owner its profile calls for. */
  lemma CommitIff(steps: seq<Step>, connection: u32, p: Profile, o: Owner)
    ensures var c, b := Run(START, steps).core, CommitBlock(Run(START, steps).core, connection, p, o);
            && (b.ok <==> c.gate.phase.Opening? && c.gate.session == connection && o == if p.WssOpusV1? then Wss else Udp)
            && (b.ok ==> b.core.gate.phase.Active? && b.core.snapshot == Some(Snapshot(connection, 0, p, o)) && b.notify == b.core.snapshot)
            && (!b.ok ==> b.core == c)
  {
    RunMirrors(START, steps);
    RunKept(START, steps);
  }

  /** Playback advances exactly for the active session, strictly forward, and its callbacks are told the new generation. */
  lemma AdvanceIff(steps: seq<Step>, owner: Snapshot, g: u32)
    ensures var c, b := Run(START, steps).core, AdvanceBlock(Run(START, steps).core, owner, g);
            && (b.ok <==> c.gate.phase.Active? && c.snapshot.Some? && c.snapshot == Some(owner.(playback := c.gate.playback)) && g > c.gate.playback)
            && (b.ok ==> b.core.gate.playback == g && b.core.snapshot == Some(owner.(playback := g)) && b.notify == b.core.snapshot)
            && (!b.ok ==> b.core == c)
  {
    RunMirrors(START, steps);
    RunKept(START, steps);
  }

  /** A close by snapshot: the active session's own starts its revocation; while closing only a repeat of it is accepted. */
  lemma CloseByOwnerIff(steps: seq<Step>, owner: Snapshot)
    ensures var c, b := Run(START, steps).core, CloseByOwnerBlock(Run(START, steps).core, owner);
            && (c.gate.phase.Active? && c.snapshot.Some? ==>
                  (b.ok <==> c.snapshot == Some(owner.(playback := c.gate.playback))))
            && (c.gate.phase.Active? && b.ok ==> b.core.gate.phase.Closing? && b.core.revoking && b.notify == c.snapshot)
            && (c.gate.phase.Closing? ==>
                  b.core == c && b.notify.None? && (b.ok <==> c.closing.Some? && c.closing == Some(owner.(playback := c.closing.value.playback))))
            && (c.gate.phase.Idle? || c.gate.phase.Opening? ==> !b.ok)
            && (!b.ok ==> b.core == c)
  {
    RunMirrors(START, steps);
    RunKept(START, steps);
  }

  /** A close by connection number is accepted exactly for the session in progress; only a committed one is revoked, and only once. */
  lemma CloseByGenerationIff(steps: seq<Step>, connection: u32)
    ensures var c, b := Run(START, steps).core, CloseByGenerationBlock(Run(START, steps).core, connection);
            && (b.ok <==> c.gate.session == connection && connection != 0)
            && (b.ok ==> b.core.gate.phase.Closing?)
            && b.notify == (if b.ok && c.gate.phase.Active? then c.snapshot else None)
            && (!b.ok ==> b.core == c)
  {
    RunKept(START, steps);
  }

  /** A close finishes exactly for the session that is closing, once no revocation callback is running. */
  lemma FinishIff(steps: seq<Step>, connection: u32)
    ensures var w, b := Run(START, steps), FinishCloseBlock(Run(START, steps).core, connection);
            && (b.ok <==> w.core.gate.phase.Closing? && w.core.gate.session == connection
                          && !(exists i :: 0 <= i < |w.stack| && Revokes(w.stack[i])))
            && (b.ok ==> b.core.gate.phase.Idle? && b.core.gate.last == connection)
            && (!b.ok ==> b.core == w.core)
  {
    RunKept(START, steps);
  }

  /** Closing an active session, letting the three callbacks return and finishing leads to idle, with everything revoked. */
  lemma ClosingEnds(steps: seq<Step>, owner: Snapshot)
    requires Run(START, steps).core.snapshot == Some(owner)
    ensures var w := Run(START, steps);
            var closed := Next(w, CallCloseByOwner(owner));
            var returned := Next(Next(Next(closed, CallbackReturns), CallbackReturns), CallbackReturns);
            var done := Next(returned, CallFinishClose(owner.connection));
            && closed.stack == w.stack + [TransportRevoke(owner)] && returned.stack == w.stack
            && done.core.gate.phase.Idle?
            && done.transportRevoked == w.transportRevoked + [owner.connection]
            && done.audioRevoked == w.audioRevoked + [owner.connection]
            && done.eventRevoked == w.eventRevoked + [owner.connection]
  {
    RunMirrors(START, steps);
    RunKept(START, steps);
    var w := Run(START, steps);
    var closed := Next(w, CallCloseByOwner(owner));
    RevocationReturns(closed, w.stack, owner);
  }

  /** Three returns end a revocation: transport, audio, event listener. */
  lemma RevocationReturns(w: World, below: seq<Waiting>, s: Snapshot)
    requires w.stack == below + [TransportRevoke(s)]
    ensures var returned := Next(Next(Next(w, CallbackReturns), CallbackReturns), CallbackReturns);
            returned == World(EndRevocation(w.core), below, w.committed, w.transportRevoked,
                              w.audioRevoked + [s.connection], w.eventRevoked + [s.connection])
  {
    TopReturns(w, below, TransportRevoke(s));
    var second := Next(w, CallbackReturns);
    TopReturns(second, below, AudioRevoke(s));
    var third := Next(second, CallbackReturns);
    TopReturns(third, below, RevokedEvent(s));
  }

  lemma TopReturns(w: World, below: seq<Waiting>, top: Waiting)
    requires w.stack == below + [top]
    ensures w.stack[|w.stack| - 1] == top && w.stack[..|w.stack| - 1] == below
  {
  }

  /** After an advance the audio is told first; the event listener only if that playback is still the current one. */
  lemma AdvanceCallbacks(steps: seq<Step>, below: seq<Waiting>, s: Snapshot)
    requires Run(START, steps).stack == below + [AudioGeneration(s)]
    ensures var w := Run(START, steps); var n := Next(w, CallbackReturns);
            && n.core == w.core
            && n.stack == if w.core.gate.phase.Active? && w.core.snapshot == Some(s) then below + [AdvancedEvent(s)] else below
  {
    RunMirrors(START, steps);
    RunKept(START, steps);
    TopReturns(Run(START, steps), below, AudioGeneration(s));
  }

  /** An accepted commit or advance makes its first callback with the snapshot it published. */
  lemma FirstCallbacks(w: World, connection: u32, p: Profile, o: Owner, s: Snapshot, g: u32)
    ensures var b := CommitBlock(w.core, connection, p, o);
            b.ok ==> var n := Next(w, CallCommitHello(connection, p, o));
                     n.core == b.core && n.stack == w.stack + [CommittedEvent(Snapshot(connection, w.core.gate.playback, p, o))]
                     && n.committed == w.committed + [connection]
    ensures var b := AdvanceBlock(w.core, s, g);
            b.ok ==> var n := Next(w, CallAdvance(s, g)); n.core == b.core && n.stack == w.stack + [AudioGeneration(s.(playback := g))]
  {
  }
}
