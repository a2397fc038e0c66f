/**
 The session core of the firmware (voice_core/session.cc, session_gate.cc): the values it
 keeps and the effect of each block that runs under its state lock.
 */
module VoiceSession {
  import opened Machine

  datatype Phase = Idle | Opening | Active | Closing

  datatype Profile = WssOpusV1 | UdpOpusGcmV1

  datatype Owner = NoOwner | Wss | Udp

  datatype Gate = Gate(phase: Phase, owner: Owner, profile: Option<Profile>, last: u32, session: u32, playback: u32)

  datatype Snapshot = Snapshot(connection: u32, playback: u32, profile: Profile, owner: Owner)

  datatype Core = Core(gate: Gate, snapshot: Option<Snapshot>, closing: Option<Snapshot>, revoking: bool)

  const NEW_GATE := Gate(Idle, NoOwner, None, 0, 0, 0)
  const NEW_CORE := Core(NEW_GATE, None, None, false)

  predicate OwnerMatchesProfile(p: Profile, o: Owner) {
    match p case WssOpusV1 => o.Wss? case UdpOpusGcmV1 => o.Udp?
  }

  predicate MayBeginFresh(g: Gate, generation: u32) {
    g.phase.Idle? && generation != 0 && generation > g.last
  }

  function BeginFresh(g: Gate, generation: u32): Gate {
    if MayBeginFresh(g, generation) then Gate(Opening, NoOwner, None, g.last, generation, 0) else g
  }

  predicate MayCommit(g: Gate, p: Profile, o: Owner) {
    g.phase.Opening? && OwnerMatchesProfile(p, o)
  }

  function CommitMedia(g: Gate, p: Profile, o: Owner): Gate {
    if MayCommit(g, p, o) then g.(profile := Some(p), owner := o, phase := Active) else g
  }

  predicate MayAdvance(g: Gate, generation: u32) {
    g.phase.Active? && generation > g.playback
  }

  function Advance(g: Gate, generation: u32): Gate {
    if MayAdvance(g, generation) then g.(playback := generation) else g
  }

  predicate MayClose(g: Gate) {
    g.phase.Opening? || g.phase.Active?
  }

  function BeginClose(g: Gate): Gate {
    if MayClose(g) then g.(phase := Closing, owner := NoOwner, profile := None) else g
  }

  function FinishClose(g: Gate): Gate {
    if g.phase.Closing? then g.(last := g.session, session := 0, playback := 0, phase := Idle) else g
  }

  /** Same connection, profile and owner: playback generations may differ. */
  predicate SameOwner(a: Snapshot, b: Snapshot) {
    a.connection == b.connection && a.profile == b.profile && a.owner == b.owner
  }

  predicate OwnerMatches(c: Core, s: Snapshot) {
    c.gate.phase.Active? && c.snapshot.Some? && SameOwner(c.snapshot.value, s)
  }

  predicate PlaybackMatches(c: Core, s: Snapshot) {
    OwnerMatches(c, s) && c.snapshot.value.playback == s.playback
  }

  // ---- Locked blocks -------------------------------------------------------------------------

  /** A block's effect, what it returns, and the snapshot whose callbacks must follow, if any. */
  datatype Block = Block(core: Core, ok: bool, notify: Option<Snapshot>)

  function BeginFreshBlock(c: Core, generation: u32): Block {
    Block(c.(gate := BeginFresh(c.gate, generation)), MayBeginFresh(c.gate, generation), None)
  }

  function CommitBlock(c: Core, connection: u32, p: Profile, o: Owner): Block {
    if c.gate.session != connection || !MayCommit(c.gate, p, o) then Block(c, false, None)
    else
      var s := Snapshot(connection, c.gate.playback, p, o);
      Block(c.(gate := CommitMedia(c.gate, p, o), snapshot := Some(s)), true, Some(s))
  }

  function AdvanceBlock(c: Core, owner: Snapshot, generation: u32): Block {
    if !OwnerMatches(c, owner) || !MayAdvance(c.gate, generation) then Block(c, false, None)
    else
      var s := owner.(playback := generation);
      Block(c.(gate := Advance(c.gate, generation), snapshot := Some(s)), true, Some(s))
  }

  function CloseByOwnerBlock(c: Core, owner: Snapshot): Block {
    if c.gate.phase.Closing? then Block(c, c.closing.Some? && SameOwner(c.closing.value, owner), None)
    else if !OwnerMatches(c, owner) || !MayClose(c.gate) then Block(c, false, None)
    else Block(Core(BeginClose(c.gate), None, c.snapshot, true), true, c.snapshot)
  }

  function CloseByGenerationBlock(c: Core, connection: u32): Block {
    if c.gate.session != connection then Block(c, false, None)
    else if c.gate.phase.Closing? then Block(c, true, None)
    else if !MayClose(c.gate) then Block(c, false, None)
    else Block(Core(BeginClose(c.gate), None, c.snapshot, if c.snapshot.Some? then true else c.revoking), true, c.snapshot)
  }

  function EndRevocation(c: Core): Core {
    c.(revoking := false)
  }

  function FinishCloseBlock(c: Core, connection: u32): Block {
    if c.revoking || c.gate.session != connection || !c.gate.phase.Closing? then Block(c, false, None)
    else Block(c.(gate := FinishClose(c.gate), closing := None), true, None)
  }
}

/**
 Re-entrant runs.  Operations hold a recursive lock while they call out, so a callback may
 itself call any operation; the stack records the calls whose callbacks have not returned.
 A run is any sequence of calls and callback returns.
 */
module VoiceSessionRuns {
  import opened Machine
  import opened VoiceSession

  /** The callback an unfinished operation is waiting in. */
  datatype Waiting =
    | CommittedEvent(snapshot: Snapshot)
    | AudioGeneration(snapshot: Snapshot)
    | AdvancedEvent(snapshot: Snapshot)
    | TransportRevoke(snapshot: Snapshot)
    | AudioRevoke(snapshot: Snapshot)
    | RevokedEvent(snapshot: Snapshot)

  datatype Step =
    | CallBeginFresh(generation: u32)
    | CallCommitHello(connection: u32, profile: Profile, owner: Owner)
    | CallAdvance(snapshot: Snapshot, generation: u32)
    | CallCloseByOwner(snapshot: Snapshot)
    | CallCloseByGeneration(connection: u32)
    | CallFinishClose(connection: u32)
    | CallbackReturns

  /** Connection generations in the order of commits and of each kind of revocation callback. */
  datatype World = World(core: Core, stack: seq<Waiting>, committed: seq<u32>,
                         transportRevoked: seq<u32>, audioRevoked: seq<u32>, eventRevoked: seq<u32>)

  const START := World(NEW_CORE, [], [], [], [], [])

  /** Enter the revocation callbacks, transport first. */
  function AfterClose(w: World, b: Block): World {
    match b.notify
    case None => w.(core := b.core)
    case Some(s) => w.(core := b.core, stack := w.stack + [TransportRevoke(s)], transportRevoked := w.transportRevoked + [s.connection])
  }

  function AfterReturn(w: World): World {
    if w.stack == [] then w
    else
      var n := |w.stack| - 1;
      var below := w.stack[..n];
      match w.stack[n]
      case CommittedEvent(s) => w.(stack := below)
      case AudioGeneration(s) => w.(stack := if PlaybackMatches(w.core, s) then below + [AdvancedEvent(s)] else below)
      case AdvancedEvent(s) => w.(stack := below)
      case TransportRevoke(s) => w.(stack := below + [AudioRevoke(s)], audioRevoked := w.audioRevoked + [s.connection])
      case AudioRevoke(s) => w.(stack := below + [RevokedEvent(s)], eventRevoked := w.eventRevoked + [s.connection])
      case RevokedEvent(s) => w.(stack := below, core := EndRevocation(w.core))
  }

  function Next(w: World, step: Step): World {
    match step
    case CallBeginFresh(g) => w.(core := BeginFreshBlock(w.core, g).core)
    case CallCommitHello(connection, p, o) =>
      var b := CommitBlock(w.core, connection, p, o);
      if b.ok then w.(core := b.core, stack := w.stack + [CommittedEvent(b.notify.value)], committed := w.committed + [connection]) else w
    case CallAdvance(s, g) =>
      var b := AdvanceBlock(w.core, s, g);
      if b.ok then w.(core := b.core, stack := w.stack + [AudioGeneration(b.notify.value)]) else w
    case CallCloseByOwner(s) => AfterClose(w, CloseByOwnerBlock(w.core, s))
    case CallCloseByGeneration(connection) => AfterClose(w, CloseByGenerationBlock(w.core, connection))
    case CallFinishClose(connection) => w.(core := FinishCloseBlock(w.core, connection).core)
    case CallbackReturns => AfterReturn(w)
  }

  function Run(w: World, steps: seq<Step>): World
    decreases |steps|
  {
    if steps == [] then w else Run(Next(w, steps[0]), steps[1..])
  }

  // ---- Invariant -------------------------------------------------------------------------------

  predicate Revokes(f: Waiting) {
    f.TransportRevoke? || f.AudioRevoke? || f.RevokedEvent?
  }

  /** The gate, the snapshots and the revocation flag agree with one another. */
  ghost predicate Coherent(c: Core) {
    && (c.gate.phase.Idle? <==> c.gate.session == 0)
    && (!c.gate.phase.Idle? ==> c.gate.session > c.gate.last)
    && (c.snapshot.Some? <==> c.gate.phase.Active?)
    && (c.snapshot.Some? ==> c.snapshot.value.connection == c.gate.session)
    && (c.closing.Some? ==> c.gate.phase.Closing? && c.closing.value.connection == c.gate.session)
    && (c.revoking ==> c.closing.Some?)
  }

  /** A revocation is in progress exactly when its callback is on top of the stack, and nowhere else. */
  ghost predicate RevocationOnTop(w: World) {
    && (forall i :: 0 <= i < |w.stack| - 1 ==> !Revokes(w.stack[i]))
    && (w.core.revoking <==> w.stack != [] && Revokes(w.stack[|w.stack| - 1]))
    && (w.core.revoking ==> w.stack[|w.stack| - 1].snapshot.connection == w.core.gate.session)
  }

  /** The stage of revocation reached by the session in progress: 3 when all callbacks were made. */
  function Stage(w: World): nat {
    if !w.core.gate.phase.Closing? then 0
    else if !w.core.revoking then 3
    else if w.stack == [] then 3
    else match w.stack[|w.stack| - 1]
         case TransportRevoke(_) => 1
         case AudioRevoke(_) => 2
         case _ => 3
  }

  /** A list of revocations holds the earlier committed sessions, and the present one from its stage on. */
  ghost predicate Revoked(w: World, list: seq<u32>, stage: nat) {
    && Increasing(list)
    && forall g :: g in list <==> g in w.committed && (g <= w.core.gate.last || (g == w.core.gate.session && Stage(w) >= stage))
  }

  ghost predicate Kept(w: World) {
    && Coherent(w.core) && RevocationOnTop(w)
    && Increasing(w.committed)
    && (forall g :: g in w.committed ==> 0 < g && (g <= w.core.gate.last || g == w.core.gate.session))
    && (w.core.gate.session in w.committed <==> w.core.snapshot.Some? || w.core.closing.Some?)
    && Revoked(w, w.transportRevoked, 1) && Revoked(w, w.audioRevoked, 2) && Revoked(w, w.eventRevoked, 3)
  }

  lemma IncreasingAppend(s: seq<u32>, x: u32)
    requires Increasing(s) && forall g :: g in s ==> g < x
    ensures Increasing(s + [x])
  {
    forall i | 0 <= i < |s|
      ensures s[i] < x
    {
      assert s[i] in s;
    }
  }

  lemma CommitKept(w: World, connection: u32, p: Profile, o: Owner)
    requires Kept(w)
    ensures Kept(Next(w, CallCommitHello(connection, p, o)))
  {
    if CommitBlock(w.core, connection, p, o).ok {
      IncreasingAppend(w.committed, connection);
    }
  }

  lemma CloseKept(w: World, b: Block)
    requires Kept(w) && (b == CloseByGenerationBlock(w.core, w.core.gate.session) || exists s :: b == CloseByOwnerBlock(w.core, s))
    ensures Kept(AfterClose(w, b))
  {
    if b.notify.Some? {
      assert w.core.snapshot.Some? && b.notify == w.core.snapshot;
      IncreasingAppend(w.transportRevoked, w.core.gate.session);
    }
  }

  /** A revocation callback that is followed by the next one. */
  lemma RevocationAdvances(w: World)
    requires Kept(w) && w.stack != []
    requires w.stack[|w.stack| - 1].TransportRevoke? || w.stack[|w.stack| - 1].AudioRevoke?
    ensures Kept(AfterReturn(w))
  {
    var top := w.stack[|w.stack| - 1];
    if top.TransportRevoke? {
      IncreasingAppend(w.audioRevoked, top.snapshot.connection);
    } else {
      IncreasingAppend(w.eventRevoked, top.snapshot.connection);
    }
  }

  lemma RevocationEnds(w: World)
    requires Kept(w) && w.stack != [] && w.stack[|w.stack| - 1].RevokedEvent?
    ensures Kept(AfterReturn(w))
  {
  }

  lemma OtherCallbackReturns(w: World)
    requires Kept(w) && w.stack != [] && !Revokes(w.stack[|w.stack| - 1])
    ensures Kept(AfterReturn(w))
  {
    assert !w.core.revoking;
    var r := AfterReturn(w);
    assert r.core == w.core && Stage(r) == Stage(w);
    assert RevocationOnTop(r);
  }

  lemma ReturnKept(w: World)
    requires Kept(w)
    ensures Kept(AfterReturn(w))
  {
    if w.stack != [] {
      match w.stack[|w.stack| - 1] {
        case TransportRevoke(_) => RevocationAdvances(w);
        case AudioRevoke(_) => RevocationAdvances(w);
        case RevokedEvent(_) => RevocationEnds(w);
        case _ => OtherCallbackReturns(w);
      }
    }
  }

  lemma FinishKept(w: World, connection: u32)
    requires Kept(w)
    ensures Kept(Next(w, CallFinishClose(connection)))
  {
  }

  lemma NextKept(w: World, step: Step)
    requires Kept(w)
    ensures Kept(Next(w, step))
  {
    match step {
      case CallBeginFresh(g) =>
      case CallCommitHello(connection, p, o) => CommitKept(w, connection, p, o);
      case CallAdvance(s, g) =>
      case CallCloseByOwner(s) => CloseKept(w, CloseByOwnerBlock(w.core, s));
      case CallCloseByGeneration(connection) =>
        if connection == w.core.gate.session {
          CloseKept(w, CloseByGenerationBlock(w.core, connection));
        }
      case CallFinishClose(connection) => FinishKept(w, connection);
      case CallbackReturns => ReturnKept(w);
    }
  }

  lemma {:induction false} RunKept(w: World, steps: seq<Step>)
    requires Kept(w)
    ensures Kept(Run(w, steps))
    decreases |steps|
  {
    if steps != [] {
      NextKept(w, steps[0]);
      RunKept(Next(w, steps[0]), steps[1..]);
    }
  }

  // ---- Main results ----------------------------------------------------------------------------

  /** How often a connection appears in a list. */
  function Count(list: seq<u32>, g: u32): nat {
    if list == [] then 0 else Count(list[..|list| - 1], g) + if list[|list| - 1] == g then 1 else 0
  }

  lemma {:induction false} CountIncreasing(list: seq<u32>, g: u32)
    requires Increasing(list)
    ensures Count(list, g) == if g in list then 1 else 0
  {
    if list != [] {
      var n := |list| - 1;
      CountIncreasing(list[..n], g);
      assert list == list[..n] + [list[n]];
      if g in list[..n] {
        assert g != list[n];
      }
    }
  }

  /** With arbitrary re-entrant callbacks, whenever the core is idle every committed session was revoked exactly once everywhere. */
  lemma RevokedExactlyOnce(steps: seq<Step>, g: u32)
    requires var w := Run(START, steps); w.core.gate.phase.Idle? && g in w.committed
    ensures var w := Run(START, steps);
            && Count(w.committed, g) == 1 && Count(w.transportRevoked, g) == 1
            && Count(w.audioRevoked, g) == 1 && Count(w.eventRevoked, g) == 1
  {
    RunKept(START, steps);
    var w := Run(START, steps);
    CountIncreasing(w.committed, g);
    CountIncreasing(w.transportRevoked, g);
    CountIncreasing(w.audioRevoked, g);
    CountIncreasing(w.eventRevoked, g);
  }

  /** A session that is still active was not revoked at all, and one never committed is never revoked. */
  lemma NeverRevokedEarly(steps: seq<Step>, g: u32)
    requires var w := Run(START, steps);
             g !in w.committed || (w.core.gate.phase.Active? && g == w.core.gate.session)
    ensures var w := Run(START, steps); g !in w.transportRevoked && g !in w.audioRevoked && g !in w.eventRevoked
  {
    RunKept(START, steps);
  }

  /** `FinishClose` cannot succeed while a revocation callback has not returned. */
  lemma NoFinishDuringRevocation(steps: seq<Step>, connection: u32)
    requires var w := Run(START, steps); exists i :: 0 <= i < |w.stack| && Revokes(w.stack[i])
    ensures !FinishCloseBlock(Run(START, steps).core, connection).ok
  {
    RunKept(START, steps);
  }

  /** The session with this connection generation is over, or closing for good. */
  predicate Past(c: Core, g: u32) {
    c.gate.last >= g || (c.gate.phase.Closing? && c.gate.session == g)
  }

  predicate ActiveAs(c: Core, s: Snapshot) {
    OwnerMatches(c, s)
  }

  lemma NextPast(w: World, step: Step, s: Snapshot)
    requires Kept(w) && (ActiveAs(w.core, s) || Past(w.core, s.connection))
    ensures var n := Next(w, step).core; ActiveAs(n, s) || Past(n, s.connection)
    ensures Past(w.core, s.connection) ==> Past(Next(w, step).core, s.connection)
  {
  }

  lemma PastIsInactive(w: World, s: Snapshot)
    requires Kept(w) && Past(w.core, s.connection)
    ensures !ActiveAs(w.core, s)
  {
  }

  lemma {:induction false} StaysPast(w: World, steps: seq<Step>, s: Snapshot)
    requires Kept(w) && (ActiveAs(w.core, s) || Past(w.core, s.connection))
    ensures var n := Run(w, steps).core; ActiveAs(n, s) || Past(n, s.connection)
    ensures Past(w.core, s.connection) ==> Past(Run(w, steps).core, s.connection)
    decreases |steps|
  {
    if steps != [] {
      NextKept(w, steps[0]);
      NextPast(w, steps[0], s);
      StaysPast(Next(w, steps[0]), steps[1..], s);
    }
  }

  lemma {:induction false} RunJoin(w: World, a: seq<Step>, b: seq<Step>)
    ensures Run(w, a + b) == Run(Run(w, a), b)
    decreases |a|
  {
    if a == [] {
      assert a + b == b;
    } else {
      assert (a + b)[1..] == a[1..] + b;
      RunJoin(Next(w, a[0]), a[1..], b);
    }
  }

  /**
   No ABA: `SendControl` checks the owner, calls out, and checks again.  Whatever calls and
   returns happen in between, on any stack, if both checks pass then the same session was
   active at every step from the first check to the second.
   */
  lemma SendControlSawOneSession(before: seq<Step>, during: seq<Step>, s: Snapshot, k: nat)
    requires k <= |during|
    requires ActiveAs(Run(START, before).core, s)
    requires ActiveAs(Run(Run(START, before), during).core, s)
    ensures ActiveAs(Run(Run(START, before), during[..k]).core, s)
  {
    RunKept(START, before);
    var w := Run(START, before);
    var mid := Run(w, during[..k]);
    StaysPast(w, during[..k], s);
    assert during[..k] + during[k..] == during;
    RunJoin(w, during[..k], during[k..]);
    RunKept(w, during[..k]);
    RunKept(mid, during[k..]);
    if Past(mid.core, s.connection) {
      StaysPast(mid, during[k..], s);
      PastIsInactive(Run(mid, during[k..]), s);
    }
  }
}
