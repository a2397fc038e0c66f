/**
 What the UDP session must answer, over every run: which datagrams it refuses and why,
 where an admitted packet goes, and what beginning a response releases.
 */
module SessionAnswers {
  import opened Machine
  import opened UdpWire
  import Jitter
  import opened SessionModel
  import opened SessionRuns
  import ReplayWindow

  // ---- The source of datagrams -------------------------------------------------------------------

  /** A configured session knows a server, and is bound to it or to nothing. */
  ghost predicate Anchored(s: Session) {
    && (s.configured ==> s.grant.server.Valid() && s.grant.mediaEpoch != 0 && !s.revoked)
    && (!s.configured ==> s.bound == NO_ENDPOINT)
    && (s.bound == NO_ENDPOINT || s.bound == s.grant.server)
  }

  lemma AdmitKeepsAnchor(s: Session, h: Header, payload: Bytes, now: int)
    requires Anchored(s)
    ensures Anchored(Admit(s, h, payload, now).session)
  {
    AdmitChanges(s, h, payload, now);
  }

  lemma ReceiveKeepsAnchor(s: Session, e: Event)
    requires Anchored(s) && e.EvReceive?
    ensures Anchored(Receive(s, e.source, e.header, e.plaintext, e.now).session)
  {
    if Authenticates(s, e) {
      AdmitKeepsAnchor(BindAndCommit(s, e.source, e.header.value.sequence), e.header.value, e.plaintext.value, e.now);
    }
  }

  lemma StepAnchored(t: Tape, e: Event)
    requires Anchored(t.s)
    ensures Anchored(Step(t, e).s)
  {
    if e.EvReceive? {
      ReceiveKeepsAnchor(t.s, e);
    }
  }

  lemma {:induction false} RunAnchored(t: Tape, es: seq<Event>)
    requires Anchored(t.s)
    ensures Anchored(Steps(t, es).s)
    decreases |es|
  {
    if es != [] {
      StepAnchored(t, es[0]);
      RunAnchored(Step(t, es[0]), es[1..]);
    }
  }

  /** Only the counters of datagrams differ. */
  predicate OnlyCounted(s: Session, n: Session) {
    n == s.(tally := n.tally)
  }

  /**
   While no source is bound, a decrypted datagram is refused for its source exactly unless it
   is a probe acknowledgement from the granted server, and that one binds the server.
   */
  lemma UnboundSource(es: seq<Event>, e: Event)
    requires Decrypted(Steps(START, es).s, e) && Steps(START, es).s.bound == NO_ENDPOINT
    ensures var s := Steps(START, es).s;
            var r := Receive(s, e.source, e.header, e.plaintext, e.now);
            && (r.result.WrongSource? <==> !(e.header.value.kind.ProbeAck? && e.source == s.grant.server))
            && (r.result.WrongSource? ==> OnlyCounted(s, r.session))
            && (!r.result.WrongSource? ==> r.session.bound == s.grant.server && e.header.value.sequence in r.session.committed)
  {
    RunAnchored(START, es);
    SourceDecides(Steps(START, es).s, e);
  }

  /** Once a source is bound, a decrypted datagram is refused for its source exactly when that differs. */
  lemma BoundSource(es: seq<Event>, e: Event)
    requires Decrypted(Steps(START, es).s, e) && Steps(START, es).s.bound != NO_ENDPOINT
    ensures var s := Steps(START, es).s;
            var r := Receive(s, e.source, e.header, e.plaintext, e.now);
            && s.bound == s.grant.server
            && (r.result.WrongSource? <==> e.source != s.bound)
            && (r.result.WrongSource? ==> OnlyCounted(s, r.session))
            && (!r.result.WrongSource? ==> e.header.value.sequence in r.session.committed)
  {
    RunAnchored(START, es);
    SourceDecides(Steps(START, es).s, e);
  }

  lemma SourceDecides(s: Session, e: Event)
    requires Anchored(s) && Decrypted(s, e)
    ensures var r := Receive(s, e.source, e.header, e.plaintext, e.now);
            && (r.result.WrongSource? <==> !Authenticates(s, e))
            && (r.result.WrongSource? ==> OnlyCounted(s, r.session))
            && (!r.result.WrongSource? ==>
                  r.session.bound == (if s.bound == NO_ENDPOINT then e.source else s.bound) && e.header.value.sequence in r.session.committed)
  {
    if Authenticates(s, e) {
      AuthenticReceive(s, e);
      var c := BindAndCommit(s, e.source, e.header.value.sequence);
      AdmitChanges(c, e.header.value, e.plaintext.value, e.now);
      AdmissionAnswers(c, e.header.value, e.plaintext.value, e.now);
    } else {
      RefusedOnlyCounted(s, e);
    }
  }

  /** An authenticated datagram is committed, binds its source, and is admitted. */
  lemma AuthenticReceive(s: Session, e: Event)
    requires Authenticates(s, e)
    ensures var r := Receive(s, e.source, e.header, e.plaintext, e.now);
            var a := Admit(BindAndCommit(s, e.source, e.header.value.sequence), e.header.value, e.plaintext.value, e.now);
            r.result == a.result && r.session == a.session.(tally := r.session.tally)
  {
  }

  /** The answers of admission. */
  predicate FromAdmission(r: Admission) {
    r.AcceptedAudio? || r.AcceptedProbeAck? || r.AcceptedKeepalive? || r.StaleGeneration? || r.FutureGeneration? || r.QueueFull? || r.NotReady?
  }

  lemma AdmissionAnswers(s: Session, h: Header, payload: Bytes, now: int)
    ensures FromAdmission(Admit(s, h, payload, now).result)
  {
    if h.kind.Audio? {
      AudioAnswers(s, h, payload, now);
    }
  }

  lemma AudioAnswers(s: Session, h: Header, payload: Bytes, now: int)
    requires h.kind.Audio?
    ensures FromAdmission(Admit(s, h, payload, now).result)
  {
    var stashed := Stash(s.(lastReceive := now), h, payload, now).result;
    assert stashed.FutureGeneration? || stashed.QueueFull?;
  }

  /** The bound source changes only by being bound, by a revocation or by a configuration. */
  lemma BoundStays(es: seq<Event>, e: Event)
    requires !e.EvRevoke? && !e.EvConfigure?
    ensures var s, n := Steps(START, es).s, Step(Steps(START, es), e).s;
            n.bound == s.bound || (s.bound == NO_ENDPOINT && n.bound == s.grant.server && Authenticates(s, e))
  {
    RunAnchored(START, es);
    var t := Steps(START, es);
    if e.EvReceive? {
      if Authenticates(t.s, e) {
        SourceDecides(t.s, e);
      } else {
        RefusedOnlyCounted(t.s, e);
      }
    }
  }

  lemma RefusedOnlyCounted(s: Session, e: Event)
    requires e.EvReceive? && !Authenticates(s, e)
    ensures OnlyCounted(s, Receive(s, e.source, e.header, e.plaintext, e.now).session)
  {
  }

  // ---- Refusals before admission ------------------------------------------------------------------

  /** In every reachable state each early refusal is answered exactly when it applies, first reason first. */
  lemma RefusedFor(es: seq<Event>, e: Event)
    requires e.EvReceive?
    ensures var s := Steps(START, es).s;
            var r := Receive(s, e.source, e.header, e.plaintext, e.now);
            var open := !s.revoked && s.configured;
            var ours := e.header.Some? && e.header.value.mediaId == s.grant.mediaId && e.header.value.mediaEpoch == s.grant.mediaEpoch;
            var fresh_ := e.header.Some? && ReplayWindow.Accepts(s.committed, e.header.value.sequence);
            && (r.result.Revoked? <==> !open)
            && (r.result.InvalidFraming? <==> open && e.header.None?)
            && (r.result.WrongSession? <==> open && e.header.Some? && !ours)
            && (r.result.Replay? <==> open && ours && !fresh_)
            && (r.result.AuthenticationFailed? <==> open && ours && fresh_ && e.plaintext.None?)
            && (!Authenticates(s, e) ==> OnlyCounted(s, r.session))
  {
    RunAnchored(START, es);
    var s := Steps(START, es).s;
    if !Authenticates(s, e) {
      RefusedOnlyCounted(s, e);
    } else {
      AuthenticReceive(s, e);
      AdmissionAnswers(BindAndCommit(s, e.source, e.header.value.sequence), e.header.value, e.plaintext.value, e.now);
    }
  }

  // ---- Where an admitted packet goes --------------------------------------------------------------

  /** A reachable session and an authenticated datagram for it. */
  ghost predicate Arrives(es: seq<Event>, e: Event) {
    (forall x :: x in es ==> WellFormed(x)) && WellFormed(e) && Authenticates(Steps(START, es).s, e)
  }

  /** The session that receives, and the one after it. */
  ghost function Before(es: seq<Event>): Session {
    Steps(START, es).s
  }

  ghost function Answer(es: seq<Event>, e: Event): Received
    requires e.EvReceive?
  {
    Receive(Steps(START, es).s, e.source, e.header, e.plaintext, e.now)
  }

  /** The cursor has not passed this sequence. */
  predicate InTime(b: Jitter.Buffer, q: u32) {
    b.initialized ==> q >= b.expected
  }

  /** What reaching admission means: the packet is new everywhere, and admission decides. */
  lemma Arrived(es: seq<Event>, e: Event)
    requires Arrives(es, e)
    ensures var s, h := Before(es), e.header.value;
            var c := BindAndCommit(s, e.source, h.sequence);
            var a := Admit(c, h, e.plaintext.value, e.now);
            && Gated(s) && Gated(c) && c.jitter == s.jitter && c.stash == s.stash
            && h.sequence !in s.jitter.slots && h.sequence !in s.stash
            && Answer(es, e).result == a.result && Answer(es, e).session.jitter == a.session.jitter && Answer(es, e).session.stash == a.session.stash
            && Answer(es, e).session.ready == a.session.ready && Answer(es, e).session.stats == a.session.stats && c.stats == s.stats
  {
    RunSound(START, es);
    AuthenticReceive(Before(es), e);
    CommitSound(Steps(START, es), e.source, e.header.value, e.plaintext.value);
    BindKeeps(Before(es), e.source, e.header.value.sequence);
  }

  /** Audio of an older generation is stale, whatever else; nothing held changes. */
  lemma OldAudio(es: seq<Event>, e: Event)
    requires Arrives(es, e) && e.header.value.kind.Audio? && e.header.value.generation < Before(es).generation
    ensures var s, r := Before(es), Answer(es, e);
            r.result.StaleGeneration? && r.session.jitter == s.jitter && r.session.stash == s.stash
  {
    Arrived(es, e);
  }

  /** Before the probe was acknowledged audio is not held at all. */
  lemma EarlyAudio(es: seq<Event>, e: Event)
    requires Arrives(es, e) && e.header.value.kind.Audio? && e.header.value.generation >= Before(es).generation && !Before(es).ready
    ensures var s, r := Before(es), Answer(es, e);
            && r.result == (if e.header.value.generation == s.generation then NotReady else FutureGeneration)
            && r.session.jitter == s.jitter && r.session.stash == s.stash
  {
    Arrived(es, e);
  }

  /** Nor is a control packet, unless it is the acknowledgement itself. */
  lemma EarlyControl(es: seq<Event>, e: Event)
    requires Arrives(es, e) && !e.header.value.kind.Audio? && !Before(es).ready
    requires !(e.header.value.kind.ProbeAck? && e.header.value.generation == 0)
    ensures var s, r := Before(es), Answer(es, e);
            && r.result == (if e.header.value.generation == 0 then NotReady else StaleGeneration)
            && !r.session.ready && r.session.jitter == s.jitter && r.session.stash == s.stash
  {
    Arrived(es, e);
  }

  /** Audio of the response being played is held as it arrived, unless the cursor has passed it. */
  lemma PlayableAudio(es: seq<Event>, e: Event)
    requires Arrives(es, e) && e.header.value.kind.Audio? && Before(es).ready
    requires e.header.value.generation == Before(es).generation && Before(es).playbackActive
    ensures var s, h, r := Before(es), e.header.value, Answer(es, e);
            && r.session.stash == s.stash
            && (if InTime(s.jitter, h.sequence)
                then r.result.AcceptedAudio? && h.sequence in r.session.jitter.slots
                     && r.session.jitter.slots[h.sequence] == Jitter.Held(Jitter.AudioSlot, h.timestamp, h.generation, e.now, e.plaintext.value)
                else r.result.QueueFull? && r.session.jitter == s.jitter)
  {
    Arrived(es, e);
    var s, h := Before(es), e.header.value;
    Jitter.ReserveKeepsWindow(s.jitter, s.stats, h.sequence, Jitter.Held(Jitter.AudioSlot, h.timestamp, h.generation, e.now, e.plaintext.value));
  }

  /** The lowest stashed sequence of a generation. */
  ghost predicate OldestStashed(stash: map<u32, Stashed>, g: u32, x: u32) {
    x in stash && stash[x].generation == g && forall y :: y in stash && stash[y].generation == g ==> x <= y
  }

  /**
   Audio of a response that may not play yet is stashed: with room as it arrived; without, in
   place of the oldest frame of its own generation if that is older; else it is turned away.
   */
  lemma FutureAudio(es: seq<Event>, e: Event)
    requires Arrives(es, e) && e.header.value.kind.Audio? && Before(es).ready
    requires var s, g := Before(es), e.header.value.generation; g > s.generation || (g == s.generation && !s.playbackActive)
    ensures var s, h, r := Before(es), e.header.value, Answer(es, e);
            var f := Stashed(h.timestamp, h.generation, e.now, e.plaintext.value);
            && r.session.jitter == s.jitter
            && r.session.stats == (if |s.stash| < 4 then s.stats else s.stats.(queueDropped := Wrap32(s.stats.queueDropped + 1)))
            && (|s.stash| < 4 ==> r.result.FutureGeneration? && r.session.stash == s.stash[h.sequence := f])
            && (|s.stash| >= 4 && (forall y :: y in s.stash && s.stash[y].generation == h.generation ==> h.sequence < y) ==>
                  r.result.QueueFull? && r.session.stash == s.stash)
            && (forall x: u32 :: |s.stash| >= 4 && OldestStashed(s.stash, h.generation, x) && x < h.sequence ==>
                  r.result.FutureGeneration? && r.session.stash == (s.stash - {x})[h.sequence := f])
  {
    Arrived(es, e);
    var s, h := Before(es), e.header.value;
    StashAnswers(s.stash, s.stats, h.sequence, Stashed(h.timestamp, h.generation, e.now, e.plaintext.value));
  }

  /** Such audio, and audio of a later response before the session is ready, counts as of a future generation, kept or not. */
  lemma FutureCounted(es: seq<Event>, e: Event)
    requires Arrives(es, e) && e.header.value.kind.Audio? && e.header.value.generation >= Before(es).generation
    ensures var s, n := Before(es), Answer(es, e).session.tally;
            var future := e.header.value.generation > s.generation || (s.ready && !s.playbackActive);
            n == s.tally.(received := Wrap32(s.tally.received + 1),
                          futureGeneration := if future then Wrap32(s.tally.futureGeneration + 1) else s.tally.futureGeneration)
  {
    AudioCounted(Before(es), e);
  }

  lemma AudioCounted(s: Session, e: Event)
    requires Authenticates(s, e) && e.header.value.kind.Audio? && e.header.value.generation >= s.generation
    ensures var n := Receive(s, e.source, e.header, e.plaintext, e.now).session.tally;
            var future := e.header.value.generation > s.generation || (s.ready && !s.playbackActive);
            n == s.tally.(received := Wrap32(s.tally.received + 1),
                          futureGeneration := if future then Wrap32(s.tally.futureGeneration + 1) else s.tally.futureGeneration)
  {
    var h := e.header.value;
    var r := Admit(BindAndCommit(s, e.source, h.sequence), h, e.plaintext.value, e.now).result;
    TallyOf(s, e, r);
    AudioOutcomes(BindAndCommit(s, e.source, h.sequence), h, e.plaintext.value, e.now);
  }

  lemma TallyOf(s: Session, e: Event, r: Admission)
    requires Authenticates(s, e)
    requires r == Admit(BindAndCommit(s, e.source, e.header.value.sequence), e.header.value, e.plaintext.value, e.now).result
    ensures Receive(s, e.source, e.header, e.plaintext, e.now).session.tally == Count(s.tally, CountedAs(r, ForStash(s, e.header.value)))
  {
  }

  lemma AudioOutcomes(s: Session, h: Header, payload: Bytes, now: int)
    requires h.kind.Audio? && h.generation >= s.generation
    ensures var r := Admit(s, h, payload, now).result;
            if !s.ready then r == if h.generation > s.generation then FutureGeneration else NotReady
            else if h.generation > s.generation || !s.playbackActive then r.FutureGeneration? || r.QueueFull?
            else r.AcceptedAudio? || r.QueueFull?
  {
  }

  lemma StashAnswers(stash: map<u32, Stashed>, st: Jitter.Stats, q: u32, f: Stashed)
    requires q !in stash
    ensures var b := BufferFuture(stash, st, q, f);
            && b.stats == (if |stash| < 4 then st else st.(queueDropped := Wrap32(st.queueDropped + 1)))
            && (|stash| < 4 ==> b.kept && b.stash == stash[q := f])
            && (|stash| >= 4 && (forall y :: y in stash && stash[y].generation == f.generation ==> q < y) ==> !b.kept && b.stash == stash)
            && (forall x: u32 :: |stash| >= 4 && OldestStashed(stash, f.generation, x) && x < q ==> b.kept && b.stash == (stash - {x})[q := f])
  {
    var same := OfGeneration(stash, f.generation).Keys;
    forall x | OldestStashed(stash, f.generation, x)
      ensures same != {} && x == Least(same)
    {
      assert x in same;
    }
    if same != {} {
      assert Least(same) in stash && stash[Least(same)].generation == f.generation;
    }
  }

  /** A control packet of a ready session takes its place in the sequence, unless the cursor has passed it. */
  lemma ControlPacket(es: seq<Event>, e: Event)
    requires Arrives(es, e) && !e.header.value.kind.Audio? && Before(es).ready
    ensures var s, h, r := Before(es), e.header.value, Answer(es, e);
            && r.session.stash == s.stash
            && (if InTime(s.jitter, h.sequence)
                then h.sequence in r.session.jitter.slots && r.session.jitter.slots[h.sequence].kind.ControlSlot?
                else r.session.jitter == s.jitter)
            && r.result == (if h.generation != 0 then StaleGeneration
                            else if !InTime(s.jitter, h.sequence) then QueueFull
                            else if h.kind.ProbeAck? then AcceptedProbeAck else AcceptedKeepalive)
  {
    Arrived(es, e);
    var s, h := Before(es), e.header.value;
    Jitter.ReserveKeepsWindow(s.jitter, s.stats, h.sequence, Jitter.Held(Jitter.ControlSlot, 0, s.generation, e.now, []));
  }

  /** The first probe acknowledgement makes the session ready and expects the sequence after it. */
  lemma FirstAcknowledgement(es: seq<Event>, e: Event)
    requires Arrives(es, e) && e.header.value.kind.ProbeAck? && e.header.value.generation == 0 && !Before(es).ready
    ensures var h, r := e.header.value, Answer(es, e);
            && r.result.AcceptedProbeAck? && r.session.ready
            && r.session.jitter.initialized && r.session.jitter.expected == (if h.sequence == U32_MAX then 0 else h.sequence + 1)
            && r.session.jitter.slots == map[]
  {
    Arrived(es, e);
  }

  // ---- Beginning a response -----------------------------------------------------------------------

  /** The held packet a stashed frame becomes. */
  function HeldOf(f: Stashed): Jitter.Held {
    Jitter.Held(Jitter.AudioSlot, f.timestamp, f.generation, f.arrived, f.payload)
  }

  /** The packet is held, or the cursor has passed its sequence. */
  predicate HeldOrPassed(b: Jitter.Buffer, q: u32, h: Jitter.Held) {
    (q in b.slots && b.slots[q] == h) || (b.initialized && q < b.expected)
  }

  /** Frames that the jitter buffer takes: of its generation, with a payload that fits. */
  ghost predicate Insertable(b: Jitter.Buffer, frames: map<u32, Stashed>) {
    forall q :: q in frames ==>
      frames[q].generation == b.generation && 0 < |frames[q].payload| <= MAX_PAYLOAD_BYTES && q !in b.slots
  }

  /** An insertion keeps every held packet unless the cursor passes it, and never moves the cursor back. */
  lemma InsertKeepsOrPasses(b: Jitter.Buffer, st: Jitter.Stats, q: u32, h: Jitter.Held)
    requires Jitter.InWindow(b) && h.generation == b.generation && q !in b.slots
    ensures var r := Jitter.Reserve(b, st, q, h).buffer;
            && Jitter.InWindow(r) && r.generation == b.generation && r.initialized && HeldOrPassed(r, q, h)
            && (b.initialized ==> r.expected >= b.expected)
            && (forall x: u32, y: Jitter.Held :: HeldOrPassed(b, x, y) ==> HeldOrPassed(r, x, y))
            && (forall x :: x in r.slots ==> x == q || x in b.slots)
  {
    Jitter.ReserveKeepsWindow(b, st, q, h);
    Jitter.ReserveHolds(b, st, q, h);
  }

  lemma RestInsertable(b: Jitter.Buffer, r: Jitter.Buffer, frames: map<u32, Stashed>, q: u32)
    requires Insertable(b, frames) && q in frames && r.generation == b.generation
    requires forall x :: x in r.slots ==> x == q || x in b.slots
    ensures Insertable(r, frames - {q})
  {
  }

  /** Releasing frames in ascending order leaves each held or passed, and packets held before likewise. */
  lemma {:induction false} ReleaseDelivers(b: Jitter.Buffer, st: Jitter.Stats, frames: map<u32, Stashed>, x: u32, y: Jitter.Held)
    requires Jitter.InWindow(b) && Insertable(b, frames)
    requires HeldOrPassed(b, x, y) || (x in frames && y == HeldOf(frames[x]))
    ensures HeldOrPassed(InsertAscending(b, st, frames).0, x, y)
    decreases |frames|
  {
    if frames != map[] {
      var q := Least(frames.Keys);
      var f := frames[q];
      var i := Jitter.InsertAudio(b, st, q, f.timestamp, f.generation, f.payload, f.arrived);
      InsertKeepsOrPasses(b, st, q, HeldOf(f));
      RestInsertable(b, i.buffer, frames, q);
      assert (frames - {q}).Keys == frames.Keys - {q};
      ReleaseDelivers(i.buffer, i.stats, frames - {q}, x, y);
    }
  }

  /** While every frame lies within the four sequences of the cursor, a release does not move it. */
  lemma {:induction false} ReleaseStays(b: Jitter.Buffer, st: Jitter.Stats, frames: map<u32, Stashed>, c: u32)
    requires Jitter.InWindow(b) && Insertable(b, frames) && frames != map[]
    requires if b.initialized then c == b.expected else c == Least(frames.Keys)
    requires forall q :: q in frames ==> q < c + 4
    ensures InsertAscending(b, st, frames).0.initialized && InsertAscending(b, st, frames).0.expected == c
    decreases |frames|
  {
    var q := Least(frames.Keys);
    var f := frames[q];
    var i := Jitter.InsertAudio(b, st, q, f.timestamp, f.generation, f.payload, f.arrived);
    InsertKeepsOrPasses(b, st, q, HeldOf(f));
    RestInsertable(b, i.buffer, frames, q);
    assert (frames - {q}).Keys == frames.Keys - {q};
    assert i.buffer.expected == c;
    if frames - {q} != map[] {
      ReleaseStays(i.buffer, i.stats, frames - {q}, c);
    }
  }

  /** Audio is authenticated only with a payload that fits. */
  ghost predicate PayloadsFit(log: map<u32, Authentic>) {
    forall q :: q in log && log[q].audio ==> 0 < |log[q].payload| <= MAX_PAYLOAD_BYTES
  }

  lemma StepPayloadsFit(t: Tape, e: Event)
    requires PayloadsFit(t.log) && WellFormed(e)
    ensures PayloadsFit(Step(t, e).log)
  {
  }

  lemma {:induction false} RunPayloadsFit(t: Tape, es: seq<Event>)
    requires PayloadsFit(t.log) && forall e :: e in es ==> WellFormed(e)
    ensures PayloadsFit(Steps(t, es).log)
    decreases |es|
  {
    if es != [] {
      assert es[0] in es;
      StepPayloadsFit(t, es[0]);
      RunPayloadsFit(Step(t, es[0]), es[1..]);
    }
  }

  lemma StashInsertable(t: Tape, g: u32)
    requires Sound(t) && PayloadsFit(t.log) && g >= t.s.generation
    ensures Insertable(if g > t.s.generation then Jitter.Empty(g) else t.s.jitter, OfGeneration(t.s.stash, g))
  {
  }

  /**
   An accepted advance leaves playback active with its generation; every stashed frame of that
   generation leaves the stash and is held for playout, or the cursor has passed it; newer
   frames stay stashed as they are.
   */
  lemma AdvanceReleases(es: seq<Event>, g: u32)
    requires forall e :: e in es ==> WellFormed(e)
    requires !Before(es).revoked && g >= Before(es).generation
    ensures var s, n := Before(es), Advance(Before(es), g);
            && n.playbackActive && n.generation == g
            && (forall q :: q in s.stash && s.stash[q].generation == g ==> q !in n.stash && HeldOrPassed(n.jitter, q, HeldOf(s.stash[q])))
            && (forall q :: q in s.stash && s.stash[q].generation > g ==> q in n.stash && n.stash[q] == s.stash[q])
  {
    RunSound(START, es);
    RunPayloadsFit(START, es);
    var t := Steps(START, es);
    StashInsertable(t, g);
    var b := if g > t.s.generation then Jitter.Empty(g) else t.s.jitter;
    var frames := OfGeneration(t.s.stash, g);
    forall q | q in t.s.stash && t.s.stash[q].generation == g
      ensures HeldOrPassed(Advance(t.s, g).jitter, q, HeldOf(t.s.stash[q]))
    {
      assert q in frames;
      ReleaseDelivers(b, t.s.stats, frames, q, HeldOf(frames[q]));
      AdvanceJitter(t.s, g);
    }
  }

  /** Of a revoked session, or backwards, nothing is advanced; else exactly the newer frames stay stashed, and nothing else changes. */
  lemma AdvanceDecides(es: seq<Event>, g: u32)
    ensures var s, n := Before(es), Advance(Before(es), g);
            if s.revoked || g < s.generation then n == s
            else
              && (forall q :: q in n.stash <==> q in s.stash && s.stash[q].generation > g)
              && (forall q :: q in n.stash ==> n.stash[q] == s.stash[q])
              && n == s.(playbackActive := true, generation := g, jitter := n.jitter, stash := n.stash, stats := n.stats)
  {
  }

  lemma AdvanceJitter(s: Session, g: u32)
    requires !s.revoked && g >= s.generation
    ensures Advance(s, g).jitter ==
            InsertAscending(if g > s.generation then Jitter.Empty(g) else s.jitter, s.stats, OfGeneration(s.stash, g)).0
  {
  }

  /** A response of a newer generation starts at its lowest stashed frame, with all frames within four of it held. */
  lemma AdvanceHoldsWindow(es: seq<Event>, g: u32, low: u32)
    requires forall e :: e in es ==> WellFormed(e)
    requires !Before(es).revoked && g > Before(es).generation
    requires OldestStashed(Before(es).stash, g, low)
    requires forall q :: q in Before(es).stash && Before(es).stash[q].generation == g ==> q < low + 4
    ensures var s, n := Before(es), Advance(Before(es), g);
            && n.jitter.initialized && n.jitter.expected == low
            && forall q :: q in s.stash && s.stash[q].generation == g ==> q in n.jitter.slots && n.jitter.slots[q] == HeldOf(s.stash[q])
  {
    RunSound(START, es);
    RunPayloadsFit(START, es);
    AdvanceStarts(Steps(START, es), g, low);
    AdvanceReleases(es, g);
  }

  lemma AdvanceStarts(t: Tape, g: u32, low: u32)
    requires Sound(t) && PayloadsFit(t.log) && !t.s.revoked && g > t.s.generation && OldestStashed(t.s.stash, g, low)
    requires forall q :: q in t.s.stash && t.s.stash[q].generation == g ==> q < low + 4
    ensures Advance(t.s, g).jitter.initialized && Advance(t.s, g).jitter.expected == low
  {
    StashInsertable(t, g);
    var frames := OfGeneration(t.s.stash, g);
    assert low in frames.Keys && frames != map[];
    assert low == Least(frames.Keys);
    ReleaseStays(Jitter.Empty(g), t.s.stats, frames, low);
    AdvanceJitter(t.s, g);
  }

  // ---- Fencing ------------------------------------------------------------------------------------

  lemma StepStaysSilent(t: Tape, e: Event)
    requires !t.s.playbackActive && !e.EvAdvance?
    ensures !Step(t, e).s.playbackActive
  {
    if e.EvReceive? {
      if Authenticates(t.s, e) {
        AuthenticReceive(t.s, e);
        AdmitChanges(BindAndCommit(t.s, e.source, e.header.value.sequence), e.header.value, e.plaintext.value, e.now);
      } else {
        RefusedOnlyCounted(t.s, e);
      }
    }
  }

  lemma {:induction false} StaysSilent(t: Tape, es: seq<Event>)
    requires !t.s.playbackActive && forall e :: e in es ==> !e.EvAdvance?
    ensures !Steps(t, es).s.playbackActive
    decreases |es|
  {
    if es != [] {
      assert es[0] in es;
      StepStaysSilent(t, es[0]);
      StaysSilent(Step(t, es[0]), es[1..]);
    }
  }

  /** From an accepted fence on, whatever arrives, no audio is given out before a response is begun. */
  lemma FenceSilences(es: seq<Event>, g: u32, more: seq<Event>, now: int)
    requires !Before(es).revoked && g >= Before(es).generation
    requires (forall e :: e in es ==> WellFormed(e)) && forall e :: e in more ==> WellFormed(e) && !e.EvAdvance?
    ensures var s := Steps(Step(Steps(START, es), EvFence(g)), more).s;
            !PopPlayout(s, now).1.kind.AudioFrame?
  {
    RunSound(START, es);
    var t := Step(Steps(START, es), EvFence(g));
    StepSound(Steps(START, es), EvFence(g));
    RunSound(t, more);
    StaysSilent(t, more);
    SilentPops(Steps(t, more), now);
  }

  lemma SilentPops(t: Tape, now: int)
    requires Sound(t) && !t.s.playbackActive
    ensures !PopPlayout(t.s, now).1.kind.AudioFrame?
  {
    if PopPlayout(t.s, now).1.kind.AudioFrame? {
      Jitter.PopMeaning(t.s.jitter, t.s.stats, now);
    }
  }

  /** What an accepted fence leaves: nothing to play, and of the stash only frames a newer fence allows; a refused one leaves all. */
  lemma FenceDecides(es: seq<Event>, g: u32)
    ensures var s, n := Before(es), Fence(Before(es), g);
            if s.revoked || g < s.generation then n == s
            else
              && !n.playbackActive && n.generation == g && n.jitter == Jitter.Buffer(g, false, 0, map[])
              && (forall q :: q in n.stash <==> q in s.stash && g > s.generation && s.stash[q].generation >= g)
              && (forall q :: q in n.stash ==> n.stash[q] == s.stash[q])
              && n == s.(playbackActive := false, generation := g, jitter := n.jitter, stash := n.stash)
  {
  }

  // ---- Configuring and revoking -------------------------------------------------------------------

  /** A grant is accepted exactly with a valid server, a media epoch, a first generation and installed keys; all starts afresh. */
  lemma ConfigureDecides(s: Session, g: Grant, keysAccepted: bool)
    ensures var n := Configure(s, g, keysAccepted);
            var server := (|g.server.address| == 4 || |g.server.address| == 16) && g.server.port > 0;
            if server && g.mediaEpoch > 0 && g.initialGeneration > 0 && keysAccepted
            then n == Session(g, {}, Jitter.Buffer(g.initialGeneration, false, 0, map[]), map[], Jitter.Stats(0, 0, 0, 0, 0, 0, 0),
                              Endpoint([], 0), [], 0, g.initialGeneration, 0, false, true, false, false, Tally(0, 0, 0, 0, 0, 0, 0, 0))
            else n == Revoke(s)
  {
  }

  /** A revoked session holds nothing, is bound to nothing, sends nothing, and forgets its grant and its send counter. */
  lemma RevokeDecides(s: Session)
    ensures var n := Revoke(s);
            && n.revoked && !n.ready && !n.configured && !n.playbackActive && n.bound == Endpoint([], 0)
            && n.jitter == Jitter.Buffer(s.generation, false, 0, map[]) && n.stash == map[] && n.grant == NO_GRANT && n.probe == []
            && n.sendSequence == 0 && n.lastReceive == 0
            && n.generation == s.generation && n.committed == s.committed && n.stats == s.stats && n.tally == s.tally
  {
  }

  // ---- Playout ------------------------------------------------------------------------------------

  /**
   Exactly what the session gives out, in every reachable state: nothing before the probe was
   acknowledged or after a revocation; else what the jitter buffer has at c, behind the n control
   packets at its cursor: the audio held there, concealment, or nothing.
   */
  lemma PlayoutDecides(es: seq<Event>, now: int, n: nat)
    requires forall e :: e in es ==> WellFormed(e)
    requires Before(es).jitter.initialized && Jitter.ControlsAtCursor(Before(es).jitter, n)
    ensures var s := Before(es);
            PopPlayout(s, now).1 == if s.ready && !s.revoked then Jitter.Pop(s.jitter, s.stats, now).frame else Jitter.NO_FRAME
    ensures var s := Before(es);
            Jitter.Called(s.jitter, s.jitter.expected + n, now, Jitter.Pop(s.jitter, s.stats, now).frame.kind)
  {
    ReachedInWindow(es);
    PopsFromJitter(Before(es), now);
    Jitter.PopDecides(Before(es).jitter, Before(es).stats, now, n);
  }

  lemma ReachedInWindow(es: seq<Event>)
    requires forall e :: e in es ==> WellFormed(e)
    ensures Jitter.InWindow(Before(es).jitter)
  {
    RunSound(START, es);
  }

  lemma PopsFromJitter(s: Session, now: int)
    ensures PopPlayout(s, now).1 == if s.ready && !s.revoked then Jitter.Pop(s.jitter, s.stats, now).frame else Jitter.NO_FRAME
  {
  }

  /** The time of the last authenticated packet is remembered, but for a control packet of a stale generation. */
  lemma ReceiveTime(es: seq<Event>, e: Event)
    requires Arrives(es, e)
    ensures Answer(es, e).session.lastReceive ==
            if e.header.value.kind.Audio? || e.header.value.generation == 0 then e.now else Before(es).lastReceive
  {
    AuthenticReceive(Before(es), e);
    var s, h := Before(es), e.header.value;
    AdmitTime(BindAndCommit(s, e.source, h.sequence), h, e.plaintext.value, e.now);
  }

  lemma AdmitTime(s: Session, h: Header, payload: Bytes, now: int)
    ensures Admit(s, h, payload, now).session.lastReceive == if h.kind.Audio? || h.generation == 0 then now else s.lastReceive
  {
    var r := s.(lastReceive := now);
    assert Stash(r, h, payload, now).session.lastReceive == now;
  }
}
