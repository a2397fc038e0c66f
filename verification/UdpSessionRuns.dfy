/**
 Whole runs of the UDP session: what every operation keeps, and what therefore holds of
 every frame that leaves it, for every order of datagrams, playouts and control calls.
 */
module SessionRuns {
  import opened Machine
  import opened UdpWire
  import opened Jitter
  import opened SessionModel
  import ReplayWindow

  /** What was authenticated under one sequence. */
  datatype Authentic = Authentic(audio: bool, timestamp: u32, generation: u32, payload: Bytes)

  /** A session with the history since it was configured: authenticated packets and audio played. */
  datatype Tape = Tape(s: Session, log: map<u32, Authentic>, played: seq<PlayoutFrame>)

  datatype Event =
    | EvConfigure(grant: Grant, keysAccepted: bool)
    | EvRevoke
    | EvFence(generation: u32)
    | EvAdvance(generation: u32)
    | EvReceive(source: Endpoint, header: Option<Header>, plaintext: Option<Bytes>, now: int)
    | EvPop(now: int)

  /** Framing accepts only audio, probe acknowledgements and keepalives; decryption keeps the length. */
  ghost predicate WellFormed(e: Event) {
    e.EvReceive? && e.header.Some? ==>
      && HeaderShapeValid(e.header.value, Downlink)
      && (e.plaintext.Some? ==> |e.plaintext.value| == e.header.value.payloadLength)
  }

  /** The datagram of this event is framed, of this session, fresh and decrypted. */
  ghost predicate Decrypted(s: Session, e: Event) {
    && e.EvReceive? && !s.revoked && s.configured && e.header.Some? && e.plaintext.Some?
    && e.header.value.mediaId == s.grant.mediaId && e.header.value.mediaEpoch == s.grant.mediaEpoch != 0
    && ReplayWindow.Accepts(s.committed, e.header.value.sequence)
  }

  /** It also comes from the bound source, or is the acknowledgement from the granted server that binds it. */
  ghost predicate Authenticates(s: Session, e: Event) {
    && Decrypted(s, e)
    && if s.bound.Valid() then e.source == s.bound
       else e.header.value.kind.ProbeAck? && e.source == s.grant.server && e.source.Valid()
  }

  function AuthenticOf(h: Header, payload: Bytes): Authentic {
    Authentic(h.kind.Audio?, h.timestamp, h.generation, payload)
  }

  ghost function Step(t: Tape, e: Event): Tape {
    match e
    case EvConfigure(g, k) =>
      if GrantAccepted(g, k) then Tape(Configure(t.s, g, k), map[], []) else t.(s := Configure(t.s, g, k))
    case EvRevoke => t.(s := Revoke(t.s))
    case EvFence(g) => t.(s := Fence(t.s, g))
    case EvAdvance(g) => t.(s := Advance(t.s, g))
    case EvReceive(source, header, plaintext, now) =>
      var log := if Authenticates(t.s, e) then t.log[header.value.sequence := AuthenticOf(header.value, plaintext.value)] else t.log;
      t.(s := Receive(t.s, source, header, plaintext, now).session, log := log)
    case EvPop(now) =>
      var (s, f) := PopPlayout(t.s, now);
      t.(s := s, played := if f.kind.AudioFrame? then t.played + [f] else t.played)
  }

  ghost function Steps(t: Tape, es: seq<Event>): Tape
    decreases |es|
  {
    if es == [] then t else Steps(Step(t, es[0]), es[1..])
  }

  const START := Tape(INITIAL, map[], [])

  // ---- The session invariant ---------------------------------------------------------------

  ghost predicate SlotsLogged(slots: map<u32, Held>, log: map<u32, Authentic>) {
    forall q :: q in slots ==>
      && q in log
      && (slots[q].kind.AudioSlot? ==> log[q] == Authentic(true, slots[q].timestamp, slots[q].generation, slots[q].payload))
  }

  ghost predicate StashLogged(stash: map<u32, Stashed>, log: map<u32, Authentic>) {
    forall q :: q in stash ==>
      q in log && log[q] == Authentic(true, stash[q].timestamp, stash[q].generation, stash[q].payload)
  }

  ghost predicate PlayedLogged(played: seq<PlayoutFrame>, log: map<u32, Authentic>) {
    forall i :: 0 <= i < |played| ==>
      && played[i].kind.AudioFrame? && played[i].sequence in log
      && log[played[i].sequence] == Authentic(true, played[i].timestamp, played[i].generation, played[i].payload)
  }

  ghost predicate PlayedOnce(played: seq<PlayoutFrame>) {
    forall i, j :: 0 <= i < j < |played| ==> played[i].sequence != played[j].sequence
  }

  /** None of these sequences was played. */
  ghost predicate Unplayed(keys: set<u32>, played: seq<PlayoutFrame>) {
    forall i :: 0 <= i < |played| ==> played[i].sequence !in keys
  }

  /** Audio is held for playout only while its response is active, and only of the current generation. */
  ghost predicate Gated(s: Session) {
    && InWindow(s.jitter) && s.jitter.generation == s.generation
    && (forall q :: q in s.jitter.slots && s.jitter.slots[q].kind.AudioSlot? ==> s.playbackActive)
    && (forall q :: q in s.stash ==>
          s.stash[q].generation >= s.generation && (s.playbackActive ==> s.stash[q].generation > s.generation))
    && (!s.ready ==> s.jitter.slots == map[] && s.stash == map[])
    && (s.revoked ==> !s.ready)
    && |s.stash| <= FUTURE_FRAMES
  }

  /** Every authenticated sequence is in at most one place: jitter buffer, stash, or played. */
  ghost predicate InOnePlace(t: Tape) {
    && t.s.jitter.slots.Keys !! t.s.stash.Keys
    && Unplayed(t.s.jitter.slots.Keys, t.played)
    && Unplayed(t.s.stash.Keys, t.played)
    && PlayedOnce(t.played)
  }

  ghost predicate Logged(t: Tape) {
    && SlotsLogged(t.s.jitter.slots, t.log)
    && StashLogged(t.s.stash, t.log)
    && PlayedLogged(t.played, t.log)
  }

  ghost predicate Sound(t: Tape) {
    Gated(t.s) && InOnePlace(t) && Logged(t) && t.s.committed == t.log.Keys
  }

  // ---- Preservation ------------------------------------------------------------------------

  lemma {:induction false} AscendingKeeps(b: Buffer, st: Stats, frames: map<u32, Stashed>, log: map<u32, Authentic>)
    requires InWindow(b) && SlotsLogged(b.slots, log) && StashLogged(frames, log)
    ensures var (r, _) := InsertAscending(b, st, frames);
      && InWindow(r) && r.generation == b.generation && SlotsLogged(r.slots, log)
      && r.slots.Keys <= b.slots.Keys + frames.Keys
    decreases |frames|
  {
    if frames != map[] {
      var q := Least(frames.Keys);
      var f := frames[q];
      var held := Held(AudioSlot, f.timestamp, f.generation, f.arrived, f.payload);
      var i := InsertAudio(b, st, q, f.timestamp, f.generation, f.payload, f.arrived);
      InsertKeeps(b, st, q, held, log);
      assert (frames - {q}).Keys == frames.Keys - {q};
      AscendingKeeps(i.buffer, i.stats, frames - {q}, log);
    }
  }

  lemma InsertKeeps(b: Buffer, st: Stats, q: u32, held: Held, log: map<u32, Authentic>)
    requires InWindow(b) && SlotsLogged(b.slots, log) && q in log
    requires held.kind.AudioSlot? && log[q] == Authentic(true, held.timestamp, held.generation, held.payload)
    ensures var r := Reserve(b, st, q, held).buffer;
            InWindow(r) && r.generation == b.generation && SlotsLogged(r.slots, log) && r.slots.Keys <= b.slots.Keys + {q}
  {
    ReserveSubset(b, st, q, held);
  }

  /** Whatever the outcome, an insertion holds old packets unchanged, and possibly the new one. */
  lemma ReserveSubset(b: Buffer, st: Stats, q: u32, held: Held)
    requires InWindow(b)
    ensures var r := Reserve(b, st, q, held).buffer;
      && InWindow(r) && r.generation == b.generation
      && forall x :: x in r.slots ==> if x == q && x !in b.slots then r.slots[x] == held else x in b.slots && r.slots[x] == b.slots[x]
  {
    ReserveKeepsWindow(b, st, q, held);
  }

  lemma StashSplit(stash: map<u32, Stashed>, g: u32)
    requires |stash| <= FUTURE_FRAMES
    ensures |AboveGeneration(stash, g)| <= FUTURE_FRAMES && |FromGeneration(stash, g)| <= FUTURE_FRAMES
    ensures AboveGeneration(stash, g).Keys <= stash.Keys && FromGeneration(stash, g).Keys <= stash.Keys
    ensures OfGeneration(stash, g).Keys <= stash.Keys && OfGeneration(stash, g).Keys !! AboveGeneration(stash, g).Keys
  {
    SubsetSize(AboveGeneration(stash, g).Keys, stash.Keys);
    SubsetSize(FromGeneration(stash, g).Keys, stash.Keys);
  }

  ghost predicate SubMap<V>(a: map<u32, V>, b: map<u32, V>) {
    forall q :: q in a ==> q in b && a[q] == b[q]
  }

  /** Holding fewer packets keeps the history sound. */
  lemma NarrowSound(t: Tape, s: Session)
    requires Sound(t) && Gated(s) && s.committed == t.s.committed
    requires SubMap(s.jitter.slots, t.s.jitter.slots) && SubMap(s.stash, t.s.stash)
    ensures Sound(t.(s := s))
  {
    assert s.jitter.slots.Keys <= t.s.jitter.slots.Keys && s.stash.Keys <= t.s.stash.Keys;
    assert SlotsLogged(s.jitter.slots, t.log);
    assert StashLogged(s.stash, t.log);
  }

  lemma FenceGated(s: Session, g: u32)
    requires Gated(s) && !GenerationRefused(s, g)
    ensures Gated(Fence(s, g))
    ensures SubMap(Fence(s, g).jitter.slots, s.jitter.slots) && SubMap(Fence(s, g).stash, s.stash)
  {
    StashSplit(s.stash, g);
  }

  lemma FenceSound(t: Tape, g: u32)
    requires Sound(t)
    ensures Sound(t.(s := Fence(t.s, g)))
  {
    if !GenerationRefused(t.s, g) {
      FenceGated(t.s, g);
      NarrowSound(t, Fence(t.s, g));
    }
  }

  lemma ReleaseSound(t: Tape)
    requires InOnePlace(t) && Logged(t) && t.s.committed == t.log.Keys
    requires InWindow(t.s.jitter) && t.s.jitter.generation == t.s.generation && t.s.playbackActive
    requires !t.s.ready ==> t.s.jitter.slots == map[] && t.s.stash == map[]
    requires (t.s.revoked ==> !t.s.ready) && |t.s.stash| <= FUTURE_FRAMES
    ensures Sound(t.(s := Release(t.s)))
  {
    var frames := OfGeneration(t.s.stash, t.s.generation);
    StashSplit(t.s.stash, t.s.generation);
    AscendingKeeps(t.s.jitter, t.s.stats, frames, t.log);
    var r := Release(t.s);
    assert r.jitter.slots.Keys <= t.s.jitter.slots.Keys + t.s.stash.Keys;
    assert t.s.stash == map[] ==> frames == map[];
  }

  lemma AdvanceSound(t: Tape, g: u32)
    requires Sound(t)
    ensures Sound(t.(s := Advance(t.s, g)))
  {
    if !GenerationRefused(t.s, g) {
      var moved := if g > t.s.generation then t.s.(generation := g, jitter := Empty(g)) else t.s;
      ReleaseSound(t.(s := moved.(playbackActive := true)));
    }
  }

  /** The tape just after committing `q`: sound, except that `q` is not yet anywhere. */
  ghost predicate Committed(t: Tape, q: u32) {
    && Sound(t) && t.s.configured && !t.s.revoked
    && q in t.log && q !in t.s.jitter.slots && q !in t.s.stash && Unplayed({q}, t.played)
  }

  lemma LargerLog(t: Tape, q: u32, a: Authentic)
    requires Logged(t) && q !in t.log
    ensures Logged(t.(log := t.log[q := a]))
    ensures Unplayed({q}, t.played) && q !in t.s.jitter.slots && q !in t.s.stash
  {
    var log := t.log[q := a];
    assert SlotsLogged(t.s.jitter.slots, log);
    assert StashLogged(t.s.stash, log);
    assert PlayedLogged(t.played, log);
  }

  lemma BindKeeps(s: Session, source: Endpoint, q: u32)
    requires Gated(s)
    ensures var r := BindAndCommit(s, source, q);
      && Gated(r) && r.jitter.slots == s.jitter.slots && r.stash == s.stash
      && r.configured == s.configured && r.revoked == s.revoked && r.committed == s.committed + {q}
  {
  }

  lemma CommitSound(t: Tape, source: Endpoint, h: Header, payload: Bytes)
    requires Sound(t) && t.s.configured && !t.s.revoked && ReplayWindow.Accepts(t.s.committed, h.sequence)
    ensures Committed(Tape(BindAndCommit(t.s, source, h.sequence), t.log[h.sequence := AuthenticOf(h, payload)], t.played), h.sequence)
  {
    var a := AuthenticOf(h, payload);
    assert h.sequence !in t.log by {
      assert h.sequence !in t.s.committed;
    }
    CommitFresh(t, source, h.sequence, a);
  }

  lemma CommitFresh(t: Tape, source: Endpoint, q: u32, a: Authentic)
    requires Sound(t) && t.s.configured && !t.s.revoked && q !in t.log
    ensures Committed(Tape(BindAndCommit(t.s, source, q), t.log[q := a], t.played), q)
  {
    LargerLog(t, q, a);
    BindKeeps(t.s, source, q);
    var n := Tape(BindAndCommit(t.s, source, q), t.log[q := a], t.played);
    assert n.s.committed == n.log.Keys;
    SamePlaces(t, n);
    SameLogged(t.(log := n.log), n);
  }

  lemma SamePlaces(t: Tape, n: Tape)
    requires InOnePlace(t) && n.s.jitter.slots == t.s.jitter.slots && n.s.stash == t.s.stash && n.played == t.played
    ensures InOnePlace(n)
  {
  }

  lemma SameLogged(t: Tape, n: Tape)
    requires Logged(t) && n.s.jitter.slots == t.s.jitter.slots && n.s.stash == t.s.stash && n.played == t.played && n.log == t.log
    ensures Logged(n)
  {
  }

  lemma ReservedSound(t: Tape, q: u32, held: Held)
    requires Committed(t, q) && t.s.ready
    requires held.kind.AudioSlot? ==>
               t.s.playbackActive && t.log[q] == Authentic(true, held.timestamp, held.generation, held.payload)
    ensures var i := Reserve(t.s.jitter, t.s.stats, q, held); Sound(t.(s := t.s.(jitter := i.buffer, stats := i.stats)))
  {
    ReserveSubset(t.s.jitter, t.s.stats, q, held);
    var i := Reserve(t.s.jitter, t.s.stats, q, held);
    assert i.buffer.slots.Keys <= t.s.jitter.slots.Keys + {q};
  }

  lemma StashedSound(t: Tape, q: u32, f: Stashed)
    requires Committed(t, q) && t.s.ready
    requires f.generation >= t.s.generation && (t.s.playbackActive ==> f.generation > t.s.generation)
    requires t.log[q] == Authentic(true, f.timestamp, f.generation, f.payload)
    ensures var b := BufferFuture(t.s.stash, t.s.stats, q, f); Sound(t.(s := t.s.(stash := b.stash, stats := b.stats)))
  {
    StashSubset(t.s.stash, t.s.stats, q, f);
  }

  /** Whatever the outcome, the stash holds old frames unchanged, and possibly the new one. */
  lemma StashSubset(stash: map<u32, Stashed>, st: Stats, q: u32, f: Stashed)
    requires |stash| <= FUTURE_FRAMES && q !in stash
    ensures var b := BufferFuture(stash, st, q, f).stash;
      && |b| <= FUTURE_FRAMES && b.Keys <= stash.Keys + {q}
      && forall x :: x in b ==> if x == q then b[x] == f else x in stash && b[x] == stash[x]
  {
    var same := OfGeneration(stash, f.generation).Keys;
    if |stash| >= FUTURE_FRAMES && same != {} {
      var less := stash - {Least(same)};
      assert less.Keys == stash.Keys - {Least(same)};
      assert |less| == |stash| - 1;
    }
  }

  lemma AdmitSound(t: Tape, h: Header, payload: Bytes, now: int)
    requires Committed(t, h.sequence) && t.log[h.sequence] == AuthenticOf(h, payload)
    requires HeaderShapeValid(h, Downlink) && |payload| == h.payloadLength
    ensures Sound(t.(s := Admit(t.s, h, payload, now).session))
  {
    var r := t.(s := t.s.(lastReceive := now));
    assert Committed(r, h.sequence);
    if !h.kind.Audio? {
      if t.s.ready {
        ReservedSound(t, h.sequence, Held(ControlSlot, 0, t.s.generation, now, []));
        ReservedSound(r, h.sequence, Held(ControlSlot, 0, t.s.generation, now, []));
      }
    } else if t.s.ready && h.generation >= t.s.generation {
      if h.generation > t.s.generation || !t.s.playbackActive {
        StashedSound(r, h.sequence, Stashed(h.timestamp, h.generation, now, payload));
      } else {
        ReservedSound(r, h.sequence, Held(AudioSlot, h.timestamp, h.generation, now, payload));
      }
    }
  }

  lemma PlaySound(t: Tape, f: PlayoutFrame)
    requires Sound(t) && f.kind.AudioFrame?
    requires f.sequence in t.log && t.log[f.sequence] == Authentic(true, f.timestamp, f.generation, f.payload)
    requires f.sequence !in t.s.jitter.slots && f.sequence !in t.s.stash && Unplayed({f.sequence}, t.played)
    ensures Sound(t.(played := t.played + [f]))
  {
    var played := t.played + [f];
    assert PlayedOnce(played);
    assert PlayedLogged(played, t.log);
  }

  lemma PopSound(t: Tape, now: int)
    requires Sound(t)
    ensures Sound(Step(t, EvPop(now)))
  {
    if !t.s.revoked && t.s.ready {
      PopKeepsWindow(t.s.jitter, t.s.stats, now);
      PopMeaning(t.s.jitter, t.s.stats, now);
      var (s, f) := PopPlayout(t.s, now);
      assert Gated(s);
      NarrowSound(t, s);
      if f.kind.AudioFrame? {
        assert IsLowestAudio(t.s.jitter, Pop(t.s.jitter, t.s.stats, now));
        assert f.sequence in t.s.jitter.slots.Keys;
        PlaySound(t.(s := s), f);
      }
    }
  }

  lemma ReceiveSound(t: Tape, source: Endpoint, header: Option<Header>, plaintext: Option<Bytes>, now: int)
    requires Sound(t) && WellFormed(EvReceive(source, header, plaintext, now))
    ensures Sound(Step(t, EvReceive(source, header, plaintext, now)))
  {
    var e := EvReceive(source, header, plaintext, now);
    if Authenticates(t.s, e) {
      var h := header.value;
      var committed := Tape(BindAndCommit(t.s, source, h.sequence), t.log[h.sequence := AuthenticOf(h, plaintext.value)], t.played);
      CommitSound(t, source, h, plaintext.value);
      AdmitSound(committed, h, plaintext.value, now);
      TallySound(committed.(s := Admit(committed.s, h, plaintext.value, now).session), Step(t, e).s.tally);
    } else {
      TallySound(t, Step(t, e).s.tally);
      assert Step(t, e) == t.(s := t.s.(tally := Step(t, e).s.tally));
    }
  }

  /** Counters of datagrams have no part in what is played. */
  lemma TallySound(t: Tape, tally: Tally)
    requires Sound(t)
    ensures Sound(t.(s := t.s.(tally := tally)))
  {
  }

  lemma RevokeSound(t: Tape)
    requires Sound(t)
    ensures Sound(t.(s := Revoke(t.s)))
  {
    assert Gated(Revoke(t.s));
    NarrowSound(t, Revoke(t.s));
  }

  lemma ConfiguredSound(s: Session, g: Grant)
    requires GrantAccepted(g, true)
    ensures Sound(Tape(Configure(s, g, true), map[], []))
  {
  }

  lemma StepSound(t: Tape, e: Event)
    requires Sound(t) && WellFormed(e)
    ensures Sound(Step(t, e))
  {
    match e {
      case EvConfigure(g, k) =>
        if GrantAccepted(g, k) {
          ConfiguredSound(t.s, g);
        } else {
          RevokeSound(t);
        }
      case EvRevoke => RevokeSound(t);
      case EvFence(g) => FenceSound(t, g);
      case EvAdvance(g) => AdvanceSound(t, g);
      case EvPop(now) => PopSound(t, now);
      case EvReceive(source, header, plaintext, now) => ReceiveSound(t, source, header, plaintext, now);
    }
  }

  lemma {:induction false} RunSound(t: Tape, es: seq<Event>)
    requires Sound(t) && forall e :: e in es ==> WellFormed(e)
    ensures Sound(Steps(t, es))
    decreases |es|
  {
    if es != [] {
      StepSound(t, es[0]);
      RunSound(Step(t, es[0]), es[1..]);
    }
  }

  // ---- Main results over every run -----------------------------------------------------------

  /** In every reachable state audio leaves only while playback is active, with the current generation. */
  lemma AudioOnlyWhileActive(es: seq<Event>, now: int)
    requires forall e :: e in es ==> WellFormed(e)
    ensures var s := Steps(START, es).s;
            PopPlayout(s, now).1.kind.AudioFrame? ==>
              s.playbackActive && !s.revoked && s.ready && PopPlayout(s, now).1.generation == s.generation
  {
    RunSound(START, es);
    var s := Steps(START, es).s;
    if PopPlayout(s, now).1.kind.AudioFrame? {
      PopMeaning(s.jitter, s.stats, now);
    }
  }

  /** No sequence is played twice between two configurations, whichever path its packet took. */
  lemma EachSequencePlayedOnce(es: seq<Event>, i: nat, j: nat)
    requires forall e :: e in es ==> WellFormed(e)
    requires i < j < |Steps(START, es).played|
    ensures Steps(START, es).played[i].sequence != Steps(START, es).played[j].sequence
  {
    RunSound(START, es);
  }

  /** Event k brought exactly this packet, authenticated and from the bound source. */
  ghost predicate Brought(t: Tape, es: seq<Event>, k: nat, q: u32, a: Authentic) {
    && k < |es| && Authenticates(Steps(t, es[..k]).s, es[k])
    && es[k].header.value.sequence == q && AuthenticOf(es[k].header.value, es[k].plaintext.value) == a
  }

  lemma {:induction false} StepsAppend(t: Tape, es: seq<Event>, e: Event)
    ensures Steps(t, es + [e]) == Step(Steps(t, es), e)
    decreases |es|
  {
    if es == [] {
      assert Steps(t, [e]) == Steps(Step(t, e), []) by { assert [e][1..] == []; }
      assert es + [e] == [e];
    } else {
      assert (es + [e])[1..] == es[1..] + [e];
      StepsAppend(Step(t, es[0]), es[1..], e);
    }
  }

  lemma {:induction false} LogIsBrought(es: seq<Event>, q: u32) returns (k: nat)
    requires q in Steps(START, es).log
    ensures Brought(START, es, k, q, Steps(START, es).log[q])
    decreases |es|
  {
    var n := |es| - 1;
    var e := es[n];
    assert es == es[..n] + [e];
    StepsAppend(START, es[..n], e);
    var before := Steps(START, es[..n]);
    if Authenticates(before.s, e) && e.header.value.sequence == q {
      k := n;
    } else {
      k := LogIsBrought(es[..n], q);
      assert es[..n][..k] == es[..k];
    }
  }

  /** Every audio frame played carries exactly the payload, timestamp and generation of a packet that was authenticated. */
  lemma PlayedIsAuthentic(es: seq<Event>, i: nat) returns (k: nat)
    requires forall e :: e in es ==> WellFormed(e)
    requires i < |Steps(START, es).played|
    ensures var f := Steps(START, es).played[i];
            Brought(START, es, k, f.sequence, Authentic(true, f.timestamp, f.generation, f.payload))
  {
    RunSound(START, es);
    k := LogIsBrought(es, Steps(START, es).played[i].sequence);
  }

  /** In every reachable state a packet for the jitter buffer is reported as queue-full exactly when the cursor has passed it. */
  lemma QueueFullMeansLate(es: seq<Event>, e: Event)
    requires (forall x :: x in es ==> WellFormed(x)) && WellFormed(e)
    requires Authenticates(Steps(START, es).s, e) && Steps(START, es).s.ready
    requires var s, h := Steps(START, es).s, e.header.value;
             if h.kind.Audio? then s.playbackActive && h.generation == s.generation else h.generation == 0
    ensures var s := Steps(START, es).s;
            Receive(s, e.source, e.header, e.plaintext, e.now).result.QueueFull? <==>
              s.jitter.initialized && e.header.value.sequence < s.jitter.expected
  {
    RunSound(START, es);
    var t := Steps(START, es);
    var h := e.header.value;
    CommitSound(t, e.source, h, e.plaintext.value);
    LateMeansQueueFull(BindAndCommit(t.s, e.source, h.sequence), h, e.plaintext.value, e.now);
  }

  lemma LateMeansQueueFull(s: Session, h: Header, payload: Bytes, now: int)
    requires Gated(s) && s.ready && h.sequence !in s.jitter.slots
    requires HeaderShapeValid(h, Downlink) && |payload| == h.payloadLength
    requires if h.kind.Audio? then s.playbackActive && h.generation == s.generation else h.generation == 0
    ensures Admit(s, h, payload, now).result.QueueFull? <==> s.jitter.initialized && h.sequence < s.jitter.expected
  {
    if h.kind.Audio? {
      ReserveKeepsWindow(s.jitter, s.stats, h.sequence, Held(AudioSlot, h.timestamp, h.generation, now, payload));
    } else {
      ReserveKeepsWindow(s.jitter, s.stats, h.sequence, Held(ControlSlot, 0, s.generation, now, []));
    }
  }

  /** No insertion of a release meets a full buffer. */
  ghost predicate ReleaseFits(b: Buffer, st: Stats, frames: map<u32, Stashed>)
    decreases |frames|
  {
    frames == map[] ||
    var q := Least(frames.Keys);
    var f := frames[q];
    var i := InsertAudio(b, st, q, f.timestamp, f.generation, f.payload, f.arrived);
    assert (frames - {q}).Keys == frames.Keys - {q};
    !i.result.Full? && ReleaseFits(i.buffer, i.stats, frames - {q})
  }

  lemma {:induction false} ReleaseNeverFull(b: Buffer, st: Stats, frames: map<u32, Stashed>)
    requires InWindow(b)
    ensures ReleaseFits(b, st, frames)
    decreases |frames|
  {
    if frames != map[] {
      var q := Least(frames.Keys);
      var f := frames[q];
      ReserveKeepsWindow(b, st, q, Held(AudioSlot, f.timestamp, f.generation, f.arrived, f.payload));
      assert (frames - {q}).Keys == frames.Keys - {q};
      var i := InsertAudio(b, st, q, f.timestamp, f.generation, f.payload, f.arrived);
      ReleaseNeverFull(i.buffer, i.stats, frames - {q});
    }
  }

  /**
   The four slots never overflow: in every reachable state no packet inserted directly, and
   none released from the stash when a response begins, finds the jitter buffer full.
   */
  lemma NoInsertIsFull(es: seq<Event>, q: u32, held: Held, g: u32)
    requires forall e :: e in es ==> WellFormed(e)
    ensures var s := Steps(START, es).s; !Reserve(s.jitter, s.stats, q, held).result.Full?
    ensures var s := Steps(START, es).s;
            ReleaseFits(if g > s.generation then Empty(g) else s.jitter, s.stats, OfGeneration(s.stash, g))
  {
    RunSound(START, es);
    var s := Steps(START, es).s;
    ReserveKeepsWindow(s.jitter, s.stats, q, held);
    ReleaseNeverFull(if g > s.generation then Empty(g) else s.jitter, s.stats, OfGeneration(s.stash, g));
  }

  // ---- What the counters say -------------------------------------------------------------------

  /** What every datagram a run examined is counted as, in order. */
  ghost function Outcomes(t: Tape, es: seq<Event>): seq<Admission>
    decreases |es|
  {
    if es == [] then []
    else
      var e := es[0];
      var rest := Outcomes(Step(t, e), es[1..]);
      if !e.EvReceive? || t.s.revoked || !t.s.configured then rest
      else
        [CountedAs(Receive(t.s, e.source, e.header, e.plaintext, e.now).result, e.header.Some? && ForStash(t.s, e.header.value))] + rest
  }

  function HowMany(outcomes: seq<Admission>, result: Admission): nat {
    if outcomes == [] then 0 else (if outcomes[0] == result then 1 else 0) + HowMany(outcomes[1..], result)
  }

  /** The outcomes that have a counter. */
  predicate HasCounter(result: Admission) {
    result.InvalidFraming? || result.WrongSession? || result.Replay? || result.AuthenticationFailed? || result.WrongSource?
    || result.StaleGeneration? || result.FutureGeneration?
  }

  function Counter(t: Tally, result: Admission): u32
    requires HasCounter(result)
  {
    match result
    case InvalidFraming => t.invalidFraming
    case WrongSession => t.wrongSession
    case Replay => t.replayed
    case AuthenticationFailed => t.authenticationFailed
    case WrongSource => t.wrongSource
    case StaleGeneration => t.staleGeneration
    case FutureGeneration => t.futureGeneration
  }

  function CountAll(t: Tally, outcomes: seq<Admission>): Tally
    decreases |outcomes|
  {
    if outcomes == [] then t else CountAll(Count(t, outcomes[0]), outcomes[1..])
  }

  lemma OneCounterMoves(t: Tally, a: Admission, r: Admission)
    requires HasCounter(r)
    ensures Counter(Count(t, a), r) == Wrap32(Counter(t, r) + if a == r then 1 else 0)
    ensures Count(t, a).received == Wrap32(t.received + 1)
  {
  }

  /** From one tally to another these outcomes were counted: all as received, and those equal to r by its counter. */
  ghost predicate Tells(from: Tally, to: Tally, outcomes: seq<Admission>, r: Admission)
    requires HasCounter(r)
  {
    to.received == Wrap32(from.received + |outcomes|) && Counter(to, r) == Wrap32(Counter(from, r) + HowMany(outcomes, r))
  }

  lemma {:induction false} CountAllTells(t: Tally, outcomes: seq<Admission>, r: Admission)
    requires HasCounter(r)
    ensures Tells(t, CountAll(t, outcomes), outcomes, r)
    decreases |outcomes|
  {
    if outcomes != [] {
      var a, rest := outcomes[0], outcomes[1..];
      CountAllTells(Count(t, a), rest, r);
      OneCounterMoves(t, a, r);
      WrapAdd(t.received, 1, |rest|);
      WrapAdd(Counter(t, r), if a == r then 1 else 0, HowMany(rest, r));
    }
  }

  lemma StepTally(t: Tape, e: Event)
    requires !e.EvConfigure?
    ensures Step(t, e).s.tally ==
            if !e.EvReceive? || t.s.revoked || !t.s.configured then t.s.tally
            else Count(t.s.tally, CountedAs(Receive(t.s, e.source, e.header, e.plaintext, e.now).result,
                                            e.header.Some? && ForStash(t.s, e.header.value)))
  {
  }

  lemma {:induction false} RunTally(t: Tape, es: seq<Event>)
    requires forall e :: e in es ==> !e.EvConfigure?
    ensures Steps(t, es).s.tally == CountAll(t.s.tally, Outcomes(t, es))
    decreases |es|
  {
    if es != [] {
      StepTally(t, es[0]);
      RunTally(Step(t, es[0]), es[1..]);
    }
  }

  /**
   Between two configurations, after every run: every examined datagram was counted as
   received, and each other counter is the number of datagrams with that outcome, modulo 2^32.
   */
  lemma CountersTellOutcomes(s: Session, g: Grant, es: seq<Event>, r: Admission)
    requires GrantAccepted(g, true) && (forall e :: e in es ==> !e.EvConfigure?) && HasCounter(r)
    ensures var t := Tape(Configure(s, g, true), map[], []);
            Tells(ZERO_TALLY, Steps(t, es).s.tally, Outcomes(t, es), r)
  {
    var t := Tape(Configure(s, g, true), map[], []);
    RunTally(t, es);
    CountAllTells(ZERO_TALLY, Outcomes(t, es), r);
  }
}
