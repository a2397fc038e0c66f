/**
 Abstract value of the firmware UDP session (transport_udp/udp_session.cc) and the effect
 of each of its operations.  The replay window appears as the set of committed sequences,
 the jitter buffer as `Jitter.Buffer`, the stash of future audio as a map.
 */
module SessionModel {
  import opened Machine
  import opened UdpWire
  import opened Jitter
  import ReplayWindow

  const FUTURE_FRAMES := 4

  datatype Endpoint = Endpoint(address: Bytes, port: u16) {
    predicate Valid() {
      (|address| == 4 || |address| == 16) && port != 0
    }
  }

  const NO_ENDPOINT := Endpoint([], 0)

  datatype Grant = Grant(server: Endpoint, mediaId: MediaId, mediaEpoch: u32, initialGeneration: u32,
                         uplinkSalt: Bytes, downlinkSalt: Bytes)

  const NO_GRANT := Grant(NO_ENDPOINT, [0, 0, 0, 0, 0, 0, 0, 0], 0, 0, [], [])

  /** A frame of audio that arrived before its generation may play. */
  datatype Stashed = Stashed(timestamp: u32, generation: u32, arrived: int, payload: Bytes)

  /** The uint32 counters of datagrams received and of why they were not admitted. */
  datatype Tally = Tally(received: u32, invalidFraming: u32, wrongSession: u32, replayed: u32, authenticationFailed: u32,
                         wrongSource: u32, staleGeneration: u32, futureGeneration: u32)

  datatype Session = Session(
    grant: Grant, committed: set<u32>, jitter: Buffer, stash: map<u32, Stashed>, stats: Stats,
    bound: Endpoint, probe: Bytes, sendSequence: u32, generation: u32, lastReceive: int,
    playbackActive: bool, configured: bool, ready: bool, revoked: bool, tally: Tally)

  datatype Admission =
    | AcceptedAudio | AcceptedProbeAck | AcceptedKeepalive | InvalidFraming | WrongSession | WrongSource | Replay
    | AuthenticationFailed | StaleGeneration | FutureGeneration | QueueFull | NotReady | Revoked

  datatype Received = Received(session: Session, result: Admission)

  const ZERO_STATS := Stats(0, 0, 0, 0, 0, 0, 0)

  const ZERO_TALLY := Tally(0, 0, 0, 0, 0, 0, 0, 0)

  const INITIAL := Session(NO_GRANT, {}, Empty(1), map[], ZERO_STATS, NO_ENDPOINT, [], 0, 1, 0, false, false, false, true, ZERO_TALLY)

  predicate SameSource(a: Endpoint, b: Endpoint) {
    a.Valid() && b.Valid() && a == b
  }

  // ---- Lifecycle ---------------------------------------------------------------------------

  function Revoke(s: Session): Session {
    s.(revoked := true, ready := false, configured := false, playbackActive := false, bound := NO_ENDPOINT,
       jitter := Empty(s.generation), stash := map[], grant := NO_GRANT, probe := [], sendSequence := 0, lastReceive := 0)
  }

  /** `keysAccepted` is the outcome of installing both AEAD keys. */
  predicate GrantAccepted(grant: Grant, keysAccepted: bool) {
    grant.server.Valid() && grant.mediaEpoch != 0 && grant.initialGeneration != 0 && keysAccepted
  }

  function Configure(s: Session, grant: Grant, keysAccepted: bool): Session {
    if !GrantAccepted(grant, keysAccepted) then Revoke(s)
    else Session(grant, {}, Empty(grant.initialGeneration), map[], ZERO_STATS, NO_ENDPOINT, [], 0,
                 grant.initialGeneration, 0, false, true, false, false, ZERO_TALLY)
  }

  // ---- Generation fence --------------------------------------------------------------------

  function FromGeneration(stash: map<u32, Stashed>, g: u32): map<u32, Stashed> {
    map q | q in stash && stash[q].generation >= g :: stash[q]
  }

  predicate GenerationRefused(s: Session, g: u32) {
    s.revoked || g < s.generation
  }

  function Fence(s: Session, g: u32): Session {
    if GenerationRefused(s, g) then s
    else if g > s.generation then
      s.(playbackActive := false, generation := g, jitter := Empty(g), stash := FromGeneration(s.stash, g))
    else s.(playbackActive := false, jitter := Empty(g), stash := map[])
  }

  /** Insert stashed frames into the jitter buffer in ascending sequence order. */
  ghost function InsertAscending(b: Buffer, st: Stats, frames: map<u32, Stashed>): (Buffer, Stats)
    decreases |frames|
  {
    if frames == map[] then (b, st)
    else
      var q := Least(frames.Keys);
      var f := frames[q];
      var i := InsertAudio(b, st, q, f.timestamp, f.generation, f.payload, f.arrived);
      assert (frames - {q}).Keys == frames.Keys - {q};
      InsertAscending(i.buffer, i.stats, frames - {q})
  }

  function OfGeneration(stash: map<u32, Stashed>, g: u32): map<u32, Stashed> {
    map q | q in stash && stash[q].generation == g :: stash[q]
  }

  function AboveGeneration(stash: map<u32, Stashed>, g: u32): map<u32, Stashed> {
    map q | q in stash && stash[q].generation > g :: stash[q]
  }

  ghost function Release(s: Session): Session {
    var (b, st) := InsertAscending(s.jitter, s.stats, OfGeneration(s.stash, s.generation));
    s.(jitter := b, stats := st, stash := AboveGeneration(s.stash, s.generation))
  }

  ghost function Advance(s: Session, g: u32): Session {
    if GenerationRefused(s, g) then s
    else
      var moved := if g > s.generation then s.(generation := g, jitter := Empty(g)) else s;
      Release(moved.(playbackActive := true))
  }

  // ---- Receive -----------------------------------------------------------------------------

  datatype Buffered = Buffered(stash: map<u32, Stashed>, stats: Stats, kept: bool)

  /** When the stash is full, a newer frame replaces the oldest of its own generation. */
  ghost function BufferFuture(stash: map<u32, Stashed>, st: Stats, q: u32, f: Stashed): Buffered {
    if q in stash then Buffered(stash, st, true)
    else if |stash| < FUTURE_FRAMES then Buffered(stash[q := f], st, true)
    else
      var dropped := st.(queueDropped := Wrap32(st.queueDropped + 1));
      var same := OfGeneration(stash, f.generation).Keys;
      if same == {} || q <= Least(same) then Buffered(stash, dropped, false)
      else Buffered((stash - {Least(same)})[q := f], dropped, true)
  }

  predicate SourceRefused(s: Session, source: Endpoint, kind: DatagramType) {
    if !s.bound.Valid() then kind != ProbeAck || !SameSource(source, s.grant.server) else !SameSource(source, s.bound)
  }

  /** Insert at the jitter buffer and report anything but acceptance as a full queue. */
  function Queued(s: Session, i: Inserted, accepted: Admission): Received {
    Received(s.(jitter := i.buffer, stats := i.stats), if i.result.Accepted? then accepted else QueueFull)
  }

  ghost function Stash(s: Session, h: Header, payload: Bytes, now: int): Received {
    var b := BufferFuture(s.stash, s.stats, h.sequence, Stashed(h.timestamp, h.generation, now, payload));
    Received(s.(stash := b.stash, stats := b.stats), if b.kept then FutureGeneration else QueueFull)
  }

  /** Everything after the authenticated sequence was committed. */
  ghost function Admit(s: Session, h: Header, payload: Bytes, now: int): Received {
    if !h.kind.Audio? && h.generation != 0 then
      Received(if s.ready then Queued(s, InsertControl(s.jitter, s.stats, h.sequence, s.generation, now), Replay).session else s,
               StaleGeneration)
    else
      var r := s.(lastReceive := now);
      if h.kind.Audio? && h.generation < s.generation then Received(r, StaleGeneration)
      else if h.kind.Audio? && h.generation > s.generation then
        if r.ready then Stash(r, h, payload, now) else Received(r, FutureGeneration)
      else if h.kind.ProbeAck? then
        if !r.ready then Received(r.(ready := true, jitter := BeginAt(r.jitter, Wrap32(h.sequence + 1))), AcceptedProbeAck)
        else Queued(r, InsertControl(r.jitter, r.stats, h.sequence, r.generation, now), AcceptedProbeAck)
      else if !r.ready then Received(r, NotReady)
      else if h.kind.Audio? && !r.playbackActive then Stash(r, h, payload, now)
      else if h.kind.Keepalive? then
        Queued(r, InsertControl(r.jitter, r.stats, h.sequence, r.generation, now), AcceptedKeepalive)
      else
        Queued(r, InsertAudio(r.jitter, r.stats, h.sequence, h.timestamp, h.generation, payload, now), AcceptedAudio)
  }

  /** From one state to the other only what is held, its counters and the two receive flags differ. */
  predicate HeldDiffers(s: Session, n: Session) {
    n == s.(jitter := n.jitter, stash := n.stash, stats := n.stats, lastReceive := n.lastReceive, ready := n.ready)
  }

  lemma ControlChanges(s: Session, h: Header, payload: Bytes, now: int)
    requires !h.kind.Audio?
    ensures HeldDiffers(s, Admit(s, h, payload, now).session)
  {
    var r := s.(lastReceive := now);
    var i := InsertControl(s.jitter, s.stats, h.sequence, s.generation, now);
    if h.generation != 0 {
      QueueChanges(s, s, i, Replay);
    } else if h.kind.ProbeAck? {
      QueueChanges(s, r, i, AcceptedProbeAck);
    } else {
      QueueChanges(s, r, i, AcceptedKeepalive);
    }
  }

  lemma QueueChanges(s: Session, r: Session, i: Inserted, accepted: Admission)
    requires HeldDiffers(s, r)
    ensures HeldDiffers(s, Queued(r, i, accepted).session)
  {
  }

  lemma StashChanges(s: Session, h: Header, payload: Bytes, now: int)
    ensures HeldDiffers(s, Stash(s.(lastReceive := now), h, payload, now).session)
  {
  }

  lemma AudioChanges(s: Session, h: Header, payload: Bytes, now: int)
    requires h.kind.Audio?
    ensures HeldDiffers(s, Admit(s, h, payload, now).session)
  {
    StashChanges(s, h, payload, now);
  }

  lemma AdmitChanges(s: Session, h: Header, payload: Bytes, now: int)
    ensures HeldDiffers(s, Admit(s, h, payload, now).session)
  {
    if h.kind.Audio? {
      AudioChanges(s, h, payload, now);
    } else {
      ControlChanges(s, h, payload, now);
    }
  }

  ghost function BindAndCommit(s: Session, source: Endpoint, q: u32): Session {
    s.(bound := if s.bound.Valid() then s.bound else source, committed := s.committed + {q})
  }

  /**
   `header` is the result of framing and `plaintext` that of authenticated decryption under
   the downlink key and the nonce of the header's sequence.
   */
  ghost function Receive(s: Session, source: Endpoint, header: Option<Header>, plaintext: Option<Bytes>, now: int): Received {
    if s.revoked || !s.configured then Received(s, Revoked)
    else
      var r := Examine(s, source, header, plaintext, now);
      r.(session := r.session.(tally := Count(s.tally, CountedAs(r.result, header.Some? && ForStash(s, header.value)))))
  }

  /** Audio of a response that may not play yet. */
  predicate ForStash(s: Session, h: Header) {
    h.kind.Audio? && s.ready && (h.generation > s.generation || (h.generation == s.generation && !s.playbackActive))
  }

  /** A frame turned away from a full stash counts as of a future generation, like one that was kept. */
  function CountedAs(result: Admission, forStash: bool): Admission {
    if result.QueueFull? && forStash then FutureGeneration else result
  }

  /** Every datagram is counted once as received, and once more by the reason it was not admitted to playout. */
  function Count(t: Tally, result: Admission): Tally {
    var c := t.(received := Wrap32(t.received + 1));
    match result
    case InvalidFraming => c.(invalidFraming := Wrap32(t.invalidFraming + 1))
    case WrongSession => c.(wrongSession := Wrap32(t.wrongSession + 1))
    case Replay => c.(replayed := Wrap32(t.replayed + 1))
    case AuthenticationFailed => c.(authenticationFailed := Wrap32(t.authenticationFailed + 1))
    case WrongSource => c.(wrongSource := Wrap32(t.wrongSource + 1))
    case StaleGeneration => c.(staleGeneration := Wrap32(t.staleGeneration + 1))
    case FutureGeneration => c.(futureGeneration := Wrap32(t.futureGeneration + 1))
    case _ => c
  }

  /** Framing, session, replay, authentication and source, in this order; then admission. */
  ghost function Examine(s: Session, source: Endpoint, header: Option<Header>, plaintext: Option<Bytes>, now: int): Received {
    if header.None? then Received(s, InvalidFraming)
    else
      var h := header.value;
      if !MatchesSession(h, s.grant.mediaId, s.grant.mediaEpoch) then Received(s, WrongSession)
      else if !ReplayWindow.Accepts(s.committed, h.sequence) then Received(s, Replay)
      else if plaintext.None? then Received(s, AuthenticationFailed)
      else if SourceRefused(s, source, h.kind) then Received(s, WrongSource)
      else Admit(BindAndCommit(s, source, h.sequence), h, plaintext.value, now)
  }

  lemma ExamineKeepsTally(s: Session, source: Endpoint, header: Option<Header>, plaintext: Option<Bytes>, now: int)
    ensures Examine(s, source, header, plaintext, now).session.tally == s.tally
  {
    if header.Some? && plaintext.Some? {
      AdmitChanges(BindAndCommit(s, source, header.value.sequence), header.value, plaintext.value, now);
    }
  }

  ghost function PopPlayout(s: Session, now: int): (Session, PlayoutFrame) {
    if s.revoked || !s.ready then (s, NO_FRAME)
    else
      var p := Pop(s.jitter, s.stats, now);
      (s.(jitter := p.buffer, stats := p.stats), p.frame)
  }

  // ---- Uplink ------------------------------------------------------------------------------

  /** What authenticated encryption returned: ciphertext and tag, or failure. */
  type Sealed = Option<(Bytes, Bytes)>

  function UplinkHeader(s: Session, kind: DatagramType, size: nat, timestamp: u32, generation: u32): Header
    requires size <= MAX_PAYLOAD_BYTES
  {
    Header(kind, s.grant.mediaId, s.grant.mediaEpoch, s.sendSequence, timestamp, generation, size)
  }

  /** The checks made before anything is encrypted. */
  predicate MaySend(s: Session, kind: DatagramType, payload: Bytes, timestamp: u32, generation: u32, capacity: nat) {
    && s.configured && !s.revoked && |payload| <= MAX_PAYLOAD_BYTES && s.sendSequence != U32_MAX
    && capacity >= HEADER_BYTES + |payload| + TAG_BYTES
    && HeaderFieldsValid(UplinkHeader(s, kind, |payload|, timestamp, generation), Uplink)
  }

  datatype Built = Built(session: Session, datagram: Option<Bytes>)

  function Build(s: Session, kind: DatagramType, payload: Bytes, timestamp: u32, generation: u32,
                 capacity: nat, sealed: Sealed): Built
  {
    if !MaySend(s, kind, payload, timestamp, generation, capacity) || sealed.None? then Built(s, None)
    else
      var h := UplinkHeader(s, kind, |payload|, timestamp, generation);
      Built(s.(sendSequence := s.sendSequence + 1), Some(EncodeHeader(h) + sealed.value.0 + sealed.value.1))
  }

  function BuildProbe(s: Session, capacity: nat, sealed: Sealed): Built
  {
    if capacity < HEADER_BYTES + TAG_BYTES then Built(s, None)
    else if s.probe != [] then Built(s, Some(s.probe))
    else
      var b := Build(s, Probe, [], 0, 0, HEADER_BYTES + TAG_BYTES, sealed);
      if b.datagram.None? then b else b.(session := b.session.(probe := b.datagram.value))
  }
}
