/**
 The firmware UDP session as an object (transport_udp/udp_session.cc): it owns a replay
 window, a jitter buffer and the stash, and updates them in place.  Every operation is
 proved to act on `Model()` as the corresponding function of `SessionModel`.
 */
module UdpSessions {
  import opened Machine
  import opened UdpWire
  import opened Jitter
  import opened SessionModel
  import ReplayWindow
  import JitterSlots
  import FutureFrames

  /** Authenticated decryption under the installed key: nonce, header, ciphertext, tag. */
  type Decryptor = (Bytes, Bytes, Bytes, Bytes) -> Option<Bytes>
  /** Authenticated encryption under the installed key: nonce, header, payload. */
  type Encryptor = (Bytes, Bytes, Bytes) -> Sealed

  function HeaderOf(datagram: Bytes): Option<Header> {
    match ParseDatagram(datagram, Downlink)
    case None => None
    case Some(v) => Some(v.header)
  }

  function PlaintextOf(datagram: Bytes, salt: Bytes, decrypt: Decryptor): Option<Bytes> {
    match ParseDatagram(datagram, Downlink)
    case None => None
    case Some(v) => decrypt(MakeNonce(salt, v.header.sequence), v.headerBytes, v.ciphertext, v.tag)
  }

  class UdpSession {
    const replay: ReplayWindow.FirmwareWindow
    const jitter: JitterSlots.JitterBuffer
    const future: FutureFrames.FutureFrames
    var grant: Grant
    var stats: Stats
    var bound: Endpoint
    var probe: Bytes
    var sendSequence: u32
    var generation: u32
    var lastReceive: int
    var playbackActive: bool
    var configured: bool
    var ready: bool
    var revoked: bool
    var tally: Tally

    ghost function Repr(): set<object>
      reads this
    {
      {this as object, replay, jitter, jitter.slots, future, future.cells}
    }

    ghost predicate Valid()
      reads this, Repr()
    {
      && jitter.slots as object != future.cells as object
      && replay.Valid() && jitter.Valid() && future.Valid()
    }

    ghost function Model(): Session
      reads this, Repr()
    {
      Session(grant, replay.committed, jitter.model, future.stash, stats, bound, probe, sendSequence, generation,
              lastReceive, playbackActive, configured, ready, revoked, tally)
    }

    constructor ()
      ensures Valid() && fresh(Repr()) && Model() == INITIAL
    {
      replay := new ReplayWindow.FirmwareWindow();
      jitter := new JitterSlots.JitterBuffer();
      future := new FutureFrames.FutureFrames();
      grant, stats, bound, probe := NO_GRANT, ZERO_STATS, NO_ENDPOINT, [];
      sendSequence, generation, lastReceive := 0, 1, 0;
      playbackActive, configured, ready, revoked := false, false, false, true;
      tally := ZERO_TALLY;
    }

    /** Empty the jitter buffer and the stash. */
    method DropHeld()
      requires Valid()
      modifies jitter, jitter.slots, future, future.cells
      ensures Valid() && Model() == old(Model()).(jitter := Empty(generation), stash := map[])
    {
      jitter.Reset(generation);
      future.ClearAll();
    }

    method Revoke()
      requires Valid()
      modifies this, jitter, jitter.slots, future, future.cells
      ensures Valid() && Model() == SessionModel.Revoke(old(Model()))
    {
      DropHeld();
      revoked, ready, configured, playbackActive := true, false, false, false;
      bound := NO_ENDPOINT;
      grant, probe, sendSequence, lastReceive := NO_GRANT, [], 0, 0;
    }

    /** Start counting and receiving afresh under a new grant. */
    method Restart(granted: Grant)
      requires Valid()
      modifies this, replay, jitter, jitter.slots
      ensures Valid()
      ensures Model() == Session(granted, {}, Empty(granted.initialGeneration), old(Model()).stash, ZERO_STATS, NO_ENDPOINT, [], 0,
                                 granted.initialGeneration, 0, false, true, false, false, ZERO_TALLY)
    {
      replay.Reset();
      jitter.Reset(granted.initialGeneration);
      generation := granted.initialGeneration;
      ClearCounters();
      grant, lastReceive, bound := granted, 0, NO_ENDPOINT;
      ready, playbackActive, configured, revoked := false, false, true, false;
    }

    method ClearCounters()
      modifies this`stats, this`tally, this`sendSequence, this`probe
      ensures stats == ZERO_STATS && tally == ZERO_TALLY && sendSequence == 0 && probe == []
    {
      stats, tally, sendSequence, probe := ZERO_STATS, ZERO_TALLY, 0, [];
    }

    method Configure(granted: Grant, keysAccepted: bool) returns (ok: bool)
      requires Valid()
      modifies Repr()
      ensures Valid() && Model() == SessionModel.Configure(old(Model()), granted, keysAccepted)
      ensures ok == GrantAccepted(granted, keysAccepted)
    {
      Revoke();
      if !granted.server.Valid() || granted.mediaEpoch == 0 || granted.initialGeneration == 0 || !keysAccepted {
        return false;
      }
      Restart(granted);
      return true;
    }

    method FenceGeneration(g: u32) returns (ok: bool)
      requires Valid()
      modifies Repr()
      ensures Valid() && Model() == Fence(old(Model()), g)
      ensures ok == !GenerationRefused(old(Model()), g)
    {
      if revoked || g < generation {
        return false;
      }
      playbackActive := false;
      if g > generation {
        generation := g;
        jitter.Reset(generation);
        future.ClearBelow(generation);
      } else {
        jitter.Reset(generation);
        future.ClearAll();
      }
      return true;
    }

    method AdvanceGeneration(g: u32) returns (ok: bool)
      requires Valid()
      modifies Repr()
      ensures Valid() && Model() == Advance(old(Model()), g)
      ensures ok == !GenerationRefused(old(Model()), g)
    {
      if revoked || g < generation {
        return false;
      }
      if g > generation {
        generation := g;
        jitter.Reset(generation);
      }
      playbackActive := true;
      ghost var before := Model();
      var released := future.Release(generation, jitter, stats);
      stats := released;
      assert Model() == Release(before);
      return true;
    }

    method QueueControl(h: Header, now: int) returns (accepted: bool)
      requires Valid()
      modifies Repr()
      ensures Valid()
      ensures var i := InsertControl(old(Model()).jitter, old(stats), h.sequence, old(generation), now);
              Model() == old(Model()).(jitter := i.buffer, stats := i.stats) && accepted == i.result.Accepted?
    {
      var result, st := jitter.InsertControl(h.sequence, generation, now, stats);
      stats := st;
      return result.Accepted?;
    }

    method QueueAudio(h: Header, payload: Bytes, now: int) returns (accepted: bool)
      requires Valid()
      modifies Repr()
      ensures Valid()
      ensures var i := InsertAudio(old(Model()).jitter, old(stats), h.sequence, h.timestamp, h.generation, payload, now);
              Model() == old(Model()).(jitter := i.buffer, stats := i.stats) && accepted == i.result.Accepted?
    {
      var result, st := jitter.InsertAudio(h.sequence, h.timestamp, h.generation, payload, now, stats);
      stats := st;
      return result.Accepted?;
    }

    method BufferFutureAudio(h: Header, payload: Bytes, now: int) returns (kept: bool)
      requires Valid()
      modifies Repr()
      ensures Valid()
      ensures Received(Model(), if kept then FutureGeneration else QueueFull) == Stash(old(Model()), h, payload, now)
    {
      var st;
      kept, st := future.Buffer(h.sequence, Stashed(h.timestamp, h.generation, now, payload), stats);
      stats := st;
    }

    /** Admission of an authenticated and committed packet. */
    method AdmitPacket(h: Header, payload: Bytes, now: int) returns (result: Admission)
      requires Valid()
      modifies Repr()
      ensures Valid() && Received(Model(), result) == Admit(old(Model()), h, payload, now)
    {
      var accepted;
      var audio := h.kind.Audio?;
      if !audio && h.generation != 0 {
        if ready {
          accepted := QueueControl(h, now);
        }
        return StaleGeneration;
      }
      lastReceive := now;
      if audio && h.generation < generation {
        return StaleGeneration;
      }
      if audio && h.generation > generation {
        if !ready {
          return FutureGeneration;
        }
        accepted := BufferFutureAudio(h, payload, now);
        return if accepted then FutureGeneration else QueueFull;
      }
      if h.kind.ProbeAck? {
        if !ready {
          ready := true;
          jitter.BeginAt(Wrap32(h.sequence + 1));
          return AcceptedProbeAck;
        }
        accepted := QueueControl(h, now);
        return if accepted then AcceptedProbeAck else QueueFull;
      }
      result := AdmitInSession(h, payload, now);
    }

    /** The remaining cases: keepalives, and audio of the current generation. */
    method AdmitInSession(h: Header, payload: Bytes, now: int) returns (result: Admission)
      requires Valid() && !h.kind.ProbeAck?
      requires if h.kind.Audio? then h.generation == generation else h.generation == 0
      requires lastReceive == now
      modifies Repr()
      ensures Valid() && Received(Model(), result) == Admit(old(Model()), h, payload, now)
    {
      if !ready {
        return NotReady;
      }
      var accepted;
      if h.kind.Audio? && !playbackActive {
        accepted := BufferFutureAudio(h, payload, now);
        return if accepted then FutureGeneration else QueueFull;
      }
      if h.kind.Keepalive? {
        accepted := QueueControl(h, now);
        return if accepted then AcceptedKeepalive else QueueFull;
      }
      accepted := QueueAudio(h, payload, now);
      return if accepted then AcceptedAudio else QueueFull;
    }

    method Receive(source: Endpoint, datagram: Bytes, now: int, decrypt: Decryptor) returns (result: Admission)
      requires Valid()
      modifies Repr()
      ensures Valid()
      ensures Received(Model(), result) ==
              SessionModel.Receive(old(Model()), source, HeaderOf(datagram), PlaintextOf(datagram, old(grant).downlinkSalt, decrypt), now)
    {
      if revoked || !configured {
        return Revoked;
      }
      var header := HeaderOf(datagram);
      var forStash := header.Some? && IsForStash(header.value);
      ghost var before := tally;
      result := ExamineDatagram(source, datagram, now, decrypt);
      ghost var examined := Model();
      ExamineKeepsTally(old(Model()), source, header, PlaintextOf(datagram, old(grant).downlinkSalt, decrypt), now);
      CountDatagram(result, forStash);
      assert Model() == examined.(tally := Count(before, CountedAs(result, forStash)));
    }

    function IsForStash(h: Header): (r: bool)
      reads this, Repr()
      requires Valid()
      ensures r == ForStash(Model(), h)
    {
      h.kind.Audio? && ready && (h.generation > generation || (h.generation == generation && !playbackActive))
    }

    method CountDatagram(result: Admission, forStash: bool)
      requires Valid()
      modifies this`tally
      ensures Valid() && Model() == old(Model()).(tally := Count(old(tally), CountedAs(result, forStash)))
    {
      tally := Count(tally, CountedAs(result, forStash));
    }

    /** Everything but the counters of datagrams. */
    method ExamineDatagram(source: Endpoint, datagram: Bytes, now: int, decrypt: Decryptor) returns (result: Admission)
      requires Valid()
      modifies Repr()
      ensures Valid()
      ensures Received(Model(), result) ==
              Examine(old(Model()), source, HeaderOf(datagram), PlaintextOf(datagram, old(grant).downlinkSalt, decrypt), now)
    {
      var view := ParseDatagram(datagram, Downlink);
      if view.None? {
        return InvalidFraming;
      }
      var h := view.value.header;
      if !MatchesSession(h, grant.mediaId, grant.mediaEpoch) {
        return WrongSession;
      }
      var fresh_ := replay.CanAccept(h.sequence);
      if !fresh_ {
        return Replay;
      }
      var plaintext := decrypt(MakeNonce(grant.downlinkSalt, h.sequence), view.value.headerBytes, view.value.ciphertext, view.value.tag);
      if plaintext.None? {
        return AuthenticationFailed;
      }
      if (!bound.Valid() && (h.kind != ProbeAck || !SameSource(source, grant.server)))
         || (bound.Valid() && !SameSource(source, bound)) {
        return WrongSource;
      }
      ghost var before := Model();
      if !bound.Valid() {
        bound := source;
      }
      replay.Commit(h.sequence);
      assert Model() == BindAndCommit(before, source, h.sequence);
      result := AdmitPacket(h, plaintext.value, now);
    }

    method PopPlayout(now: int) returns (frame: PlayoutFrame)
      requires Valid()
      modifies this, jitter, jitter.slots
      ensures Valid() && (Model(), frame) == SessionModel.PopPlayout(old(Model()), now)
    {
      if revoked || !ready {
        return NO_FRAME;
      }
      var st;
      frame, st := jitter.Pop(now, stats);
      stats := st;
    }

    /** The encryption made by a build that passes every check. */
    ghost function SealedBy(encrypt: Encryptor, kind: DatagramType, payload: Bytes, timestamp: u32, g: u32): Sealed
      reads this, Repr()
      requires Valid()
    {
      if |payload| > MAX_PAYLOAD_BYTES || !configured then None
      else encrypt(MakeNonce(grant.uplinkSalt, sendSequence), EncodeHeader(UplinkHeader(Model(), kind, |payload|, timestamp, g)), payload)
    }

    method Build(kind: DatagramType, payload: Bytes, timestamp: u32, g: u32, capacity: nat, encrypt: Encryptor)
      returns (datagram: Option<Bytes>)
      requires Valid()
      modifies Repr()
      ensures Valid()
      ensures Built(Model(), datagram) ==
              SessionModel.Build(old(Model()), kind, payload, timestamp, g, capacity, old(SealedBy(encrypt, kind, payload, timestamp, g)))
    {
      if !configured || revoked || |payload| > MAX_PAYLOAD_BYTES || sendSequence == U32_MAX {
        return None;
      }
      if capacity < HEADER_BYTES + |payload| + TAG_BYTES {
        return None;
      }
      var h := Header(kind, grant.mediaId, grant.mediaEpoch, sendSequence, timestamp, g, |payload|);
      if !HeaderFieldsValid(h, Uplink) {
        return None;
      }
      var sealed := encrypt(MakeNonce(grant.uplinkSalt, sendSequence), EncodeHeader(h), payload);
      if sealed.None? {
        return None;
      }
      datagram := Some(EncodeHeader(h) + sealed.value.0 + sealed.value.1);
      sendSequence := sendSequence + 1;
    }

    method BuildProbe(capacity: nat, encrypt: Encryptor) returns (datagram: Option<Bytes>)
      requires Valid()
      modifies Repr()
      ensures Valid()
      ensures Built(Model(), datagram) ==
              SessionModel.BuildProbe(old(Model()), capacity, old(SealedBy(encrypt, Probe, [], 0, 0)))
    {
      if capacity < HEADER_BYTES + TAG_BYTES {
        return None;
      }
      if probe == [] {
        datagram := Build(Probe, [], 0, 0, HEADER_BYTES + TAG_BYTES, encrypt);
        if datagram.None? {
          return None;
        }
        probe := datagram.value;
      }
      datagram := Some(probe);
    }

    method BuildKeepalive(capacity: nat, encrypt: Encryptor) returns (datagram: Option<Bytes>)
      requires Valid()
      modifies Repr()
      ensures Valid()
      ensures Built(Model(), datagram) ==
              SessionModel.Build(old(Model()), Keepalive, [], 0, 0, capacity, old(SealedBy(encrypt, Keepalive, [], 0, 0)))
    {
      datagram := Build(Keepalive, [], 0, 0, capacity, encrypt);
    }

    method BuildAudio(opus: Bytes, timestamp: u32, capacity: nat, encrypt: Encryptor) returns (datagram: Option<Bytes>)
      requires Valid()
      modifies Repr()
      ensures Valid()
      ensures Built(Model(), datagram) ==
              SessionModel.Build(old(Model()), Audio, opus, timestamp, 0, capacity, old(SealedBy(encrypt, Audio, opus, timestamp, 0)))
    {
      datagram := Build(Audio, opus, timestamp, 0, capacity, encrypt);
    }
  }
}
