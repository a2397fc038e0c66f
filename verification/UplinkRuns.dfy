/** Uplink encryption over whole runs between two configurations: nonces, probe retries, exhaustion. */
module UplinkRuns {
  import opened Machine
  import opened UdpWire
  import opened SessionModel
  import SessionRuns

  /** One successful authenticated encryption. */
  datatype Sending = Sending(nonce: Bytes, header: Bytes, payload: Bytes)

  /** The session, every encryption made since it was configured, and every probe handed out. */
  datatype Sender = Sender(s: Session, sent: seq<Sending>, probes: seq<Bytes>)

  datatype Event =
    | UpAudio(opus: Bytes, timestamp: u32, capacity: nat, sealed: Sealed)
    | UpKeepalive(capacity: nat, sealed: Sealed)
    | UpProbe(capacity: nat, sealed: Sealed)
    | UpOther(event: SessionRuns.Event)

  function AfterBuild(u: Sender, kind: DatagramType, payload: Bytes, timestamp: u32, capacity: nat, sealed: Sealed): Sender
  {
    var b := Build(u.s, kind, payload, timestamp, 0, capacity, sealed);
    if b.datagram.None? then u.(s := b.session)
    else
      u.(s := b.session,
         sent := u.sent + [Sending(MakeNonce(u.s.grant.uplinkSalt, u.s.sendSequence),
                                   EncodeHeader(UplinkHeader(u.s, kind, |payload|, timestamp, 0)), payload)])
  }

  function AfterProbe(u: Sender, capacity: nat, sealed: Sealed): Sender
  {
    var b := BuildProbe(u.s, capacity, sealed);
    var made := if capacity < HEADER_BYTES + TAG_BYTES || u.s.probe != [] then u
                else AfterBuild(u, Probe, [], 0, HEADER_BYTES + TAG_BYTES, sealed);
    if b.datagram.None? then made.(s := b.session)
    else made.(s := b.session, probes := made.probes + [b.datagram.value])
  }

  ghost function Step(u: Sender, e: Event): Sender
  {
    match e
    case UpAudio(opus, ts, capacity, sealed) => AfterBuild(u, Audio, opus, ts, capacity, sealed)
    case UpKeepalive(capacity, sealed) => AfterBuild(u, Keepalive, [], 0, capacity, sealed)
    case UpProbe(capacity, sealed) => AfterProbe(u, capacity, sealed)
    case UpOther(other) =>
      if other.EvConfigure? then u else u.(s := SessionRuns.Step(SessionRuns.Tape(u.s, map[], []), other).s)
  }

  /** Encryption i used the nonce of counter i, and the counter is the number of encryptions. */
  ghost predicate Counted(u: Sender, g: Grant) {
    && (u.s.configured ==> u.s.grant == g && u.s.sendSequence == |u.sent|)
    && |u.sent| <= U32_MAX
    && forall i :: 0 <= i < |u.sent| ==> u.sent[i].nonce == MakeNonce(g.uplinkSalt, i)
  }

  /** All probes handed out are the remembered one, as long as the session is configured. */
  ghost predicate OneProbe(u: Sender) {
    && (forall i, j :: 0 <= i < j < |u.probes| ==> u.probes[i] == u.probes[j])
    && (u.s.configured && u.probes != [] ==> u.s.probe != [] && u.probes[0] == u.s.probe)
    && (!u.s.configured ==> u.s.probe == [])
  }

  ghost predicate Kept(u: Sender, g: Grant) {
    Counted(u, g) && OneProbe(u)
  }

  lemma BuildKept(u: Sender, g: Grant, kind: DatagramType, payload: Bytes, timestamp: u32, capacity: nat, sealed: Sealed)
    requires Kept(u, g)
    ensures Kept(AfterBuild(u, kind, payload, timestamp, capacity, sealed), g)
  {
  }

  lemma ProbeKept(u: Sender, g: Grant, capacity: nat, sealed: Sealed)
    requires Kept(u, g)
    ensures Kept(AfterProbe(u, capacity, sealed), g)
  {
    if capacity >= HEADER_BYTES + TAG_BYTES && u.s.probe == [] {
      BuildKept(u, g, Probe, [], 0, HEADER_BYTES + TAG_BYTES, sealed);
    }
  }

  predicate SameUplink(a: Session, b: Session) {
    a.grant == b.grant && a.sendSequence == b.sendSequence && a.probe == b.probe && a.configured == b.configured
  }

  /** No operation but configuring and revoking touches what the uplink uses. */
  lemma OthersKeepUplink(s: Session, e: SessionRuns.Event)
    requires !e.EvConfigure? && !e.EvRevoke?
    ensures SameUplink(SessionRuns.Step(SessionRuns.Tape(s, map[], []), e).s, s)
  {
    match e {
      case EvFence(g) =>
      case EvAdvance(g) =>
      case EvPop(now) =>
      case EvReceive(source, header, plaintext, now) =>
        if SessionRuns.Authenticates(s, e) {
          AdmitChanges(BindAndCommit(s, source, header.value.sequence), header.value, plaintext.value, now);
        } else {
          assert SameUplink(Receive(s, source, header, plaintext, now).session, s);
        }
    }
  }

  lemma StepKept(u: Sender, g: Grant, e: Event)
    requires Kept(u, g)
    ensures Kept(Step(u, e), g)
  {
    match e {
      case UpAudio(opus, ts, capacity, sealed) => BuildKept(u, g, Audio, opus, ts, capacity, sealed);
      case UpKeepalive(capacity, sealed) => BuildKept(u, g, Keepalive, [], 0, capacity, sealed);
      case UpProbe(capacity, sealed) => ProbeKept(u, g, capacity, sealed);
      case UpOther(other) =>
        if !other.EvConfigure? && !other.EvRevoke? {
          OthersKeepUplink(u.s, other);
        }
    }
  }

  ghost predicate IsRun(us: seq<Sender>, es: seq<Event>) {
    && |us| == |es| + 1
    && forall k :: 0 <= k < |es| ==>
         us[k + 1] == Step(us[k], es[k])
  }

  lemma {:induction false} RunKept(us: seq<Sender>, es: seq<Event>, g: Grant, n: nat)
    requires IsRun(us, es) && Kept(us[0], g) && n < |us|
    ensures Kept(us[n], g)
  {
    if n > 0 {
      RunKept(us, es, g, n - 1);
      StepKept(us[n - 1], g, es[n - 1]);
    }
  }

  function Configured(s: Session, g: Grant): Sender {
    Sender(Configure(s, g, true), [], [])
  }

  /** Between two configurations no two encryptions use the same nonce, and there are fewer than 2^32 of them. */
  lemma NoncesNeverRepeat(s: Session, g: Grant, us: seq<Sender>, es: seq<Event>, i: nat, j: nat)
    requires GrantAccepted(g, true)
    requires IsRun(us, es) && us[0] == Configured(s, g)
    requires i < j < |us[|es|].sent|
    ensures us[|es|].sent[i].nonce != us[|es|].sent[j].nonce
    ensures |us[|es|].sent| < TWO_32
  {
    RunKept(us, es, g, |es|);
    if MakeNonce(g.uplinkSalt, i) == MakeNonce(g.uplinkSalt, j) {
      NonceInjective(g.uplinkSalt, i, j);
    }
  }

  /** Every probe handed out between two configurations is byte for byte the same. */
  lemma ProbesIdentical(s: Session, g: Grant, us: seq<Sender>, es: seq<Event>, i: nat, j: nat)
    requires GrantAccepted(g, true)
    requires IsRun(us, es) && us[0] == Configured(s, g)
    requires i < j < |us[|es|].probes|
    ensures us[|es|].probes[i] == us[|es|].probes[j]
  {
    RunKept(us, es, g, |es|);
  }

  /** After 2^32 - 1 encryptions nothing is encrypted any more: the counter never wraps. */
  lemma ExhaustionStops(s: Session, g: Grant, us: seq<Sender>, es: seq<Event>, e: Event)
    requires GrantAccepted(g, true)
    requires IsRun(us, es) && us[0] == Configured(s, g)
    requires |us[|es|].sent| == U32_MAX
    ensures Step(us[|es|], e).sent == us[|es|].sent
  {
    RunKept(us, es, g, |es|);
  }

  /** A built datagram parses back to the header it was built from, with the session's counter. */
  lemma BuiltParses(s: Session, kind: DatagramType, payload: Bytes, timestamp: u32, capacity: nat, ciphertext: Bytes, tag: Bytes)
    requires |ciphertext| == |payload| && |tag| == TAG_BYTES
    requires MaySend(s, kind, payload, timestamp, 0, capacity)
    ensures var b := Build(s, kind, payload, timestamp, 0, capacity, Some((ciphertext, tag)));
            var h := UplinkHeader(s, kind, |payload|, timestamp, 0);
            b.datagram.Some? && h.sequence == s.sendSequence && b.session.sendSequence == s.sendSequence + 1
            && ParseDatagram(b.datagram.value, Uplink) == Some(View(h, EncodeHeader(h), ciphertext, tag))
  {
    var h := UplinkHeader(s, kind, |payload|, timestamp, 0);
    ParseOfEncoding(EncodeHeader(h) + ciphertext + tag, Uplink, View(h, EncodeHeader(h), ciphertext, tag));
  }

  /** A datagram is built exactly when the session is open, the payload suits its kind and fits, a sequence is left, and encryption succeeds. */
  lemma BuildIff(s: Session, kind: DatagramType, payload: Bytes, timestamp: u32, capacity: nat, sealed: Sealed)
    ensures var b := Build(s, kind, payload, timestamp, 0, capacity, sealed);
            && (b.datagram.Some? <==>
                  && s.configured && !s.revoked && s.sendSequence < 0xffff_ffff && s.grant.mediaEpoch != 0
                  && (match kind case Audio => 0 < |payload| <= 1200 case Keepalive => |payload| == 0
                                 case Probe => |payload| == 0 && timestamp == 0 case ProbeAck => false)
                  && capacity >= |payload| + 48 && sealed.Some?)
            && (b.datagram.Some? ==> b.session == s.(sendSequence := s.sendSequence + 1))
            && (b.datagram.None? ==> b.session == s)
  {
  }

  /** A probe is handed out exactly when there is room, and one was built before or can be built now; it is then the stored one. */
  lemma ProbeIff(s: Session, capacity: nat, sealed: Sealed)
    ensures var b := BuildProbe(s, capacity, sealed);
            && (b.datagram.Some? <==>
                  capacity >= 48 && (s.probe != [] || (s.configured && !s.revoked && s.sendSequence < 0xffff_ffff && s.grant.mediaEpoch != 0 && sealed.Some?)))
            && (b.datagram.Some? ==> b.datagram == Some(b.session.probe))
            && (s.probe != [] ==> b.session == s)
            && (s.probe == [] && b.datagram.Some? ==> b.session == s.(probe := b.datagram.value, sendSequence := s.sendSequence + 1))
            && (b.datagram.None? ==> b.session == s)
  {
    BuildIff(s, Probe, [], 0, HEADER_BYTES + TAG_BYTES, sealed);
  }
}
