/** The desktop UDP downlink over whole runs: admission, packets awaiting control, release and loss. */
module DesktopTransportRuns {
  import opened Machine
  import opened DesktopTransport
  import ReplayWindow

  const PENDING_LIMIT := 4
  const SAMPLES_PER_SECOND := 16000.0

  datatype Waiting = Waiting(frame: Frame, arrived: real)

  /** The media clock of the generation being received. */
  datatype Freshness = Freshness(generation: Option<u32>, timestamp: u32, arrival: real)

  datatype Transport = Transport(
    committed: set<u32>, reorder: Reorder, pending: map<u32, Waiting>, taken: nat, clock: Freshness, maxAge: real)

  datatype Outcome = Fine | ProtocolError | ReopenRequired

  datatype Result = Result(transport: Transport, outcome: Outcome)

  /** The clock is read anew at each of these points of one turn of the receive loop. */
  datatype Times = Times(parked: real, expired: real, checked: real, armed: real)

  predicate StaleMedia(c: Freshness, maxAge: real, f: Frame, now: real) {
    && c.generation == Some(f.generation)
    && var elapsed := (f.timestamp - c.timestamp) % TWO_32;
       now - c.arrival - elapsed as real / SAMPLES_PER_SECOND > maxAge
  }

  ghost function BufferFrame(t: Transport, f: Frame, at: Times): Result {
    if StaleMedia(t.clock, t.maxAge, f, at.checked) then Result(t, ReopenRequired)
    else
      var clock := if t.clock.generation == Some(f.generation) then t.clock else Freshness(Some(f.generation), f.timestamp, at.checked);
      Result(t.(clock := clock, reorder := BufferAudio(t.reorder, f, at.armed, t.maxAge)), Fine)
  }

  ghost function BufferSkipped(t: Transport, q: u32, now: real): Transport {
    t.(reorder := BufferOther(t.reorder, q, now, t.maxAge))
  }

  /** The transport once the frame's sequence is committed; audio no longer waits for control. */
  function Commit(t: Transport, f: Frame): Transport {
    t.(committed := t.committed + {f.sequence}, pending := if f.audio then t.pending - {f.sequence} else t.pending)
  }

  /** One decrypted datagram of this session: committed unless refused; `handed` is the frame to buffer next. */
  datatype Accepted = Accepted(result: Result, handed: Option<Frame>)

  ghost function Accept(t: Transport, f: Frame, v: Verdict, at: Times): Accepted {
    if !ReplayWindow.DesktopAccepts(t.committed, f.sequence) then Accepted(Result(t, ProtocolError), None)
    else if !f.audio then Accepted(Result(Commit(t, f), Fine), Some(f))
    else match v
      case Unknown =>
        if |t.pending| >= PENDING_LIMIT && f.sequence !in t.pending then Accepted(Result(t, ReopenRequired), None)
        else if f.sequence in t.pending then Accepted(Result(t, Fine), None)
        else Accepted(Result(t.(pending := t.pending[f.sequence := Waiting(f, at.parked)]), Fine), None)
      case Refused => Accepted(Result(t, ProtocolError), None)
      case Fenced => Accepted(Result(BufferSkipped(Commit(t, f), f.sequence, at.armed), Fine), None)
      case Admitted => Accepted(Result(Commit(t, f), Fine), Some(f))
  }

  /** A pending packet whose control has arrived; its sequence may have left the replay window meanwhile. */
  ghost function AdmitOne(t: Transport, q: u32, v: Verdict, at: Times): (r: Result)
    requires q in t.pending
    ensures r.transport.pending == t.pending - {q}
  {
    var f := t.pending[q].frame;
    var c := t.(pending := t.pending - {q});
    if !ReplayWindow.DesktopAccepts(t.committed, f.sequence) then Result(c, ProtocolError)
    else
      var k := c.(committed := c.committed + {f.sequence});
      if v.Admitted? then BufferFrame(k, f, at) else Result(BufferSkipped(k, f.sequence, at.armed), Fine)
  }

  /** Pending packets by ascending sequence, now that control may have arrived; `at` gives the clock at each of them. */
  ghost function AdmitPending(t: Transport, keys: set<u32>, validate: Validator, now: real, at: u32 -> Times): Result
    requires keys <= t.pending.Keys
    decreases |keys|
  {
    if keys == {} then Result(t, Fine)
    else
      var q := Least(keys);
      var w := t.pending[q];
      if now - w.arrived > t.maxAge then Result(t, ReopenRequired)
      else match validate(w.frame)
        case Unknown => AdmitPending(t, keys - {q}, validate, now, at)
        case Refused => Result(t.(pending := t.pending - {q}), ProtocolError)
        case _ =>
          var r := AdmitOne(t, q, validate(w.frame), at(q));
          if r.outcome.Fine? then AdmitPending(r.transport, keys - {q}, validate, now, at) else r
  }

  predicate SomePendingExpired(t: Transport, now: real) {
    exists q :: q in t.pending && now >= t.pending[q].arrived + t.maxAge
  }

  ghost function Expire(t: Transport, now: real): Result {
    if SomePendingExpired(t, now) then Result(t, ReopenRequired)
    else Result(t.(reorder := ExpireGap(t.reorder, now)), Fine)
  }

  predicate SomethingReady(t: Transport) {
    t.taken < |t.reorder.released|
  }

  function Take(t: Transport): Transport {
    if SomethingReady(t) then t.(taken := t.taken + 1) else t
  }

  ghost function HandOver(t: Transport, f: Frame, at: Times): Result {
    if f.audio then BufferFrame(t, f, at) else Result(BufferSkipped(t, f.sequence, at.armed), Fine)
  }

  /** After admission: deadlines expire, a frame that became ready is returned first, else the new frame is buffered. */
  ghost function Continue(t: Transport, handed: Option<Frame>, at: Times): Result {
    var e := Expire(t, at.expired);
    if !e.outcome.Fine? then e
    else if SomethingReady(e.transport) then Result(Take(e.transport), Fine)
    else if handed.None? then e
    else
      var h := HandOver(e.transport, handed.value, at);
      if h.outcome.Fine? then Result(Take(h.transport), Fine) else h
  }

  /** What the reader does with one received datagram. */
  ghost function OnDatagram(t: Transport, f: Frame, v: Verdict, at: Times): Result {
    var a := Accept(t, f, v, at);
    if a.result.outcome.ReopenRequired? then a.result else Continue(a.result.transport, a.handed, at)
  }

  datatype Op =
    | OpDatagram(frame: Frame, verdict: Verdict, at: Times)
    | OpAdmitPending(validate: Validator, now: real, times: u32 -> Times)
    | OpExpire(now: real)
    | OpReleaseGap
    | OpTake

  ghost function Step(t: Transport, op: Op): Transport {
    match op
    case OpDatagram(f, v, at) => OnDatagram(t, f, v, at).transport
    case OpAdmitPending(validate, now, times) => AdmitPending(t, t.pending.Keys, validate, now, times).transport
    case OpExpire(now) => Expire(t, now).transport
    case OpReleaseGap => t.(reorder := ReleaseGap(t.reorder))
    case OpTake => Take(t)
  }

  ghost function Steps(t: Transport, ops: seq<Op>): Transport
    decreases |ops|
  {
    if ops == [] then t else Steps(Step(t, ops[0]), ops[1..])
  }

  /** After the probe was acknowledged: sequence 0 is committed and 1 is expected. */
  function Opened(maxAge: real): Transport {
    Transport({0}, Reorder(1, map[], {}, [], None), map[], 0, Freshness(None, 0, 0.0), maxAge)
  }

  // ---- Invariant ---------------------------------------------------------------------------------

  /** Only committed packets are held, so no sequence is handed to the buffer twice. */
  ghost predicate Sound(t: Transport) {
    && Settled(t.reorder)
    && t.reorder.audio.Keys <= t.committed && t.reorder.other <= t.committed
    && t.taken <= |t.reorder.released|
    && |t.pending| <= PENDING_LIMIT
    && forall q :: q in t.pending ==> t.pending[q].frame.sequence == q
  }

  lemma FreshlyCommitted(t: Transport, q: u32)
    requires Sound(t) && ReplayWindow.DesktopAccepts(t.committed, q)
    ensures q !in t.committed && !Holds(t.reorder, q)
  {
  }

  /** The state right after a commit: sound, and the committed packet is not held. */
  ghost predicate Handing(t: Transport, q: u32) {
    Sound(t) && q in t.committed && !Holds(t.reorder, q)
  }

  lemma BufferFrameSound(t: Transport, f: Frame, at: Times)
    requires Handing(t, f.sequence)
    ensures Sound(BufferFrame(t, f, at).transport)
  {
    BufferAudioSettled(t.reorder, f, at.armed, t.maxAge);
  }

  lemma BufferSkippedSound(t: Transport, q: u32, now: real)
    requires Handing(t, q)
    ensures Sound(BufferSkipped(t, q, now))
  {
    BufferOtherSettled(t.reorder, q, now, t.maxAge);
  }

  lemma SmallerPending(pending: map<u32, Waiting>, q: u32)
    ensures |pending - {q}| <= |pending|
  {
    assert (pending - {q}).Keys == pending.Keys - {q};
  }

  lemma CommitHands(t: Transport, f: Frame)
    requires Sound(t) && ReplayWindow.DesktopAccepts(t.committed, f.sequence)
    ensures Handing(Commit(t, f), f.sequence)
  {
    FreshlyCommitted(t, f.sequence);
    SmallerPending(t.pending, f.sequence);
  }

  lemma ParkSound(t: Transport, f: Frame, now: real)
    requires Sound(t) && f.sequence !in t.pending && |t.pending| < PENDING_LIMIT
    ensures Sound(t.(pending := t.pending[f.sequence := Waiting(f, now)]))
  {
    assert |t.pending[f.sequence := Waiting(f, now)]| == |t.pending| + 1;
  }

  lemma AcceptSound(t: Transport, f: Frame, v: Verdict, at: Times)
    requires Sound(t)
    ensures var a := Accept(t, f, v, at);
      && Sound(a.result.transport)
      && (a.handed.Some? ==> a.handed == Some(f) && Handing(a.result.transport, f.sequence))
  {
    if ReplayWindow.DesktopAccepts(t.committed, f.sequence) {
      CommitHands(t, f);
      if f.audio && v.Fenced? {
        BufferSkippedSound(Commit(t, f), f.sequence, at.armed);
      } else if f.audio && v.Unknown? && f.sequence !in t.pending && |t.pending| < PENDING_LIMIT {
        ParkSound(t, f, at.parked);
      }
    }
  }

  lemma AdmitOneSound(t: Transport, q: u32, v: Verdict, at: Times)
    requires Sound(t) && q in t.pending
    ensures Sound(AdmitOne(t, q, v, at).transport)
  {
    SmallerPending(t.pending, q);
    var f := t.pending[q].frame;
    if ReplayWindow.DesktopAccepts(t.committed, f.sequence) {
      FreshlyCommitted(t, q);
      var k := t.(pending := t.pending - {q}, committed := t.committed + {q});
      assert Handing(k, q);
      if v.Admitted? {
        BufferFrameSound(k, f, at);
      } else {
        BufferSkippedSound(k, q, at.armed);
      }
    }
  }

  lemma {:induction false} AdmitPendingSound(t: Transport, keys: set<u32>, validate: Validator, now: real, at: u32 -> Times)
    requires Sound(t) && keys <= t.pending.Keys
    ensures Sound(AdmitPending(t, keys, validate, now, at).transport)
    decreases |keys|
  {
    if keys != {} {
      var q := Least(keys);
      var w := t.pending[q];
      if now - w.arrived <= t.maxAge {
        if validate(w.frame).Unknown? {
          AdmitPendingSound(t, keys - {q}, validate, now, at);
        } else if validate(w.frame).Refused? {
          SmallerPending(t.pending, q);
        } else {
          AdmitOneSound(t, q, validate(w.frame), at(q));
          var r := AdmitOne(t, q, validate(w.frame), at(q));
          if r.outcome.Fine? {
            AdmitPendingSound(r.transport, keys - {q}, validate, now, at);
          }
        }
      }
    }
  }

  lemma ExpireSound(t: Transport, now: real)
    requires Sound(t)
    ensures Sound(Expire(t, now).transport)
    ensures Expire(t, now).transport.committed == t.committed
    ensures Extends(t.reorder, Expire(t, now).transport.reorder)
  {
    ExpireSettled(t.reorder, now);
  }

  lemma HandOverSound(t: Transport, f: Frame, at: Times)
    requires Handing(t, f.sequence)
    ensures Sound(HandOver(t, f, at).transport)
  {
    if f.audio {
      BufferFrameSound(t, f, at);
    } else {
      BufferSkippedSound(t, f.sequence, at.armed);
    }
  }

  lemma ContinueSound(t: Transport, handed: Option<Frame>, at: Times)
    requires Sound(t) && (handed.Some? ==> Handing(t, handed.value.sequence))
    ensures Sound(Continue(t, handed, at).transport)
  {
    ExpireSound(t, at.expired);
    if handed.Some? {
      HandOverSound(Expire(t, at.expired).transport, handed.value, at);
    }
  }

  lemma DatagramSound(t: Transport, f: Frame, v: Verdict, at: Times)
    requires Sound(t)
    ensures Sound(OnDatagram(t, f, v, at).transport)
  {
    AcceptSound(t, f, v, at);
    var a := Accept(t, f, v, at);
    ContinueSound(a.result.transport, a.handed, at);
  }

  lemma StepSound(t: Transport, op: Op)
    requires Sound(t)
    ensures Sound(Step(t, op))
  {
    match op {
      case OpDatagram(f, v, at) => DatagramSound(t, f, v, at);
      case OpAdmitPending(validate, now, times) => AdmitPendingSound(t, t.pending.Keys, validate, now, times);
      case OpExpire(now) => ExpireSound(t, now);
      case OpReleaseGap => GapReleases(t.reorder);
      case OpTake =>
    }
  }

  lemma {:induction false} RunSound(t: Transport, ops: seq<Op>)
    requires Sound(t)
    ensures Sound(Steps(t, ops))
    decreases |ops|
  {
    if ops != [] {
      StepSound(t, ops[0]);
      RunSound(Step(t, ops[0]), ops[1..]);
    }
  }

  // ---- Main results --------------------------------------------------------------------------------

  lemma OpenedSound(maxAge: real)
    ensures Sound(Opened(maxAge))
  {
  }

  /** Disjoint, beyond the cursor, at most three packets, and a release deadline armed while any is held. */
  ghost predicate Orderly(r: Reorder) {
    && r.audio.Keys !! r.other
    && (forall q :: q in r.audio.Keys + r.other ==> q > r.expected)
    && |r.audio.Keys + r.other| <= 3
    && (r.audio.Keys + r.other != {} ==> r.deadline.Some?)
  }

  lemma DisjointCount(a: set<u32>, b: set<u32>)
    requires a !! b
    ensures |a + b| == |a| + |b|
  {
  }

  lemma SettledIsOrderly(r: Reorder)
    requires Settled(r)
    ensures Orderly(r)
  {
    var all := r.audio.Keys + r.other;
    DisjointCount(r.audio.Keys, r.other);
    if HoldsNothing(r) {
      assert all == {};
    }
    forall q | q in all
      ensures q > r.expected
    {
      assert Holds(r, q);
    }
  }

  /** Over every run the buffer is orderly between operations. */
  lemma AlwaysOrderly(maxAge: real, ops: seq<Op>)
    ensures Orderly(Steps(Opened(maxAge), ops).reorder)
  {
    OpenedSound(maxAge);
    RunSound(Opened(maxAge), ops);
    SettledIsOrderly(Steps(Opened(maxAge), ops).reorder);
  }

  /** Frames become ready in strictly increasing sequence, from 1 on. */
  lemma ReleasedAscend(maxAge: real, ops: seq<Op>)
    ensures var r := Steps(Opened(maxAge), ops).reorder; ReleasedBelow(r.released, r.expected)
  {
    OpenedSound(maxAge);
    RunSound(Opened(maxAge), ops);
  }

  // ---- Accepted packets that are lost ----------------------------------------------------------------

  /** The cursor is still at or before the sequence, but no packet is held for it. */
  predicate Lost(r: Reorder, q: u32) {
    q >= r.expected && !Holds(r, q)
  }

  /** The frame is held, or was made ready. */
  predicate Buffered(r: Reorder, f: Frame) {
    f in r.released || (f.sequence in r.audio && r.audio[f.sequence] == f)
  }

  lemma {:induction false} ContiguousLosesNothing(r: Reorder, q: u32)
    requires !Lost(r, q)
    ensures !Lost(ReleaseContiguous(r), q)
    decreases HeldCount(r)
  {
    if r.expected in r.other {
      ContiguousLosesNothing(TakeOther(r), q);
    } else if r.expected in r.audio {
      assert TakeAudio(r).audio.Keys == r.audio.Keys - {r.expected};
      ContiguousLosesNothing(TakeAudio(r), q);
    }
  }

  lemma SettleLosesNothing(r: Reorder, q: u32, now: real, maxAge: real)
    requires Ahead(r) && !Lost(r, q)
    ensures !Lost(Settle(r, now, maxAge), q)
  {
    ContiguousLosesNothing(r, q);
    ContiguousReleases(r);
    var a := Arm(ReleaseContiguous(r), now, maxAge);
    if HeldCount(a) >= HELD_LIMIT {
      NothingHeldIff(a);
      ContiguousLosesNothing(a.(expected := LowestHeld(a)), q);
    }
  }

  lemma BufferingLosesNothing(r: Reorder, f: Frame, now: real, maxAge: real)
    requires Settled(r) && !Holds(r, f.sequence)
    ensures !Lost(BufferAudio(r, f, now, maxAge), f.sequence) && !Lost(BufferOther(r, f.sequence, now, maxAge), f.sequence)
    ensures f.sequence >= r.expected ==> Buffered(BufferAudio(r, f, now, maxAge), f)
  {
    if f.sequence >= r.expected {
      SettleLosesNothing(r.(audio := r.audio[f.sequence := f]), f.sequence, now, maxAge);
      SettleLosesNothing(r.(other := r.other + {f.sequence}), f.sequence, now, maxAge);
      BufferedSomewhere(r, f, now, maxAge);
    }
  }

  /** Something comes before buffering the frame just accepted: a reopen request, or a frame that is ready first. */
  ghost predicate Overtaken(c: Transport, f: Frame, at: Times) {
    || SomePendingExpired(c, at.expired)
    || SomethingReady(Expire(c, at.expired).transport)
    || (f.audio && StaleMedia(c.clock, c.maxAge, f, at.checked))
  }

  lemma ContinueLosesIff(c: Transport, f: Frame, at: Times)
    requires Handing(c, f.sequence)
    ensures var e, r := Expire(c, at.expired).transport.reorder, Continue(c, Some(f), at).transport.reorder;
            && (Lost(r, f.sequence) <==> Overtaken(c, f, at) && f.sequence >= e.expected)
            && (f.audio && !Overtaken(c, f, at) && f.sequence >= e.expected ==> Buffered(r, f))
  {
    ExpireSound(c, at.expired);
    var e := Expire(c, at.expired).transport;
    assert !Holds(e.reorder, f.sequence);
    BufferingLosesNothing(e.reorder, f, at.armed, c.maxAge);
    assert Take(HandOver(e, f, at).transport).reorder == HandOver(e, f, at).transport.reorder;
  }

  lemma ContinueKeepsCommitted(c: Transport, handed: Option<Frame>, at: Times)
    ensures Continue(c, handed, at).transport.committed == c.committed
  {
  }

  lemma DatagramLosesIff(t: Transport, f: Frame, v: Verdict, at: Times)
    requires Sound(t) && ReplayWindow.DesktopAccepts(t.committed, f.sequence) && (f.audio ==> v.Admitted?)
    ensures var c := Commit(t, f);
            var e := Expire(c, at.expired).transport.reorder;
            var r := OnDatagram(t, f, v, at).transport;
            && f.sequence in r.committed
            && (Lost(r.reorder, f.sequence) <==> Overtaken(c, f, at) && f.sequence >= e.expected)
            && (f.audio && !Overtaken(c, f, at) && f.sequence >= e.expected ==> Buffered(r.reorder, f))
  {
    var c := Commit(t, f);
    AcceptSound(t, f, v, at);
    assert Accept(t, f, v, at) == Accepted(Result(c, Fine), Some(f));
    assert OnDatagram(t, f, v, at) == Continue(c, Some(f), at);
    ContinueKeepsCommitted(c, Some(f), at);
    ContinueLosesIff(c, f, at);
  }

  /**
   The receive loop does not buffer every packet it accepts.  In every reachable state, a
   packet just committed, audio or not, is lost exactly when the loop turns to something
   else first and the cursor has not passed it.
   */
  lemma AcceptedFrameLostIff(maxAge: real, ops: seq<Op>, f: Frame, v: Verdict, at: Times)
    requires ReplayWindow.DesktopAccepts(Steps(Opened(maxAge), ops).committed, f.sequence) && (f.audio ==> v.Admitted?)
    ensures var t := Steps(Opened(maxAge), ops);
            var c := Commit(t, f);
            var e := Expire(c, at.expired).transport.reorder;
            var r := OnDatagram(t, f, v, at).transport;
            && f.sequence in r.committed
            && (Lost(r.reorder, f.sequence) <==> Overtaken(c, f, at) && f.sequence >= e.expected)
            && (f.audio && !Overtaken(c, f, at) && f.sequence >= e.expected ==> Buffered(r.reorder, f))
  {
    OpenedSound(maxAge);
    RunSound(Opened(maxAge), ops);
    DatagramLosesIff(Steps(Opened(maxAge), ops), f, v, at);
  }

  /** A lost packet stays lost: its sequence is committed and is never accepted again. */
  lemma LostForGood(t: Transport, f: Frame, v: Verdict, at: Times)
    requires f.sequence in t.committed
    ensures Accept(t, f, v, at) == Accepted(Result(t, ProtocolError), None)
  {
    assert t.committed != {};
  }

  // A witness: frame 2 is held behind a gap, and its deadline passes while another packet arrives.

  const SECOND := Frame(true, 2, 0, 1, [0])
  const AT_START := Times(0.0, 0.0, 0.0, 0.0)
  const AT_ONE := Times(1.0, 1.0, 1.0, 1.0)
  const HOLDS_SECOND := Reorder(1, map[2 := SECOND], {}, [], Some(0.12))

  lemma SecondIsHeld()
    ensures BufferAudio(Reorder(1, map[], {}, [], None), SECOND, 0.0, 0.12) == HOLDS_SECOND
  {
    var held := Reorder(1, map[2 := SECOND], {}, [], None);
    assert ReleaseContiguous(held) == held;
    assert 2 in held.audio;
    assert Holds(held, LowestHeld(held));
  }

  lemma SecondIsAccepted()
    ensures Step(Opened(0.12), OpDatagram(SECOND, Admitted, AT_START)) ==
            Transport({0, 2}, HOLDS_SECOND, map[], 0, Freshness(Some(1), 0, 0.0), 0.12)
  {
    var t := Opened(0.12);
    assert ReplayWindow.Newest({0}) == 0;
    var c := Commit(t, SECOND);
    assert c == t.(committed := {0, 2});
    assert Expire(c, 0.0) == Result(c, Fine);
    SecondIsHeld();
    assert HandOver(c, SECOND, AT_START) == BufferFrame(c, SECOND, AT_START);
    assert !SomethingReady(BufferFrame(c, SECOND, AT_START).transport);
  }

  lemma SecondIsReleased()
    ensures ExpireGap(HOLDS_SECOND, 1.0) == Reorder(3, map[], {}, [SECOND], None)
  {
    var r := HOLDS_SECOND;
    assert 2 in r.audio;
    assert Holds(r, LowestHeld(r));
    var at2 := r.(expected := 2);
    assert TakeAudio(at2) == Reorder(3, map[], {}, [SECOND], Some(0.12));
    assert ReleaseContiguous(at2) == ReleaseContiguous(TakeAudio(at2));
  }

  /** Audio 4, or a keepalive with sequence 3, arriving then is committed and lost; the keepalive's cursor waits for it. */
  lemma AcceptedFrameCanBeLost(f: Frame)
    requires f == Frame(true, 4, 960, 1, [0]) || f == Frame(false, 3, 0, 0, [])
    ensures var t := Steps(Opened(0.12), [OpDatagram(SECOND, Admitted, AT_START)]);
            var r := OnDatagram(t, f, Admitted, AT_ONE).transport;
            f.sequence in r.committed && Lost(r.reorder, f.sequence)
  {
    var ops := [OpDatagram(SECOND, Admitted, AT_START)];
    var t := Step(Opened(0.12), ops[0]);
    assert Steps(Opened(0.12), ops) == Steps(t, []) == t;
    SecondIsAccepted();
    assert ReplayWindow.Newest({0, 2}) == 2;
    AcceptedFrameLostIff(0.12, ops, f, Admitted, AT_ONE);
    SecondIsReleased();
    var c := Commit(t, f);
    assert c == t.(committed := {0, 2, f.sequence});
    assert Expire(c, 1.0).transport.reorder == ExpireGap(HOLDS_SECOND, 1.0);
  }

  /** A frame at or past the cursor is held or released once it is buffered. */
  lemma BufferedSomewhere(r: Reorder, f: Frame, now: real, maxAge: real)
    requires Settled(r) && f.sequence >= r.expected && !Holds(r, f.sequence)
    ensures Buffered(BufferAudio(r, f, now, maxAge), f)
  {
    var n := r.(audio := r.audio[f.sequence := f]);
    ContiguousKeepsFrame(n, f);
    var a := Arm(ReleaseContiguous(n), now, maxAge);
    assert Buffered(a, f);
    if HeldCount(a) >= HELD_LIMIT {
      NothingHeldIff(a);
      ContiguousKeepsFrame(a.(expected := LowestHeld(a)), f);
    }
  }

  lemma {:induction false} ContiguousKeepsFrame(r: Reorder, f: Frame)
    requires Buffered(r, f)
    ensures Buffered(ReleaseContiguous(r), f)
    decreases HeldCount(r)
  {
    if r.expected in r.other {
      ContiguousKeepsFrame(TakeOther(r), f);
    } else if r.expected in r.audio {
      var n := TakeAudio(r);
      assert n.audio.Keys == r.audio.Keys - {r.expected};
      assert n.released[|r.released|] == r.audio[r.expected];
      assert forall g :: g in r.released ==> g in n.released;
      ContiguousKeepsFrame(n, f);
    }
  }

  // ---- What an arriving packet must be answered -------------------------------------------------------

  /** Media is stale when it is later than the media clock of its generation allows: 16000 samples a second, and maxAge. */
  lemma StaleIff(t: Transport, f: Frame, now: real)
    ensures StaleMedia(t.clock, t.maxAge, f, now) <==>
              && t.clock.generation == Some(f.generation)
              && var samples := (f.timestamp - t.clock.timestamp) % 0x1_0000_0000;
                 now > t.clock.arrival + samples as real / 16000.0 + t.maxAge
  {
  }

  /** A fresh frame keeps the clock of its generation, or starts it. */
  lemma FreshDecides(t: Transport, f: Frame, at: Times)
    requires !StaleMedia(t.clock, t.maxAge, f, at.checked)
    ensures var r := BufferFrame(t, f, at);
            && r.outcome.Fine? && r.transport.reorder == BufferAudio(t.reorder, f, at.armed, t.maxAge)
            && r.transport.clock == (if t.clock.generation == Some(f.generation) then t.clock
                                     else Freshness(Some(f.generation), f.timestamp, at.checked))
  {
  }

  /**
   Exactly what becomes of an arriving packet.  One the replay window refuses is an error.  Of the
   others, audio is handed on, skipped or refused as the session says, and parked while the session
   does not know its generation, four at most; everything else is handed on.
   */
  lemma AcceptDecides(t: Transport, f: Frame, v: Verdict, at: Times)
    ensures var a := Accept(t, f, v, at);
            var taken := ReplayWindow.DesktopAccepts(t.committed, f.sequence);
            && (a.handed == Some(f) <==> taken && (!f.audio || v.Admitted?)) && (a.handed.None? || a.handed == Some(f))
            && (f.sequence in a.result.transport.committed <==>
                  f.sequence in t.committed || (taken && (!f.audio || v.Admitted? || v.Fenced?)))
            && (a.result.outcome.ProtocolError? <==> !taken || (f.audio && v.Refused?))
            && (a.result.outcome.ReopenRequired? <==> taken && f.audio && v.Unknown? && f.sequence !in t.pending && |t.pending| >= 4)
            && (taken && f.audio && v.Unknown? && f.sequence !in t.pending && |t.pending| < 4 ==>
                  a.result.transport == t.(pending := t.pending[f.sequence := Waiting(f, at.parked)]))
            && (taken && f.audio && (v.Admitted? || v.Fenced?) ==> f.sequence !in a.result.transport.pending)
            && (taken && f.audio && v.Fenced? ==> a.result.transport.reorder == BufferOther(t.reorder, f.sequence, at.armed, t.maxAge))
            && (a.result.outcome.ProtocolError? || (taken && f.audio && v.Unknown? && f.sequence in t.pending) ==> a.result.transport == t)
  {
  }

  /** The loop asks for a reopen exactly when a parked packet has waited maxAge, and else lets a passed deadline give up on a gap. */
  lemma ExpireDecides(t: Transport, now: real)
    ensures var e := Expire(t, now);
            && (e.outcome.ReopenRequired? <==> exists q :: q in t.pending && now >= t.pending[q].arrived + t.maxAge)
            && (e.outcome.ReopenRequired? ==> e.transport == t)
            && (!e.outcome.ReopenRequired? ==>
                  e.outcome.Fine? && e.transport == t.(reorder := e.transport.reorder)
                  && e.transport.reorder == if t.reorder.deadline.Some? && now >= t.reorder.deadline.value then ReleaseGap(t.reorder) else t.reorder)
  {
  }

  /**
   Trying the parked packets, if nothing stops it, leaves parked exactly those whose generation is still
   unknown; every other one is committed.
   */
  lemma {:induction false} AdmitPendingDecides(t: Transport, keys: set<u32>, validate: Validator, now: real, at: u32 -> Times, q: u32)
    requires keys <= t.pending.Keys && q in t.pending && AdmitPending(t, keys, validate, now, at).outcome.Fine?
    ensures var r := AdmitPending(t, keys, validate, now, at).transport;
            && (q in r.pending <==> q !in keys || validate(t.pending[q].frame).Unknown?)
            && (q in r.pending ==> r.pending[q] == t.pending[q])
            && (q !in r.pending ==> t.pending[q].frame.sequence in r.committed)
            && t.committed <= r.committed
    decreases |keys|
  {
    if keys != {} {
      var x := Least(keys);
      var v := validate(t.pending[x].frame);
      if v.Unknown? {
        AdmitPendingDecides(t, keys - {x}, validate, now, at, q);
      } else {
        var n := AdmitOne(t, x, v, at(x)).transport;
        AdmitOneCommits(t, x, v, at(x));
        if q != x {
          AdmitPendingDecides(n, keys - {x}, validate, now, at, q);
        } else {
          CommittedGrows(n, keys - {x}, validate, now, at, q);
        }
      }
    }
  }

  /** While no parked packet is known yet nothing moves, and a reopen is asked for exactly when one has waited longer than maxAge. */
  lemma {:induction false} AdmitPendingWaits(t: Transport, keys: set<u32>, validate: Validator, now: real, at: u32 -> Times)
    requires keys <= t.pending.Keys && forall q :: q in keys ==> validate(t.pending[q].frame).Unknown?
    ensures AdmitPending(t, keys, validate, now, at) ==
            Result(t, if exists q :: q in keys && now - t.pending[q].arrived > t.maxAge then ReopenRequired else Fine)
    decreases |keys|
  {
    if keys != {} {
      AdmitPendingWaits(t, keys - {Least(keys)}, validate, now, at);
    }
  }

  lemma AdmitOneCommits(t: Transport, q: u32, v: Verdict, at: Times)
    requires q in t.pending && AdmitOne(t, q, v, at).outcome.Fine?
    ensures AdmitOne(t, q, v, at).transport.committed == t.committed + {t.pending[q].frame.sequence}
    ensures AdmitOne(t, q, v, at).transport.maxAge == t.maxAge
  {
  }

  lemma {:induction false} CommittedGrows(t: Transport, keys: set<u32>, validate: Validator, now: real, at: u32 -> Times, gone: u32)
    requires keys <= t.pending.Keys && gone !in t.pending && AdmitPending(t, keys, validate, now, at).outcome.Fine?
    ensures t.committed <= AdmitPending(t, keys, validate, now, at).transport.committed
    ensures gone !in AdmitPending(t, keys, validate, now, at).transport.pending
    decreases |keys|
  {
    if keys != {} {
      var x := Least(keys);
      var v := validate(t.pending[x].frame);
      if v.Unknown? {
        CommittedGrows(t, keys - {x}, validate, now, at, gone);
      } else {
        AdmitOneCommits(t, x, v, at(x));
        CommittedGrows(AdmitOne(t, x, v, at(x)).transport, keys - {x}, validate, now, at, gone);
      }
    }
  }
}
