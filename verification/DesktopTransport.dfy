/**
 The desktop UDP downlink (transport/udp.py): a reorder buffer over a global packet
 sequence, packets waiting for their response control, and the release of gaps.
 */
module DesktopTransport {
  import opened Machine

  datatype Frame = Frame(audio: bool, sequence: u32, timestamp: u32, generation: u32, payload: seq<u8>)

  /** What the session says about an audio frame before its sequence is committed. */
  datatype Verdict = Admitted | Fenced | Unknown | Refused

  type Validator = Frame -> Verdict

  /** Packets held out of order, and every frame made ready since the transport opened. */
  datatype Reorder = Reorder(expected: nat, audio: map<u32, Frame>, other: set<u32>, released: seq<Frame>, deadline: Option<real>)

  const HELD_LIMIT := 4

  function HeldCount(r: Reorder): nat {
    |r.audio| + |r.other|
  }

  predicate Holds(r: Reorder, q: u32) {
    q in r.audio || q in r.other
  }

  predicate HoldsNothing(r: Reorder) {
    r.audio == map[] && r.other == {}
  }

  /** The two ways the cursor takes a held packet. */
  function TakeOther(r: Reorder): Reorder {
    r.(other := r.other - {r.expected}, expected := r.expected + 1)
  }

  function TakeAudio(r: Reorder): Reorder
    requires r.expected in r.audio
  {
    r.(audio := r.audio - {r.expected}, released := r.released + [r.audio[r.expected]], expected := r.expected + 1)
  }

  function ReleaseContiguous(r: Reorder): Reorder
    decreases HeldCount(r)
  {
    if r.expected in r.other then
      ReleaseContiguous(TakeOther(r))
    else if r.expected in r.audio then
      assert TakeAudio(r).audio.Keys == r.audio.Keys - {r.expected};
      ReleaseContiguous(TakeAudio(r))
    else if HoldsNothing(r) then r.(deadline := None)
    else r
  }

  /** The lowest held packet, of either kind. */
  ghost function LowestHeld(r: Reorder): (m: u32)
    requires !HoldsNothing(r)
    ensures Holds(r, m) && forall q :: Holds(r, q) ==> m <= q
  {
    assert r.audio.Keys + r.other != {} by {
      if r.other == {} {
        assert r.audio.Keys != {};
      }
    }
    Least(r.audio.Keys + r.other)
  }

  /** Give up on the missing packets before the lowest held one. */
  ghost function ReleaseGap(r: Reorder): Reorder {
    if HoldsNothing(r) then r else ReleaseContiguous(r.(expected := LowestHeld(r)))
  }

  ghost function Arm(r: Reorder, now: real, maxAge: real): Reorder {
    if !HoldsNothing(r) && LowestHeld(r) > r.expected && r.deadline.None? then r.(deadline := Some(now + maxAge)) else r
  }

  /** Release, arm, and release a gap when too much is held. */
  ghost function Settle(r: Reorder, now: real, maxAge: real): Reorder {
    var a := Arm(ReleaseContiguous(r), now, maxAge);
    if HeldCount(a) >= HELD_LIMIT then ReleaseGap(a) else a
  }

  ghost function BufferAudio(r: Reorder, f: Frame, now: real, maxAge: real): Reorder {
    if f.sequence < r.expected then r else Settle(r.(audio := r.audio[f.sequence := f]), now, maxAge)
  }

  ghost function BufferOther(r: Reorder, q: u32, now: real, maxAge: real): Reorder {
    if q < r.expected then r else Settle(r.(other := r.other + {q}), now, maxAge)
  }

  ghost function ExpireGap(r: Reorder, now: real): Reorder {
    if r.deadline.Some? && now >= r.deadline.value then ReleaseGap(r) else r
  }

  // ---- Invariant of the reorder buffer -----------------------------------------------------------

  ghost predicate Ascending(fs: seq<Frame>) {
    forall i, j :: 0 <= i < j < |fs| ==> fs[i].sequence < fs[j].sequence
  }

  /** Released frames ascend, from sequence 1, below the cursor. */
  ghost predicate ReleasedBelow(fs: seq<Frame>, cursor: nat) {
    && cursor >= 1 && Ascending(fs)
    && forall i :: 0 <= i < |fs| ==> 1 <= fs[i].sequence < cursor
  }

  lemma ReleasedAppend(fs: seq<Frame>, cursor: nat, f: Frame)
    requires ReleasedBelow(fs, cursor) && f.sequence >= cursor
    ensures ReleasedBelow(fs + [f], f.sequence + 1)
  {
  }

  lemma ReleasedMore(fs: seq<Frame>, cursor: nat, later: nat)
    requires ReleasedBelow(fs, cursor) && cursor <= later
    ensures ReleasedBelow(fs, later)
  {
  }

  /** Held packets are disjoint, under their own sequence, and not behind the cursor. */
  ghost predicate HeldAhead(audio: map<u32, Frame>, other: set<u32>, cursor: nat) {
    && (forall q :: q in audio ==> q !in other && audio[q].sequence == q && q >= cursor)
    && (forall q :: q in other ==> q >= cursor)
  }

  ghost predicate Ahead(r: Reorder) {
    ReleasedBelow(r.released, r.expected) && HeldAhead(r.audio, r.other, r.expected)
  }

  lemma AudioTaken(audio: map<u32, Frame>, other: set<u32>, cursor: u32)
    requires HeldAhead(audio, other, cursor) && cursor in audio
    ensures HeldAhead(audio - {cursor}, other, cursor + 1) && |audio - {cursor}| == |audio| - 1
    ensures (audio - {cursor}).Keys <= audio.Keys
  {
    assert (audio - {cursor}).Keys == audio.Keys - {cursor};
  }

  lemma OtherTaken(audio: map<u32, Frame>, other: set<u32>, cursor: u32)
    requires HeldAhead(audio, other, cursor) && cursor in other
    ensures HeldAhead(audio, other - {cursor}, cursor + 1) && |other - {cursor}| == |other| - 1
  {
  }

  /** Between operations: disjoint, beyond the cursor, at most three, and a deadline armed while anything is held. */
  ghost predicate Settled(r: Reorder) {
    && Ahead(r) && r.expected !in r.audio && r.expected !in r.other
    && HeldCount(r) < HELD_LIMIT
    && (HoldsNothing(r) || r.deadline.Some?)
  }

  /** From one state to a later one the cursor and the released frames only grow, and nothing new is held. */
  ghost predicate Extends(before: Reorder, after: Reorder) {
    && before.expected <= after.expected && before.released <= after.released
    && after.audio.Keys <= before.audio.Keys && after.other <= before.other
  }

  lemma TakeOtherKeeps(r: Reorder)
    requires Ahead(r) && r.expected in r.other
    ensures Ahead(TakeOther(r)) && Extends(r, TakeOther(r)) && HeldCount(TakeOther(r)) == HeldCount(r) - 1
  {
    ReleasedMore(r.released, r.expected, r.expected + 1);
    OtherTaken(r.audio, r.other, r.expected);
  }

  lemma TakeAudioKeeps(r: Reorder)
    requires Ahead(r) && r.expected in r.audio
    ensures Ahead(TakeAudio(r)) && Extends(r, TakeAudio(r)) && HeldCount(TakeAudio(r)) == HeldCount(r) - 1
  {
    ReleasedAppend(r.released, r.expected, r.audio[r.expected]);
    AudioTaken(r.audio, r.other, r.expected);
  }

  lemma {:induction false} ContiguousReleases(r: Reorder)
    requires Ahead(r)
    ensures var a := ReleaseContiguous(r);
      && Ahead(a) && a.expected !in a.audio && a.expected !in a.other && Extends(r, a)
      && HeldCount(a) <= HeldCount(r)
      && (r.expected in r.audio || r.expected in r.other ==> HeldCount(a) < HeldCount(r))
      && (!HoldsNothing(a) ==> a.deadline == r.deadline)
    decreases HeldCount(r)
  {
    if r.expected in r.other {
      TakeOtherKeeps(r);
      ContiguousReleases(TakeOther(r));
    } else if r.expected in r.audio {
      TakeAudioKeeps(r);
      ContiguousReleases(TakeAudio(r));
    }
  }

  lemma GapReleases(r: Reorder)
    requires Ahead(r)
    ensures var a := ReleaseGap(r);
      && Ahead(a) && Extends(r, a)
      && (if HoldsNothing(r) then a == r
          else HeldCount(a) < HeldCount(r) && a.expected !in a.audio && a.expected !in a.other)
      && (!HoldsNothing(a) ==> a.deadline == r.deadline)
  {
    if !HoldsNothing(r) {
      var g := r.(expected := LowestHeld(r));
      assert Holds(r, g.expected) && g.expected >= r.expected;
      assert forall q :: q in r.audio || q in r.other ==> Holds(r, q);
      assert Ahead(g);
      ContiguousReleases(g);
    }
  }

  lemma NothingHeldIff(r: Reorder)
    ensures HoldsNothing(r) <==> HeldCount(r) == 0
  {
  }

  lemma ArmArms(r: Reorder, now: real, maxAge: real)
    requires Ahead(r) && r.expected !in r.audio && r.expected !in r.other
    ensures var a := Arm(r, now, maxAge);
      && a == r.(deadline := a.deadline) && (!HoldsNothing(a) ==> a.deadline.Some?)
  {
    if !HoldsNothing(r) {
      assert Holds(r, LowestHeld(r));
    }
  }

  lemma SettleSettles(r: Reorder, now: real, maxAge: real)
    requires Ahead(r) && HeldCount(r) <= HELD_LIMIT
    ensures Settled(Settle(r, now, maxAge)) && Extends(r, Settle(r, now, maxAge))
  {
    var c := ReleaseContiguous(r);
    var a := Arm(c, now, maxAge);
    ContiguousReleases(r);
    ArmArms(c, now, maxAge);
    assert Ahead(a) && Extends(r, a);
    if HeldCount(a) >= HELD_LIMIT {
      NothingHeldIff(a);
      GapReleases(a);
    }
  }

  lemma BufferAudioSettled(r: Reorder, f: Frame, now: real, maxAge: real)
    requires Settled(r) && !Holds(r, f.sequence)
    ensures var b := BufferAudio(r, f, now, maxAge);
      && Settled(b) && r.released <= b.released && r.expected <= b.expected
      && b.audio.Keys <= r.audio.Keys + {f.sequence} && b.other <= r.other
  {
    if f.sequence >= r.expected {
      var n := r.(audio := r.audio[f.sequence := f]);
      assert n.audio.Keys == r.audio.Keys + {f.sequence};
      assert Ahead(n);
      SettleSettles(n, now, maxAge);
    }
  }

  lemma BufferOtherSettled(r: Reorder, q: u32, now: real, maxAge: real)
    requires Settled(r) && !Holds(r, q)
    ensures var b := BufferOther(r, q, now, maxAge);
      && Settled(b) && r.released <= b.released && r.expected <= b.expected
      && b.audio.Keys <= r.audio.Keys && b.other <= r.other + {q}
  {
    if q >= r.expected {
      var n := r.(other := r.other + {q});
      assert Ahead(n);
      SettleSettles(n, now, maxAge);
    }
  }

  lemma ExpireSettled(r: Reorder, now: real)
    requires Settled(r)
    ensures Settled(ExpireGap(r, now)) && Extends(r, ExpireGap(r, now))
  {
    GapReleases(r);
  }

  // ---- What is released, and when --------------------------------------------------------------------

  /** Every sequence from one to the other is held. */
  ghost predicate HeldThrough(r: Reorder, from: nat, to: nat) {
    forall q: u32 :: from <= q < to ==> Holds(r, q)
  }

  /** A release took exactly the audio held in a range, and keeps the rest as it is. */
  ghost predicate Took(r: Reorder, a: Reorder, from: nat, to: nat) {
    && (forall q: u32 :: q in a.audio <==> q in r.audio && q >= to) && (forall q: u32 :: q in a.audio ==> a.audio[q] == r.audio[q])
    && (forall q: u32 :: q in a.other <==> q in r.other && q >= to)
    && (forall f: Frame :: f in a.released <==> f in r.released || (from <= f.sequence < to && f.sequence in r.audio && r.audio[f.sequence] == f))
  }

  /**
   Exactly what is released in order: everything held from the cursor up to the first sequence that
   is not held, where the cursor then stands; the deadline goes when nothing is left.
   */
  lemma {:induction false} ContiguousDecides(r: Reorder)
    requires Ahead(r)
    ensures var a := ReleaseContiguous(r);
            && r.expected <= a.expected && HeldThrough(r, r.expected, a.expected)
            && (a.expected < TWO_32 ==> !Holds(r, a.expected))
            && Took(r, a, r.expected, a.expected)
            && a.deadline == (if HoldsNothing(a) then None else r.deadline)
    decreases HeldCount(r)
  {
    if r.expected in r.other {
      TakeOtherKeeps(r);
      ContiguousDecides(TakeOther(r));
      TookOther(r, ReleaseContiguous(r));
    } else if r.expected in r.audio {
      TakeAudioKeeps(r);
      ContiguousDecides(TakeAudio(r));
      TookAudio(r, ReleaseContiguous(r));
    }
  }

  lemma TookOther(r: Reorder, a: Reorder)
    requires Ahead(r) && r.expected in r.other && r.expected + 1 <= a.expected
    requires HeldThrough(TakeOther(r), r.expected + 1, a.expected) && Took(TakeOther(r), a, r.expected + 1, a.expected)
    ensures HeldThrough(r, r.expected, a.expected) && Took(r, a, r.expected, a.expected)
  {
    var n := TakeOther(r);
    forall q: u32 | r.expected <= q < a.expected
      ensures Holds(r, q)
    {
      assert q == r.expected || Holds(n, q);
    }
  }

  lemma TookAudio(r: Reorder, a: Reorder)
    requires Ahead(r) && r.expected in r.audio && r.expected + 1 <= a.expected
    requires HeldThrough(TakeAudio(r), r.expected + 1, a.expected) && Took(TakeAudio(r), a, r.expected + 1, a.expected)
    ensures HeldThrough(r, r.expected, a.expected) && Took(r, a, r.expected, a.expected)
  {
    var n := TakeAudio(r);
    forall q: u32 | r.expected <= q < a.expected
      ensures Holds(r, q)
    {
      assert q == r.expected || Holds(n, q);
    }
    assert forall f: Frame :: f in n.released <==> f in r.released || f == r.audio[r.expected];
  }

  /** Giving up on a gap moves the cursor to the lowest held packet and releases from there. */
  lemma GapDecides(r: Reorder, low: u32)
    requires Ahead(r) && Holds(r, low) && forall q: u32 :: Holds(r, q) ==> low <= q
    ensures var a := ReleaseGap(r);
            && a.expected > low && HeldThrough(r, low, a.expected) && (a.expected < TWO_32 ==> !Holds(r, a.expected))
            && Took(r, a, low, a.expected)
            && a.deadline == (if HoldsNothing(a) then None else r.deadline)
  {
    assert LowestHeld(r) == low;
    var g := r.(expected := low);
    ReleasedMore(r.released, r.expected, low);
    ContiguousDecides(g);
    SameHeld(r, g, low, ReleaseContiguous(g).expected);
    assert Holds(g, low);
  }

  lemma SameHeld(r: Reorder, g: Reorder, from: nat, to: nat)
    requires g.audio == r.audio && g.other == r.other && HeldThrough(g, from, to)
    ensures HeldThrough(r, from, to)
  {
    forall q: u32 | from <= q < to
      ensures Holds(r, q)
    {
      assert Holds(g, q);
    }
  }

  /** The wait for the lowest held packet ends maxAge after it began. */
  function DeadlineAfter(was: Option<real>, nothingLeft: bool, now: real, maxAge: real): Option<real> {
    if nothingLeft then None else if was.Some? then was else Some(now + maxAge)
  }

  /** The cursor stopped at the first sequence missing, and nothing was given up. */
  ghost predicate ReleasedInOrder(n: Reorder, a: Reorder, now: real, maxAge: real) {
    && n.expected <= a.expected && HeldThrough(n, n.expected, a.expected) && (a.expected < TWO_32 ==> !Holds(n, a.expected))
    && Took(n, a, n.expected, a.expected)
    && a.deadline == DeadlineAfter(n.deadline, HoldsNothing(a), now, maxAge)
  }

  /** The cursor gave up on everything before the lowest held packet, and released from there. */
  ghost predicate GaveUpGap(n: Reorder, a: Reorder) {
    exists low: u32 ::
      && Holds(n, low) && (forall q: u32 :: Holds(n, q) ==> low <= q)
      && a.expected > low && HeldThrough(n, low, a.expected) && Took(n, a, low, a.expected)
  }

  /** Fewer than four waiting packets are waited for. */
  lemma FewWait(n: Reorder, now: real, maxAge: real)
    requires Ahead(n) && HeldCount(ReleaseContiguous(n)) < 4
    ensures ReleasedInOrder(n, Settle(n, now, maxAge), now, maxAge)
  {
    var c := ReleaseContiguous(n);
    ContiguousBeyond(n);
    ArmIs(c, now, maxAge);
    assert Settle(n, now, maxAge) == Arm(c, now, maxAge);
    ContiguousDecides(n);
    DeadlineAside(n, c, Settle(n, now, maxAge).deadline);
  }

  /** What was released does not depend on the deadline. */
  lemma DeadlineAside(n: Reorder, c: Reorder, deadline: Option<real>)
    requires Took(n, c, n.expected, c.expected)
    ensures Took(n, c.(deadline := deadline), n.expected, c.expected)
    ensures HoldsNothing(c.(deadline := deadline)) == HoldsNothing(c)
  {
  }

  lemma ContiguousBeyond(n: Reorder)
    requires Ahead(n)
    ensures var c := ReleaseContiguous(n);
            && (forall q: u32 :: Holds(c, q) ==> q > c.expected)
            && c.deadline == (if HoldsNothing(c) then None else n.deadline)
  {
    HeldBeyond(n);
    ContiguousDecides(n);
  }

  lemma HeldBeyond(n: Reorder)
    requires Ahead(n)
    ensures forall q: u32 :: Holds(ReleaseContiguous(n), q) ==> q > ReleaseContiguous(n).expected
  {
    ContiguousReleases(n);
    NotAtCursor(ReleaseContiguous(n));
  }

  lemma NotAtCursor(c: Reorder)
    requires HeldAhead(c.audio, c.other, c.expected) && c.expected !in c.audio && c.expected !in c.other
    ensures forall q: u32 :: Holds(c, q) ==> q > c.expected
  {
  }

  lemma ArmIs(c: Reorder, now: real, maxAge: real)
    requires forall q: u32 :: Holds(c, q) ==> q > c.expected
    requires HoldsNothing(c) ==> c.deadline.None?
    ensures Arm(c, now, maxAge) == c.(deadline := DeadlineAfter(c.deadline, HoldsNothing(c), now, maxAge))
  {
  }

  /** The fourth waiting packet gives up on the gap. */
  lemma FourthGivesUp(n: Reorder, now: real, maxAge: real)
    requires Ahead(n) && n.expected !in n.audio && n.expected !in n.other && HeldCount(n) >= 4 && !HoldsNothing(n)
    ensures GaveUpGap(n, Settle(n, now, maxAge))
  {
    var low := LowestHeld(n);
    var armed := Arm(n, now, maxAge);
    assert ReleaseContiguous(n) == n;
    assert armed == n.(deadline := armed.deadline);
    GapDecides(armed, low);
    var a := ReleaseGap(armed);
    SameHeld(n, armed, low, a.expected);
    assert Took(n, a, low, a.expected);
  }

  /**
   Exactly what buffering one more audio frame leads to.  It is the next one, or fewer than three wait
   already: everything up to the first missing sequence is released.  Otherwise the gap is given up.
   */
  lemma AudioDecides(r: Reorder, f: Frame, now: real, maxAge: real)
    requires Settled(r) && !Holds(r, f.sequence) && f.sequence >= r.expected
    ensures var n, a := r.(audio := r.audio[f.sequence := f]), BufferAudio(r, f, now, maxAge);
            if f.sequence == r.expected || HeldCount(r) < 3 then ReleasedInOrder(n, a, now, maxAge) else GaveUpGap(n, a)
  {
    var n := r.(audio := r.audio[f.sequence := f]);
    assert n.audio.Keys == r.audio.Keys + {f.sequence};
    assert |n.audio| == |r.audio| + 1;
    OneMoreDecides(r, n, f.sequence, now, maxAge);
  }

  lemma OneMoreDecides(r: Reorder, n: Reorder, q: u32, now: real, maxAge: real)
    requires Settled(r) && Ahead(n) && n.expected == r.expected && HeldCount(n) == HeldCount(r) + 1
    requires forall x: u32 :: Holds(n, x) <==> x == q || Holds(r, x)
    ensures if q == r.expected || HeldCount(r) < 3 then ReleasedInOrder(n, Settle(n, now, maxAge), now, maxAge)
            else GaveUpGap(n, Settle(n, now, maxAge))
  {
    if q == r.expected || HeldCount(r) < 3 {
      ContiguousReleases(n);
      assert q == r.expected ==> Holds(n, n.expected);
      FewWait(n, now, maxAge);
    } else {
      assert Holds(n, q);
      if r.expected < TWO_32 {
        assert !Holds(r, r.expected);
        assert !Holds(n, r.expected);
      }
      FourthGivesUp(n, now, maxAge);
    }
  }

  /** The same for a packet that carries no audio to play. */
  lemma OtherDecides(r: Reorder, q: u32, now: real, maxAge: real)
    requires Settled(r) && !Holds(r, q) && q >= r.expected
    ensures var n, a := r.(other := r.other + {q}), BufferOther(r, q, now, maxAge);
            if q == r.expected || HeldCount(r) < 3 then ReleasedInOrder(n, a, now, maxAge) else GaveUpGap(n, a)
  {
    var n := r.(other := r.other + {q});
    assert |n.other| == |r.other| + 1;
    OneMoreDecides(r, n, q, now, maxAge);
  }

  /** A packet behind the cursor changes nothing. */
  lemma LateDecides(r: Reorder, f: Frame, now: real, maxAge: real)
    requires f.sequence < r.expected
    ensures BufferAudio(r, f, now, maxAge) == r && BufferOther(r, f.sequence, now, maxAge) == r
  {
  }
}
