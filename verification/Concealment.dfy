/**
 What the desktop application renders for one response (app.py): received frames, and
 concealment for the gaps between them that the media timestamps prove.
 */
module Concealment {
  import opened Machine

  const MAX_PLC_GAP_FRAMES := 4

  datatype Rendered = Rendered(sequence: int, timestamp: u32, concealed: bool)

  /** The last received frame, and whether the response was ended. */
  datatype Playback = Playback(lastSequence: Option<u32>, lastTimestamp: u32, ended: bool)

  const NEW := Playback(None, 0, false)

  function TimestampDelta(a: u32, b: u32): u32 {
    (b - a) % TWO_32
  }

  /** Frames missing before a frame at this timestamp. */
  function Missing(p: Playback, timestamp: u32): int {
    TimestampDelta(p.lastTimestamp, timestamp) / SAMPLES_PER_FRAME - 1
  }

  /** The gap cannot be concealed: the response is ended and the session reopened. */
  predicate Recovers(p: Playback, sequence: u32, timestamp: u32) {
    && p.lastSequence.Some?
    && var delta := TimestampDelta(p.lastTimestamp, timestamp);
       || delta == 0 || delta % SAMPLES_PER_FRAME != 0 || sequence <= p.lastSequence.value
       || Missing(p, timestamp) > sequence - p.lastSequence.value - 1
       || Missing(p, timestamp) > MAX_PLC_GAP_FRAMES
  }

  function Concealed(p: Playback, sequence: u32, missing: int, n: nat): (r: seq<Rendered>)
    ensures |r| == n
    ensures forall i :: 0 <= i < n ==>
              r[i] == Rendered(sequence - missing + i, (p.lastTimestamp + (i + 1) * SAMPLES_PER_FRAME) % TWO_32, true)
  {
    if n == 0 then []
    else Concealed(p, sequence, missing, n - 1)
         + [Rendered(sequence - missing + n - 1, (p.lastTimestamp + n * SAMPLES_PER_FRAME) % TWO_32, true)]
  }

  datatype Played = Played(playback: Playback, rendered: seq<Rendered>)

  /** One received frame under the UDP profile. */
  function PlayUdp(p: Playback, sequence: u32, timestamp: u32): Played {
    if p.ended then Played(p, [])
    else if Recovers(p, sequence, timestamp) then Played(p.(ended := true), [])
    else
      var missing := if p.lastSequence.Some? then Missing(p, timestamp) else 0;
      var plc := if missing > 0 then Concealed(p, sequence, missing, missing) else [];
      Played(Playback(Some(sequence), timestamp, false), plc + [Rendered(sequence, timestamp, false)])
  }

  /** Rendered frames follow one another: sequences increase, timestamps step by one frame. */
  ghost predicate Continuous(r: seq<Rendered>) {
    && (forall i :: 0 <= i < |r| - 1 ==> r[i].sequence < r[i + 1].sequence)
    && (forall i :: 0 <= i < |r| - 1 ==> TimestampDelta(r[i].timestamp, r[i + 1].timestamp) == SAMPLES_PER_FRAME)
  }

  /** The frames played so far end with the last received one. */
  ghost predicate Tracks(p: Playback, r: seq<Rendered>) {
    if p.lastSequence.None? then r == []
    else r != [] && r[|r| - 1] == Rendered(p.lastSequence.value, p.lastTimestamp, false)
  }

  lemma StepOne(t: u32, n: nat)
    ensures TimestampDelta((t + n * SAMPLES_PER_FRAME) % TWO_32, (t + (n + 1) * SAMPLES_PER_FRAME) % TWO_32) == SAMPLES_PER_FRAME
  {
  }

  /** A frame is one step behind the last concealed one exactly when the timestamp says so many are missing. */
  lemma ReachesFrame(p: Playback, timestamp: u32)
    requires TimestampDelta(p.lastTimestamp, timestamp) % SAMPLES_PER_FRAME == 0 && TimestampDelta(p.lastTimestamp, timestamp) != 0
    ensures Missing(p, timestamp) >= 0
    ensures (p.lastTimestamp + (Missing(p, timestamp) + 1) * SAMPLES_PER_FRAME) % TWO_32 == timestamp
  {
    var delta := TimestampDelta(p.lastTimestamp, timestamp);
    assert (Missing(p, timestamp) + 1) * SAMPLES_PER_FRAME == delta;
  }

  /** The frame before index i of a gap: the last received frame, or the previous concealed one. */
  lemma GapContinuous(p: Playback, sequence: u32, timestamp: u32)
    requires p.lastSequence.Some? && !Recovers(p, sequence, timestamp)
    ensures var missing := Missing(p, timestamp);
            var last := Rendered(p.lastSequence.value, p.lastTimestamp, false);
            && 0 <= missing <= MAX_PLC_GAP_FRAMES
            && Continuous([last] + Concealed(p, sequence, missing, missing) + [Rendered(sequence, timestamp, false)])
  {
    ReachesFrame(p, timestamp);
    var missing := Missing(p, timestamp);
    var r := [Rendered(p.lastSequence.value, p.lastTimestamp, false)] + Concealed(p, sequence, missing, missing)
             + [Rendered(sequence, timestamp, false)];
    forall i | 0 <= i < |r|
      ensures r[i].timestamp == (p.lastTimestamp + i * SAMPLES_PER_FRAME) % TWO_32
    {
      if 0 < i <= missing {
        assert r[i] == Concealed(p, sequence, missing, missing)[i - 1];
      }
    }
    forall i | 0 <= i < |r| - 1
      ensures TimestampDelta(r[i].timestamp, r[i + 1].timestamp) == SAMPLES_PER_FRAME
    {
      StepOne(p.lastTimestamp, i);
    }
  }

  lemma JoinContinuous(a: seq<Rendered>, b: seq<Rendered>)
    requires a != [] && Continuous(a) && Continuous([a[|a| - 1]] + b)
    ensures Continuous(a + b)
  {
    var joined, tail := a + b, [a[|a| - 1]] + b;
    forall i | 0 <= i < |joined| - 1
      ensures joined[i].sequence < joined[i + 1].sequence
      ensures TimestampDelta(joined[i].timestamp, joined[i + 1].timestamp) == SAMPLES_PER_FRAME
    {
      if i >= |a| - 1 {
        var k := i - (|a| - 1);
        assert joined[i] == tail[k] && joined[i + 1] == tail[k + 1];
      }
    }
  }

  lemma PlayContinuous(p: Playback, r: seq<Rendered>, sequence: u32, timestamp: u32)
    requires Continuous(r) && Tracks(p, r)
    ensures var o := PlayUdp(p, sequence, timestamp); Continuous(r + o.rendered) && Tracks(o.playback, r + o.rendered)
    ensures |PlayUdp(p, sequence, timestamp).rendered| <= MAX_PLC_GAP_FRAMES + 1
  {
    var o := PlayUdp(p, sequence, timestamp);
    if o.rendered == [] {
      assert r + o.rendered == r;
    } else if p.lastSequence.Some? {
      GapContinuous(p, sequence, timestamp);
      assert [r[|r| - 1]] + o.rendered ==
             [r[|r| - 1]] + Concealed(p, sequence, Missing(p, timestamp), Missing(p, timestamp)) + [Rendered(sequence, timestamp, false)];
      JoinContinuous(r, o.rendered);
    }
  }

  /** Everything rendered for a list of received (sequence, timestamp) pairs. */
  function PlayAll(p: Playback, frames: seq<(u32, u32)>): Played {
    if frames == [] then Played(p, [])
    else
      var before := PlayAll(p, frames[..|frames| - 1]);
      var (q, t) := frames[|frames| - 1];
      var o := PlayUdp(before.playback, q, t);
      Played(o.playback, before.rendered + o.rendered)
  }

  /**
   Whatever frames arrive for one response, everything rendered for it, concealed and real
   together, has strictly increasing sequences and timestamps stepping by exactly 960.
   */
  lemma {:induction false} RenderingIsContinuous(frames: seq<(u32, u32)>)
    ensures Continuous(PlayAll(NEW, frames).rendered) && Tracks(PlayAll(NEW, frames).playback, PlayAll(NEW, frames).rendered)
  {
    if frames != [] {
      var n := |frames| - 1;
      RenderingIsContinuous(frames[..n]);
      var before := PlayAll(NEW, frames[..n]);
      PlayContinuous(before.playback, before.rendered, frames[n].0, frames[n].1);
    }
  }

  /** Between two received frames at most four are concealed. */
  lemma {:induction false} ConcealedRunsAreShort(frames: seq<(u32, u32)>, i: nat)
    requires i + MAX_PLC_GAP_FRAMES < |PlayAll(NEW, frames).rendered|
    ensures exists k :: i <= k <= i + MAX_PLC_GAP_FRAMES && !PlayAll(NEW, frames).rendered[k].concealed
    decreases |frames|
  {
    var n := |frames| - 1;
    var before := PlayAll(NEW, frames[..n]);
    var o := PlayUdp(before.playback, frames[n].0, frames[n].1);
    RenderingIsContinuous(frames[..n]);
    PlayContinuous(before.playback, before.rendered, frames[n].0, frames[n].1);
    var all := PlayAll(NEW, frames).rendered;
    assert all == before.rendered + o.rendered;
    if i + MAX_PLC_GAP_FRAMES < |before.rendered| {
      ConcealedRunsAreShort(frames[..n], i);
      var k :| i <= k <= i + MAX_PLC_GAP_FRAMES && !before.rendered[k].concealed;
      assert !all[k].concealed;
    } else if i < |before.rendered| {
      assert !all[|before.rendered| - 1].concealed;
    } else {
      assert |all| - 1 <= i + MAX_PLC_GAP_FRAMES && !all[|all| - 1].concealed;
    }
  }

  // ---- Which gaps are concealed ------------------------------------------------------------------------

  /** The media clock runs from one timestamp to the other over this many frames. */
  predicate FramesLater(from: u32, to: u32, frames: nat) {
    to == (from + frames * 960) % 0x1_0000_0000
  }

  /** m frames, at most four, are missing by the media clock, and there are as many sequences between. */
  predicate Bridgeable(last: u32, lastTimestamp: u32, sequence: u32, timestamp: u32, m: nat) {
    m <= 4 && FramesLater(lastTimestamp, timestamp, m + 1) && sequence > last && m < sequence - last
  }

  /**
   Exactly what a frame after a received one leads to, by the two received pairs alone: with
   m frames missing by the media clock, m at most four and no more than the sequences between,
   m frames are concealed in the last sequences before it and it is rendered; otherwise the
   response is ended and nothing is rendered.
   */
  lemma GapDecides(p: Playback, sequence: u32, timestamp: u32)
    requires !p.ended && p.lastSequence.Some?
    ensures var o, last := PlayUdp(p, sequence, timestamp), p.lastSequence.value;
            && (o.rendered != [] <==> exists m: nat :: Bridgeable(last, p.lastTimestamp, sequence, timestamp, m))
            && (forall m: nat :: Bridgeable(last, p.lastTimestamp, sequence, timestamp, m) ==>
                  && |o.rendered| == m + 1 && o.playback == Playback(Some(sequence), timestamp, false)
                  && (forall i :: 0 <= i < m ==>
                        o.rendered[i] == Rendered(sequence - m + i, (p.lastTimestamp + (i + 1) * 960) % 0x1_0000_0000, true))
                  && o.rendered[m] == Rendered(sequence, timestamp, false))
            && (o.rendered == [] <==> o.playback == p.(ended := true))
  {
    var last := p.lastSequence.value;
    forall m: nat | Bridgeable(last, p.lastTimestamp, sequence, timestamp, m)
      ensures !Recovers(p, sequence, timestamp) && m == Missing(p, timestamp)
    {
      ClockSteps(p.lastTimestamp, timestamp, m + 1);
    }
    if !Recovers(p, sequence, timestamp) {
      var m: nat := Missing(p, timestamp);
      ClockSteps(p.lastTimestamp, timestamp, m + 1);
      assert Bridgeable(last, p.lastTimestamp, sequence, timestamp, m);
    }
  }

  lemma ClockSteps(from: u32, to: u32, frames: nat)
    requires 0 < frames <= 5
    ensures FramesLater(from, to, frames) <==> TimestampDelta(from, to) == frames * 960
  {
  }

  /** The first frame of a response is rendered as it is. */
  lemma FirstIsRendered(sequence: u32, timestamp: u32)
    ensures PlayUdp(NEW, sequence, timestamp) == Played(Playback(Some(sequence), timestamp, false), [Rendered(sequence, timestamp, false)])
  {
  }

  /** Nothing is rendered for a response that was ended. */
  lemma EndedIsSilent(p: Playback, sequence: u32, timestamp: u32)
    requires p.ended
    ensures PlayUdp(p, sequence, timestamp) == Played(p, [])
  {
  }

  class DesktopPlayback {
    const udp: bool
    var lastSequence: Option<u32>
    var lastTimestamp: u32
    var ended: bool
    ghost var rendered: seq<Rendered>

    function Model(): Playback
      reads this
    {
      Playback(lastSequence, lastTimestamp, ended)
    }

    constructor (udp: bool)
      ensures Model() == NEW && rendered == [] && this.udp == udp
    {
      this.udp, lastSequence, lastTimestamp, ended, rendered := udp, None, 0, false, [];
    }

    method Render(r: Rendered)
      modifies this`rendered
      ensures rendered == old(rendered) + [r]
    {
      rendered := rendered + [r];
    }

    /** False when the gap cannot be concealed and the response was ended. */
    method ConcealBoundedGap(sequence: u32, timestamp: u32) returns (ok: bool)
      modifies this
      ensures ok == (!udp || !Recovers(old(Model()), sequence, timestamp))
      ensures !ok ==> Model() == old(Model()).(ended := true) && rendered == old(rendered)
      ensures ok ==> Model() == old(Model())
      ensures ok ==> var missing := if udp && old(lastSequence).Some? then Missing(old(Model()), timestamp) else 0;
                     rendered == old(rendered) + if missing > 0 then Concealed(old(Model()), sequence, missing, missing) else []
    {
      if !udp || lastSequence.None? {
        return true;
      }
      var timestampDelta := (timestamp - lastTimestamp) % TWO_32;
      var sequenceDelta := sequence - lastSequence.value;
      if timestampDelta == 0 || timestampDelta % SAMPLES_PER_FRAME != 0 || sequenceDelta <= 0 {
        ended := true;
        return false;
      }
      var missing := timestampDelta / SAMPLES_PER_FRAME - 1;
      if missing > sequenceDelta - 1 || missing > MAX_PLC_GAP_FRAMES {
        ended := true;
        return false;
      }
      var offset := 1;
      ghost var p := Model();
      while offset <= missing
        invariant Model() == p && p == old(Model())
        invariant 1 <= offset && (missing >= 0 ==> offset <= missing + 1)
        invariant rendered == old(rendered) + Concealed(p, sequence, missing, offset - 1)
        decreases missing - offset
      {
        Render(Rendered(sequence - missing + offset - 1, (lastTimestamp + offset * SAMPLES_PER_FRAME) % TWO_32, true));
        offset := offset + 1;
      }
      return true;
    }

    method PlayAudio(sequence: u32, timestamp: u32)
      modifies this
      ensures udp ==> var o := PlayUdp(old(Model()), sequence, timestamp);
                      Model() == o.playback && rendered == old(rendered) + o.rendered
      ensures !udp && old(ended) ==> Model() == old(Model()) && rendered == old(rendered)
      ensures !udp && !old(ended) ==> Model() == Playback(Some(sequence), timestamp, false)
      ensures !udp && !old(ended) ==> rendered == old(rendered) + [Rendered(sequence, timestamp, false)]
    {
      if ended {
        return;
      }
      var ok := ConcealBoundedGap(sequence, timestamp);
      if !ok {
        return;
      }
      Render(Rendered(sequence, timestamp, false));
      lastSequence := Some(sequence);
      lastTimestamp := timestamp;
    }
  }
}
