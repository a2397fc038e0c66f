/** The desktop transport and the session that reads it, together: what becomes ready passes the session's sequence check. */
module DesktopDownlink {
  import opened Machine
  import opened DesktopSession
  import opened DesktopSessionRuns
  import opened DesktopSessionAnswers
  import DesktopTransport
  import DesktopTransportRuns

  /** The part of a transport frame that the session looks at. */
  function MediaOf(f: DesktopTransport.Frame): Media {
    Media(f.sequence, f.timestamp, f.generation)
  }

  /** The media given to the session in a history, in order. */
  function MediaIn(ops: seq<Op>): seq<Media> {
    if ops == [] then []
    else
      var n := |ops| - 1;
      MediaIn(ops[..n]) + if ops[n].OpMedia? then [ops[n].frame] else []
  }

  /** The session has been given frames the transport made ready, in that order, and nothing else. */
  ghost predicate Reads(ops: seq<Op>, released: seq<DesktopTransport.Frame>) {
    var media := MediaIn(ops);
    |media| <= |released| && forall i :: 0 <= i < |media| ==> media[i] == MediaOf(released[i])
  }

  /** One past the last sequence given to the session, 1 before the first. */
  function Given(media: seq<Media>): nat {
    if media == [] then 1 else media[|media| - 1].sequence + 1
  }

  lemma ReadsBefore(ops: seq<Op>, released: seq<DesktopTransport.Frame>, n: nat)
    requires Reads(ops, released) && n == |ops| - 1
    ensures Reads(ops[..n], released)
    ensures ops[n].OpMedia? ==> |MediaIn(ops[..n])| < |released| && ops[n].frame == MediaOf(released[|MediaIn(ops[..n])|])
  {
    var before, all := MediaIn(ops[..n]), MediaIn(ops);
    assert all[..|before|] == before;
    if ops[n].OpMedia? {
      assert all[|before|] == ops[n].frame;
    }
  }

  /** A frame in turn lies beyond everything given before it. */
  lemma InTurn(media: seq<Media>, released: seq<DesktopTransport.Frame>, cursor: nat)
    requires DesktopTransport.ReleasedBelow(released, cursor)
    requires |media| < |released| && forall i :: 0 <= i < |media| ==> media[i] == MediaOf(released[i])
    ensures released[|media|].sequence >= Given(media)
  {
    if media != [] {
      var k := |media| - 1;
      assert media[k] == MediaOf(released[k]);
      assert released[k].sequence < released[k + 1].sequence;
    }
  }

  /** Only media moves the session's expected sequence, and only to one past the frame given. */
  lemma NextSequenceStep(s: State, op: Op)
    ensures Apply(s, op).state.nextSequence == s.nextSequence
            || (op.OpMedia? && Apply(s, op).state.nextSequence == op.frame.sequence + 1)
    ensures Apply(s, op).state.wss == s.wss
  {
    match op {
      case OpControl(m) => ControlKeepsSequence(s, m);
      case OpMedia(f) =>
      case OpStarted(t, first) =>
      case OpEnded(t, outcome, played, last) =>
    }
  }

  lemma ControlKeepsSequence(s: State, m: Message)
    ensures AcceptControl(s, m).state.nextSequence == s.nextSequence && AcceptControl(s, m).state.wss == s.wss
  {
  }

  /** The session never expects more than one past the last frame it was given. */
  lemma {:induction false} NeverAhead(hs: seq<History>, ops: seq<Op>, released: seq<DesktopTransport.Frame>, cursor: nat, n: nat)
    requires IsRun(hs, ops) && hs[0] == Start(false) && n <= |ops|
    requires DesktopTransport.ReleasedBelow(released, cursor) && Reads(ops[..n], released)
    ensures hs[n].state.nextSequence <= Given(MediaIn(ops[..n])) && !hs[n].state.wss
  {
    if n > 0 {
      var k := n - 1;
      assert ops[..n][..k] == ops[..k] && ops[..n][k] == ops[k];
      ReadsBefore(ops[..n], released, k);
      NeverAhead(hs, ops, released, cursor, k);
      assert hs[k + 1] == Next(hs[k], ops[k]);
      NextSequenceStep(hs[k].state, ops[k]);
      if ops[k].OpMedia? {
        InTurn(MediaIn(ops[..k]), released, cursor);
      }
    }
  }

  lemma {:induction false} ReadsPrefix(ops: seq<Op>, released: seq<DesktopTransport.Frame>, n: nat)
    requires Reads(ops, released) && n <= |ops|
    ensures Reads(ops[..n], released)
    decreases |ops|
  {
    if n < |ops| {
      var k := |ops| - 1;
      ReadsBefore(ops, released, k);
      ReadsPrefix(ops[..k], released, n);
      assert ops[..k][..n] == ops[..n];
    } else {
      assert ops[..n] == ops;
    }
  }

  /**
   For every run of the transport and every session history that reads what it made ready,
   interleaved with any control and local facts: each media frame is at or past the sequence
   the session expects.  So an open session rejects one exactly when its generation is not
   known any more, or the playback is playable and the timestamp is not a whole number of
   frames after that of the last frame returned.
   */
  lemma SessionAlwaysAccepts(
      maxAge: real, received: seq<DesktopTransportRuns.Op>, hs: seq<History>, ops: seq<Op>, n: nat)
    requires IsRun(hs, ops) && hs[0] == Start(false)
    requires Reads(ops, DesktopTransportRuns.Steps(DesktopTransportRuns.Opened(maxAge), received).reorder.released)
    requires n < |ops| && ops[n].OpMedia?
    ensures ops[n].frame.sequence >= hs[n].state.nextSequence
    ensures var s, f := hs[n].state, ops[n].frame;
            AcceptMedia(s, f).reply.Rejected? <==>
              || s.closed
              || (!Playable(s, f.generation) && !Silenced(s, f.generation))
              || (Playable(s, f.generation) && OutOfStep(hs, ops, false, n, f))
  {
    DesktopTransportRuns.ReleasedAscend(maxAge, received);
    var r := DesktopTransportRuns.Steps(DesktopTransportRuns.Opened(maxAge), received).reorder;
    ReadsPrefix(ops, r.released, n);
    ReadsPrefix(ops, r.released, n + 1);
    assert ops[..n + 1][..n] == ops[..n] && ops[..n + 1][n] == ops[n];
    ReadsBefore(ops[..n + 1], r.released, n);
    NeverAhead(hs, ops, r.released, r.expected, n);
    InTurn(MediaIn(ops[..n]), r.released, r.expected);
    MediaDecides(hs, ops, false, n, ops[n].frame);
  }
}
