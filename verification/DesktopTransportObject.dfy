/** The desktop UDP downlink as the object that updates its dict, sets and deque in place (transport/udp.py). */
module DesktopTransportObject {
  import opened Machine
  import opened DesktopTransport
  import opened DesktopTransportRuns
  import ReplayWindow

  class UdpMediaTransport {
    const replay: ReplayWindow.DesktopWindow
    const maxAge: real
    var expected: nat
    var reorder: map<u32, Frame>
    var nonAudio: set<u32>
    var ready: seq<Frame>
    var deadline: Option<real>
    var pending: map<u32, Waiting>
    var clock: Freshness
    /** Frames already read from the deque. */
    ghost var read: seq<Frame>

    ghost predicate Valid()
      reads this, replay
    {
      replay.Valid()
    }

    ghost function Buffer(): Reorder
      reads this
    {
      Reorder(expected, reorder, nonAudio, read + ready, deadline)
    }

    ghost function Model(): Transport
      reads this, replay
    {
      Transport(replay.committed, Buffer(), pending, |read|, clock, maxAge)
    }

    constructor (maxAge: real)
      ensures Valid() && Model() == Opened(maxAge).(committed := {})
      ensures fresh(replay)
    {
      this.maxAge := maxAge;
      replay := new ReplayWindow.DesktopWindow();
      expected, reorder, nonAudio, ready, deadline := 1, map[], {}, [], None;
      pending, clock, read := map[], Freshness(None, 0, 0.0), [];
    }

    /** The cursor passes a sequence that carries no audio. */
    method SkipOther()
      requires expected in nonAudio
      modifies this`expected, this`nonAudio
      ensures Buffer() == TakeOther(old(Buffer())) && |nonAudio| < |old(nonAudio)|
    {
      nonAudio := nonAudio - {expected};
      expected := expected + 1;
    }

    /** The cursor takes a held frame, which becomes ready. */
    method MakeReady()
      requires expected in reorder
      modifies this`expected, this`reorder, this`ready
      ensures Buffer() == TakeAudio(old(Buffer())) && |reorder| < |old(reorder)|
    {
      assert (reorder - {expected}).Keys == reorder.Keys - {expected};
      assert read + (ready + [reorder[expected]]) == read + ready + [reorder[expected]];
      ready := ready + [reorder[expected]];
      reorder := reorder - {expected};
      expected := expected + 1;
    }

    method ReleaseContiguous()
      modifies this`expected, this`reorder, this`nonAudio, this`ready, this`deadline
      ensures Buffer() == DesktopTransport.ReleaseContiguous(old(Buffer()))
    {
      while true
        invariant DesktopTransport.ReleaseContiguous(Buffer()) == DesktopTransport.ReleaseContiguous(old(Buffer()))
        decreases |reorder| + |nonAudio|
      {
        if expected in nonAudio {
          SkipOther();
        } else if expected in reorder {
          MakeReady();
        } else {
          if reorder == map[] && nonAudio == {} {
            deadline := None;
          }
          return;
        }
      }
    }

    /** `min` over the held sequences. */
    method Minimum(s: set<u32>) returns (m: u32)
      requires s != {}
      ensures m in s && forall x :: x in s ==> m <= x
    {
      m :| m in s;
      var rest := s - {m};
      while rest != {}
        invariant m in s && rest <= s
        invariant forall x :: x in s && x !in rest ==> m <= x
        decreases |rest|
      {
        var x :| x in rest;
        if x < m {
          m := x;
        }
        rest := rest - {x};
      }
    }

    method ReleaseGap()
      modifies this`expected, this`reorder, this`nonAudio, this`ready, this`deadline
      ensures Buffer() == DesktopTransport.ReleaseGap(old(Buffer()))
    {
      var held := reorder.Keys + nonAudio;
      if held == {} {
        assert reorder.Keys == {};
        return;
      }
      var sequence := Minimum(held);
      assert Holds(Buffer(), sequence) && Holds(Buffer(), LowestHeld(Buffer()));
      assert LowestHeld(Buffer()) in held;
      expected := sequence;
      ReleaseContiguous();
    }

    method ArmReorderDeadline(now: real)
      modifies this`deadline
      ensures Buffer() == Arm(old(Buffer()), now, maxAge)
    {
      var held := reorder.Keys + nonAudio;
      if held != {} {
        var sequence := Minimum(held);
        assert Holds(Buffer(), sequence) && Holds(Buffer(), LowestHeld(Buffer()));
        assert LowestHeld(Buffer()) in held;
        if sequence > expected && deadline.None? {
          deadline := Some(now + maxAge);
        }
      } else {
        assert reorder.Keys == {};
      }
    }

    /** The common end of both buffering operations. */
    method Settle(now: real)
      modifies this`expected, this`reorder, this`nonAudio, this`ready, this`deadline
      ensures Buffer() == DesktopTransport.Settle(old(Buffer()), now, maxAge)
    {
      ReleaseContiguous();
      ArmReorderDeadline(now);
      if |reorder| + |nonAudio| >= 4 {
        ReleaseGap();
      }
    }

    /** `ok == false` stands for the raised request to reopen. */
    method BufferAudioFrame(f: Frame, at: Times) returns (ok: bool)
      requires Valid()
      modifies this`expected, this`reorder, this`nonAudio, this`ready, this`deadline, this`clock
      ensures Valid()
      ensures Result(Model(), if ok then Fine else ReopenRequired) == BufferFrame(old(Model()), f, at)
    {
      if StaleMedia(clock, maxAge, f, at.checked) {
        return false;
      }
      if clock.generation != Some(f.generation) {
        clock := Freshness(Some(f.generation), f.timestamp, at.checked);
      }
      if f.sequence < expected {
        return true;
      }
      reorder := reorder[f.sequence := f];
      Settle(at.armed);
      return true;
    }

    method BufferNonAudio(sequence: u32, now: real)
      requires Valid()
      modifies this`expected, this`reorder, this`nonAudio, this`ready, this`deadline
      ensures Valid() && Model() == BufferSkipped(old(Model()), sequence, now)
    {
      if sequence < expected {
        return;
      }
      nonAudio := nonAudio + {sequence};
      Settle(now);
    }

    method AcceptFrame(f: Frame, v: Verdict, at: Times) returns (outcome: Outcome, handed: Option<Frame>)
      requires Valid()
      modifies this`expected, this`reorder, this`nonAudio, this`ready, this`deadline, this`pending, replay
      ensures Valid() && Accepted(Result(Model(), outcome), handed) == Accept(old(Model()), f, v, at)
    {
      var acceptable := replay.Acceptable(f.sequence);
      if !acceptable {
        return ProtocolError, None;
      }
      if f.audio {
        if v.Unknown? {
          if |pending| >= 4 && f.sequence !in pending {
            return ReopenRequired, None;
          }
          if f.sequence !in pending {
            pending := pending[f.sequence := Waiting(f, at.parked)];
          }
          return Fine, None;
        }
        if v.Refused? {
          return ProtocolError, None;
        }
        pending := pending - {f.sequence};
        var committed := replay.Commit(f.sequence);
        if v.Fenced? {
          BufferNonAudio(f.sequence, at.armed);
          return Fine, None;
        }
        return Fine, Some(f);
      }
      var committed := replay.Commit(f.sequence);
      return Fine, Some(f);
    }

    /** A probe acknowledgement ends the opening. */
    method ProbeAcknowledged() returns (ok: bool)
      requires Valid()
      modifies replay
      ensures Valid() && (old(replay.committed) == {} ==> ok)
      ensures Model() == if ok then old(Model()).(committed := old(replay.committed) + {0}) else old(Model())
    {
      ok := replay.Commit(0);
    }

    /** Commit one pending packet whose control has arrived, and buffer it. */
    method AdmitPendingFrame(sequence: u32, v: Verdict, at: Times) returns (outcome: Outcome)
      requires Valid() && sequence in pending
      modifies this`expected, this`reorder, this`nonAudio, this`ready, this`deadline, this`pending, this`clock, replay
      ensures Valid() && Result(Model(), outcome) == AdmitOne(old(Model()), sequence, v, at)
    {
      var f := pending[sequence].frame;
      pending := pending - {sequence};
      var committed := replay.Commit(f.sequence);
      if !committed {
        return ProtocolError;
      }
      if v.Admitted? {
        var ok := BufferAudioFrame(f, at);
        return if ok then Fine else ReopenRequired;
      }
      BufferNonAudio(f.sequence, at.armed);
      return Fine;
    }

    /** Try every packet that awaits control, by ascending sequence. */
    method AdmitPendingControl(validate: Validator, now: real, at: u32 -> Times) returns (outcome: Outcome)
      requires Valid()
      modifies this`expected, this`reorder, this`nonAudio, this`ready, this`deadline, this`pending, this`clock, replay
      ensures Valid() && Result(Model(), outcome) == AdmitPending(old(Model()), old(pending).Keys, validate, now, at)
    {
      var keys := pending.Keys;
      while keys != {}
        invariant Valid() && keys <= pending.Keys
        invariant AdmitPending(Model(), keys, validate, now, at) == AdmitPending(old(Model()), old(pending).Keys, validate, now, at)
        decreases |keys|
      {
        var sequence := Minimum(keys);
        assert sequence == Least(keys);
        var w := pending[sequence];
        if now - w.arrived > maxAge {
          return ReopenRequired;
        }
        var v := validate(w.frame);
        if v.Refused? {
          pending := pending - {sequence};
          return ProtocolError;
        }
        if !v.Unknown? {
          outcome := AdmitPendingFrame(sequence, v, at(sequence));
          if !outcome.Fine? {
            return;
          }
        }
        keys := keys - {sequence};
      }
      outcome := Fine;
    }

    /** Whether some packet has waited for control as long as media may age. */
    method PendingExpired(now: real) returns (expired: bool)
      requires Valid()
      ensures expired == SomePendingExpired(Model(), now)
    {
      var keys := pending.Keys;
      while keys != {}
        invariant keys <= pending.Keys
        invariant forall q :: q in pending && q !in keys ==> now < pending[q].arrived + maxAge
        decreases |keys|
      {
        var q :| q in keys;
        if now >= pending[q].arrived + maxAge {
          return true;
        }
        keys := keys - {q};
      }
      return false;
    }

    method ExpireReceiveDeadlines(now: real) returns (outcome: Outcome)
      requires Valid()
      modifies this`expected, this`reorder, this`nonAudio, this`ready, this`deadline
      ensures Valid() && Result(Model(), outcome) == Expire(old(Model()), now)
    {
      var expired := PendingExpired(now);
      if expired {
        return ReopenRequired;
      }
      if deadline.Some? && now >= deadline.value {
        ReleaseGap();
      }
      return Fine;
    }

    /** Buffer the frame that admission handed over, and read what became ready. */
    method HandOverFrame(f: Frame, at: Times) returns (outcome: Outcome, got: Option<Frame>)
      requires Valid()
      modifies this
      ensures Valid()
      ensures var h := HandOver(old(Model()), f, at);
              outcome == h.outcome && Model() == if outcome.Fine? then DesktopTransportRuns.Take(h.transport) else h.transport
      ensures read == old(read) + if got.Some? then [got.value] else []
    {
      got := None;
      if f.audio {
        var ok := BufferAudioFrame(f, at);
        if !ok {
          return ReopenRequired, None;
        }
      } else {
        BufferNonAudio(f.sequence, at.armed);
      }
      got := Take();
      outcome := Fine;
    }

    /** One turn of the receive loop on a datagram of this session. */
    method ReceiveDatagram(f: Frame, v: Verdict, at: Times) returns (outcome: Outcome, got: Option<Frame>)
      requires Valid()
      modifies this, replay
      ensures Valid() && Result(Model(), outcome) == OnDatagram(old(Model()), f, v, at)
      ensures read == old(read) + if got.Some? then [got.value] else []
    {
      got := None;
      var handed;
      outcome, handed := AcceptFrame(f, v, at);
      if outcome.ReopenRequired? {
        return;
      }
      outcome := ExpireReceiveDeadlines(at.expired);
      if !outcome.Fine? {
        return;
      }
      if ready != [] {
        got := Take();
        return;
      }
      if handed.Some? {
        outcome, got := HandOverFrame(handed.value, at);
      }
    }

    method Take() returns (got: Option<Frame>)
      requires Valid()
      modifies this
      ensures Valid() && Model() == DesktopTransportRuns.Take(old(Model()))
      ensures read == old(read) + if got.Some? then [got.value] else []
    {
      if ready == [] {
        return None;
      }
      got := Some(ready[0]);
      assert read + ready == read + [ready[0]] + ready[1..];
      read := read + [ready[0]];
      ready := ready[1..];
    }
  }
}
