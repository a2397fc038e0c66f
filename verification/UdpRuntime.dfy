/**
 The UDP runtime as an object (transport_udp/udp_runtime.cc).  Control methods run under
 one lock and `PumpOne` is one turn of the receive task's inner loop.  What each does to
 queue and session is the composition of the atomic steps that `RuntimeRuns` interleaves
 (`RuntimeRuns.GenerationSteps`, `StopSteps` and `PumpSteps`).
 */
module UdpRuntimes {
  import opened Machine
  import opened Jitter
  import opened SessionModel
  import opened Playout
  import UdpSessions

  class UdpRuntime {
    const session: UdpSessions.UdpSession
    const queue: PlayoutQueue
    var stopRequested: bool
    var mediaAgeDropped: u32
    var queueDropped: u32
    var qualityEpoch: u32

    ghost predicate Valid()
      reads this, session, session.Repr(), queue, queue.slots
    {
      && session.Valid() && queue.Valid()
      && session.Repr() !! {this as object, queue, queue.slots}
    }

    constructor (session: UdpSessions.UdpSession)
      requires session.Valid()
      ensures Valid() && this.session == session && queue.Model() == CLOSED && fresh(queue) && fresh(queue.slots)
    {
      this.session := session;
      queue := new PlayoutQueue();
      stopRequested, mediaAgeDropped, queueDropped, qualityEpoch := false, 0, 0, 0;
    }

    /** The queue part of `Start`. */
    method OpenQueue()
      requires Valid()
      modifies this, queue, queue.slots
      ensures Valid() && queue.Model() == Opened(session.generation) && session.Model() == old(session.Model())
      ensures !stopRequested && mediaAgeDropped == 0 && queueDropped == 0 && qualityEpoch == 0
    {
      stopRequested, mediaAgeDropped, queueDropped, qualityEpoch := false, 0, 0, 0;
      queue.Open(session.generation);
    }

    method FenceGeneration(g: u32) returns (ok: bool)
      requires Valid()
      modifies session.Repr(), queue, queue.slots
      ensures Valid()
      ensures var refused := stopRequested || g < old(session.Model()).generation;
              if refused then !ok && session.Model() == old(session.Model()) && queue.Model() == old(queue.Model())
              else queue.Model() == Playout.Advance(old(queue.Model()), g)
                   && session.Model() == Fence(old(session.Model()), g)
                   && ok == !GenerationRefused(old(session.Model()), g)
    {
      if stopRequested || g < session.generation {
        return false;
      }
      queue.AdvanceGeneration(g);
      ok := session.FenceGeneration(g);
    }

    method AdvanceGeneration(g: u32) returns (ok: bool)
      requires Valid()
      modifies session.Repr(), queue, queue.slots
      ensures Valid()
      ensures var refused := stopRequested || g < old(session.Model()).generation;
              if refused then !ok && session.Model() == old(session.Model()) && queue.Model() == old(queue.Model())
              else queue.Model() == Playout.Advance(old(queue.Model()), g)
                   && session.Model() == SessionModel.Advance(old(session.Model()), g)
                   && ok == !GenerationRefused(old(session.Model()), g)
    {
      if stopRequested || g < session.generation {
        return false;
      }
      queue.AdvanceGeneration(g);
      ok := session.AdvanceGeneration(g);
    }

    method RequestStop()
      requires Valid()
      modifies this, session.Repr(), queue, queue.slots
      ensures Valid() && stopRequested
      ensures session.Model() == Revoke(old(session.Model())) && queue.Model() == CLOSED
    {
      stopRequested := true;
      session.Revoke();
      queue.Close();
    }

    method PollPlayout(now: int) returns (frame: Option<PlayoutFrame>)
      requires Valid()
      modifies this, queue, queue.slots
      ensures Valid() && session.Model() == old(session.Model())
      ensures var p := FreshPoll(old(queue.Model()), now, MAXIMUM_MEDIA_AGE_US);
              && queue.Model() == p.queue && frame == p.frame
              && mediaAgeDropped == Wrap32(old(mediaAgeDropped) + p.expired)
              && qualityEpoch == if p.expired == 0 then old(qualityEpoch) else Wrap32(old(qualityEpoch) + 1)
    {
      var expired;
      frame, expired := queue.PopFresh(now, MAXIMUM_MEDIA_AGE_US);
      if expired != 0 {
        mediaAgeDropped := Wrap32(mediaAgeDropped + expired);
        qualityEpoch := Wrap32(qualityEpoch + 1);
      }
    }

    /** Push one frame and count a replaced one. */
    method Offer(frame: PlayoutFrame)
      requires Valid()
      modifies this, queue, queue.slots
      ensures Valid() && session.Model() == old(session.Model())
      ensures queue.Model() == AfterPush(old(queue.Model()), frame)
      ensures var replaced := if PushResultOf(old(queue.Model()), frame).ReplacedOldest? then 1 else 0;
              queueDropped == Wrap32(old(queueDropped) + replaced) && qualityEpoch == Wrap32(old(qualityEpoch) + replaced)
      ensures mediaAgeDropped == old(mediaAgeDropped) && stopRequested == old(stopRequested)
    {
      var pushed := queue.Push(frame);
      if pushed.ReplacedOldest? {
        queueDropped := Wrap32(queueDropped + 1);
        qualityEpoch := Wrap32(qualityEpoch + 1);
      }
    }

    /** One pop from the session followed by one push to the queue; nothing is pushed when no frame was ready. */
    method PumpOne(now: int) returns (frame: PlayoutFrame)
      requires Valid()
      modifies this, session, session.jitter, session.jitter.slots, queue, queue.slots
      ensures Valid()
      ensures (session.Model(), frame) == PopPlayout(old(session.Model()), now)
      ensures queue.Model() == if frame.kind.NoFrame? then old(queue.Model()) else AfterPush(old(queue.Model()), frame)
      ensures var replaced := if !frame.kind.NoFrame? && PushResultOf(old(queue.Model()), frame).ReplacedOldest? then 1 else 0;
              queueDropped == Wrap32(old(queueDropped) + replaced) && qualityEpoch == Wrap32(old(qualityEpoch) + replaced)
      ensures mediaAgeDropped == old(mediaAgeDropped) && stopRequested == old(stopRequested)
    {
      frame := session.PopPlayout(now);
      if !frame.kind.NoFrame? {
        Offer(frame);
      }
    }
  }
}
