/** The desktop session state as the object that updates its dicts, sets and deques in place (session/state.py). */
module DesktopSessionObject {
  import opened Machine
  import opened DesktopSession

  class SessionState {
    const wss: bool
    var closed: bool
    var fence: nat
    var highest: nat
    var current: Option<Target>
    var live: map<nat, Playback>
    var tombstones: seq<Playback>
    var transcripts: map<string, nat>
    var finalSet: set<string>
    var finalOrder: seq<string>
    var responseText: map<nat, nat>
    var lastTimestamp: map<nat, u32>
    var nextSequence: nat

    function Model(): State
      reads this
    {
      State(wss, closed, fence, highest, current, live, tombstones, transcripts, finalSet, finalOrder,
            responseText, lastTimestamp, nextSequence)
    }

    constructor (wss: bool)
      ensures Model() == Opened(wss)
    {
      this.wss, closed, fence, highest, current := wss, false, 1, 0, None;
      live, tombstones, transcripts, finalSet, finalOrder := map[], [], map[], {}, [];
      responseText, lastTimestamp, nextSequence := map[], map[], if wss then 0 else 1;
    }

    /** Search the live table, then the tombstones from the newest. */
    method FindPlayback(g: nat) returns (p: Option<Playback>, tombstone: int)
      ensures p == Find(Model(), g)
      ensures tombstone == if g in live then -1 else TombstoneOf(tombstones, g)
    {
      if g in live {
        return Some(live[g]), -1;
      }
      var i := |tombstones|;
      while i > 0
        invariant 0 <= i <= |tombstones|
        invariant TombstoneOf(tombstones[..i], g) == TombstoneOf(tombstones, g)
      {
        assert tombstones[..i][..i - 1] == tombstones[..i - 1];
        if tombstones[i - 1].target.generation == g {
          return Some(tombstones[i - 1]), i - 1;
        }
        i := i - 1;
      }
      return None, -1;
    }

    method Update(g: nat, tombstone: int, p: Playback)
      requires g in live || (tombstone >= 0 && tombstone == TombstoneOf(tombstones, g))
      modifies this`live, this`tombstones
      ensures Model() == Put(old(Model()), g, p)
    {
      if g in live {
        live := live[g := p];
      } else {
        tombstones := tombstones[tombstone := p];
      }
    }

    method RememberFinal(u: string) returns (reply: Reply)
      modifies this`finalSet, this`finalOrder
      ensures Step(Model(), reply) == Remember(old(Model()), u)
    {
      if |finalOrder| >= TOMBSTONE_LIMIT {
        var expired := finalOrder[0];
        finalOrder := finalOrder[1..];
        if expired !in finalSet {
          return Crashed;
        }
        finalSet := finalSet - {expired};
      }
      finalOrder := finalOrder + [u];
      finalSet := finalSet + {u};
      return Event;
    }

    method AcceptTranscriptMessage(u: string, sequence: nat, isFinal: bool) returns (reply: Reply)
      modifies this
      ensures Step(Model(), reply) == AcceptTranscript(old(Model()), u, sequence, isFinal)
    {
      if u in finalSet {
        return Rejected;
      }
      var expected := if u in transcripts then transcripts[u] else 0;
      if sequence != expected {
        return Rejected;
      }
      if !isFinal {
        transcripts := transcripts[u := expected + 1];
        return Event;
      }
      reply := RememberFinal(u);
      transcripts := transcripts - {u};
    }

    method AcceptResponseBegin(t: Target) returns (reply: Reply)
      modifies this
      ensures Step(Model(), reply) == AcceptBegin(old(Model()), t)
    {
      if t.generation <= highest || t.generation < fence || current.Some? {
        return Rejected;
      }
      highest := t.generation;
      current := Some(t);
      live := live[t.generation := NewPlayback(t)];
      responseText := responseText[t.generation := 0];
      return Event;
    }

    method AcceptResponseText(t: Target, sequence: nat) returns (reply: Reply)
      modifies this
      ensures Step(Model(), reply) == AcceptText(old(Model()), t, sequence)
    {
      var found, _ := FindPlayback(t.generation);
      var expected := if t.generation in responseText then responseText[t.generation] else 0;
      if current != Some(t) || found.None? || found.value.target != t || sequence != expected {
        return Rejected;
      }
      responseText := responseText[t.generation := expected + 1];
      return Event;
    }

    method AcceptResponseEnd(t: Target, ending: Ending, final: nat) returns (reply: Reply)
      modifies this
      ensures Step(Model(), reply) == AcceptEnd(old(Model()), t, ending, final)
    {
      var found, tombstone := FindPlayback(t.generation);
      if found.None? || found.value.target != t || found.value.terminal {
        return Rejected;
      }
      var p := found.value;
      Update(t.generation, tombstone, p.(final := if ending.Completed? then Some(final) else p.final, terminal := true));
      return Event;
    }

    method AcceptPlaybackStop(t: Target, stopFence: nat, cause: string) returns (reply: Reply)
      modifies this
      ensures Step(Model(), reply) == AcceptStop(old(Model()), t, stopFence, cause)
    {
      var found, tombstone := FindPlayback(t.generation);
      if found.None? || found.value.target != t || found.value.ended {
        return Rejected;
      }
      var p := found.value;
      if p.stopFence.Some? {
        return if p.stopFence == Some(stopFence) && p.stopCause == cause then Silent else Rejected;
      }
      if stopFence <= t.generation || stopFence <= fence {
        return Rejected;
      }
      Update(t.generation, tombstone, p.(stopped := true, stopFence := Some(stopFence), stopCause := cause));
      fence := stopFence;
      return Event;
    }

    method ValidateMediaAdmission(f: Media) returns (a: Admission)
      ensures a == Validate(Model(), f)
    {
      var found, _ := FindPlayback(f.generation);
      if found.None? {
        return Error;
      }
      var p := found.value;
      if f.generation < fence || p.stopped || p.ended {
        return Skip;
      }
      if current != Some(p.target) {
        return Error;
      }
      if f.generation in lastTimestamp {
        var delta := (f.timestamp - lastTimestamp[f.generation]) % TWO_32;
        if wss {
          if delta != SAMPLES_PER_FRAME {
            return Error;
          }
        } else if delta == 0 || delta % SAMPLES_PER_FRAME != 0 {
          return Error;
        }
      }
      return Admit;
    }

    method AcceptMediaFrame(f: Media) returns (reply: Reply)
      modifies this
      ensures Step(Model(), reply) == AcceptMedia(old(Model()), f)
    {
      if closed {
        return Rejected;
      }
      var a := ValidateMediaAdmission(f);
      if a.Error? || (wss && f.sequence != nextSequence) || (!wss && f.sequence < nextSequence) {
        return Rejected;
      }
      nextSequence := f.sequence + 1;
      if a.Skip? {
        return Silent;
      }
      lastTimestamp := lastTimestamp[f.generation := f.timestamp];
      if f.generation !in live {
        return Crashed;
      }
      var p := live[f.generation];
      if p.first.None? {
        p := p.(first := Some(f.sequence));
      }
      live := live[f.generation := p.(last := Some(f.sequence))];
      return Event;
    }

    method ReportStarted(t: Target, first: u32) returns (reply: Reply)
      modifies this
      ensures Step(Model(), reply) == PlaybackStarted(old(Model()), t, first)
    {
      var found, tombstone := FindPlayback(t.generation);
      if found.None? || found.value.target != t {
        return Rejected;
      }
      var p := found.value;
      if p.started || p.ended || p.stopped || p.first != Some(first) {
        return Rejected;
      }
      Update(t.generation, tombstone, p.(started := true));
      return Event;
    }

    method ReportEnded(t: Target, outcome: Outcome, played: u64, last: Option<u32>) returns (reply: Reply)
      modifies this
      ensures Step(Model(), reply) == PlaybackEnded(old(Model()), t, outcome, played, last)
    {
      var found, _ := FindPlayback(t.generation);
      if found.None? || found.value.target != t || found.value.ended {
        return Rejected;
      }
      var p := found.value;
      if played == 0 && last.Some? {
        return Rejected;
      }
      if last.Some? {
        if !p.started || last != p.last {
          return Rejected;
        }
      } else if played != 0 {
        return Rejected;
      }
      if p.started && played == 0 {
        return Rejected;
      }
      if outcome.PlayedThrough? {
        if !p.started || !p.terminal || p.final.None? || played == 0 || last.None? || last.value != p.final.value {
          return Rejected;
        }
      }
      if current == Some(t) {
        current := None;
      }
      live := live - {t.generation};
      responseText := responseText - {t.generation};
      lastTimestamp := lastTimestamp - {t.generation};
      tombstones := Bury(tombstones, p.(ended := true));
      return Event;
    }
  }
}
