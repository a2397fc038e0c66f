/**
 Anti-replay windows of the two endpoints.  Both keep a highest sequence and a 64-bit
 bitmap; both are proved to represent the set of all sequences they ever committed.
 */
module ReplayWindow {
  import opened Machine
  import opened BitArithmetic

  const WINDOW := 64
  const MAX_FORWARD := 1024

  /** The greatest committed sequence, 0 when nothing was committed. */
  ghost function Newest(committed: set<u32>): (r: u32)
    ensures forall s :: s in committed ==> s <= r
    ensures r in committed || (committed == {} && r == 0)
  {
    if committed == {} then 0
    else
      var s :| s in committed;
      var rest := Newest(committed - {s});
      assert committed == (committed - {s}) + {s};
      if s >= rest then s else rest
  }

  /** What a window accepts, stated on the whole history instead of on a bitmap. */
  ghost predicate Accepts(committed: set<u32>, s: u32) {
    if s > Newest(committed) then s - Newest(committed) <= MAX_FORWARD
    else Newest(committed) - s < WINDOW && s !in committed
  }

  /** The desktop window takes any first sequence. */
  ghost predicate DesktopAccepts(committed: set<u32>, s: u32) {
    committed == {} || Accepts(committed, s)
  }

  /** Bit d of the bitmap says whether the sequence d behind the highest was committed. */
  ghost predicate Represents(highest: u32, bitmap: u64, committed: set<u32>) {
    && highest == Newest(committed)
    && forall d: nat | d < WINDOW ::
         TestBit(bitmap, d) <==> d <= highest && highest - d in committed
  }

  /** `shift >= 64 ? 1 : (bitmap << shift) | 1` in 64-bit arithmetic */
  function ShiftedBitmap(bitmap: u64, shift: nat): (r: u64)
  {
    Pow2Is64();
    if shift >= WINDOW then 1
    else
      SetBitSmall(ShiftLeft(bitmap, shift) % TWO_64, 64, 0);
      SetBit(ShiftLeft(bitmap, shift) % TWO_64, 0)
  }

  /** `((bitmap << shift) | 1) & (2^64 - 1)` in unbounded arithmetic */
  function MaskedBitmap(bitmap: u64, shift: nat): (r: u64) {
    SetBit(ShiftLeft(bitmap, shift), 0) % TWO_64
  }

  lemma ShiftedBits(bitmap: u64, shift: nat, d: nat)
    requires shift > 0 && d < WINDOW
    ensures TestBit(ShiftedBitmap(bitmap, shift), d) == (d == 0 || (d >= shift && TestBit(bitmap, d - shift)))
  {
    Pow2Is64();
    if shift >= WINDOW {
      assert TestBit(1, 0);
      if d > 0 {
        TestBitZero(d - 1);
      }
    } else {
      TestBitSet(ShiftLeft(bitmap, shift) % TWO_64, 0, d);
      TestBitTruncate(ShiftLeft(bitmap, shift), 64, d);
      TestBitShift(bitmap, shift, d);
    }
  }

  lemma MaskedBits(bitmap: u64, shift: nat, d: nat)
    requires shift > 0 && d < WINDOW
    ensures TestBit(MaskedBitmap(bitmap, shift), d) == (d == 0 || (d >= shift && TestBit(bitmap, d - shift)))
  {
    Pow2Is64();
    TestBitTruncate(SetBit(ShiftLeft(bitmap, shift), 0), 64, d);
    TestBitSet(ShiftLeft(bitmap, shift), 0, d);
    TestBitShift(bitmap, shift, d);
  }

  /** Moving the window forward: any bitmap with the shifted bits represents the larger history. */
  lemma ForwardRepresents(highest: u32, bitmap: u64, committed: set<u32>, s: u32, moved: u64)
    requires Represents(highest, bitmap, committed) && s > highest
    requires forall d: nat | d < WINDOW ::
               TestBit(moved, d) == (d == 0 || (d >= s - highest && TestBit(bitmap, d - (s - highest))))
    ensures Represents(s, moved, committed + {s})
  {
    assert s in committed + {s};
    assert Newest(committed + {s}) == s;
    forall d: nat | d < WINDOW
      ensures TestBit(moved, d) <==> d <= s && s - d in committed + {s}
    {
      if d >= s - highest {
        var back := d - (s - highest);
        assert TestBit(bitmap, back) <==> back <= highest && highest - back in committed;
      }
    }
  }

  lemma NewestKept(highest: u32, committed: set<u32>, s: u32)
    requires highest == Newest(committed) && s <= highest
    ensures Newest(committed + {s}) == highest
  {
    assert s in committed + {s};
    if committed != {} {
      assert highest in committed + {s};
    }
  }

  lemma BehindRepresents(highest: u32, bitmap: u64, committed: set<u32>, s: u32)
    requires Represents(highest, bitmap, committed)
    requires s <= highest && highest - s < WINDOW
    ensures SetBit(bitmap, highest - s) < TWO_64
    ensures Represents(highest, SetBit(bitmap, highest - s), committed + {s})
  {
    Pow2Is64();
    SetBitSmall(bitmap, 64, highest - s);
    NewestKept(highest, committed, s);
    var marked := SetBit(bitmap, highest - s);
    forall d: nat | d < WINDOW
      ensures TestBit(marked, d) <==> d <= highest && highest - d in committed + {s}
    {
      TestBitSet(bitmap, highest - s, d);
    }
  }

  lemma EmptyRepresents()
    ensures Represents(0, 0, {})
  {
    forall d: nat | d < WINDOW
      ensures !TestBit(0, d)
    {
      TestBitZero(d);
    }
  }

  lemma FirstRepresents(s: u32)
    ensures Represents(s, 1, {s})
  {
    forall d: nat | d < WINDOW
      ensures TestBit(1, d) <==> d <= s && s - d in {s}
    {
      if d == 0 {
        assert TestBit(1, 0);
      } else {
        TestBitZero(d - 1);
      }
    }
  }

  /** The firmware window (transport_udp/replay_window.cc). */
  class FirmwareWindow {
    var highest: u32
    var bitmap: u64
    ghost var committed: set<u32>

    ghost predicate Valid()
      reads this
    {
      Represents(highest, bitmap, committed)
    }

    constructor ()
      ensures Valid() && committed == {}
    {
      highest, bitmap, committed := 0, 0, {};
      new;
      EmptyRepresents();
    }

    method CanAccept(sequence: u32) returns (ok: bool)
      requires Valid()
      ensures ok == Accepts(committed, sequence)
    {
      if sequence > highest {
        return sequence - highest <= MAX_FORWARD;
      }
      var distance := highest - sequence;
      return distance < 64 && !TestBit(bitmap, distance);
    }

    /** Only accepted sequences are committed; further back the shift has no meaning. */
    method Commit(sequence: u32)
      requires Valid() && Accepts(committed, sequence)
      modifies this
      ensures Valid() && committed == old(committed) + {sequence}
    {
      if sequence > highest {
        var shift := sequence - highest;
        forall d: nat | d < WINDOW
          ensures TestBit(ShiftedBitmap(bitmap, shift), d) == (d == 0 || (d >= shift && TestBit(bitmap, d - shift)))
        {
          ShiftedBits(bitmap, shift, d);
        }
        ForwardRepresents(highest, bitmap, committed, sequence, ShiftedBitmap(bitmap, shift));
        bitmap := ShiftedBitmap(bitmap, shift);
        highest := sequence;
      } else {
        BehindRepresents(highest, bitmap, committed, sequence);
        bitmap := SetBit(bitmap, highest - sequence);
      }
      committed := committed + {sequence};
    }

    method Reset()
      modifies this
      ensures Valid() && committed == {}
    {
      highest, bitmap, committed := 0, 0, {};
      EmptyRepresents();
    }
  }

  /** The desktop window (protocol/udp.py): `highest` is absent until the first commit. */
  class DesktopWindow {
    var highest: Option<u32>
    var bitmap: u64
    ghost var committed: set<u32>

    ghost predicate Valid()
      reads this
    {
      match highest
      case None => committed == {} && bitmap == 0
      case Some(h) => committed != {} && Represents(h, bitmap, committed)
    }

    constructor ()
      ensures Valid() && committed == {}
    {
      highest, bitmap, committed := None, 0, {};
    }

    method Acceptable(sequence: int) returns (ok: bool)
      requires Valid()
      ensures ok == (0 <= sequence < TWO_32 && DesktopAccepts(committed, sequence))
    {
      if !(0 <= sequence <= 0xFFFFFFFF) {
        return false;
      }
      if highest.None? {
        return true;
      }
      if sequence > highest.value {
        return sequence - highest.value <= MAX_FORWARD;
      }
      var offset := highest.value - sequence;
      return offset < 64 && !TestBit(bitmap, offset);
    }

    /** `ok == false` stands for the raised `replayed_or_invalid_sequence` error. */
    method Commit(sequence: int) returns (ok: bool)
      requires Valid()
      modifies this
      ensures Valid()
      ensures ok == (0 <= sequence < TWO_32 && DesktopAccepts(old(committed), sequence))
      ensures ok ==> committed == old(committed) + {sequence}
      ensures !ok ==> committed == old(committed) && highest == old(highest) && bitmap == old(bitmap)
    {
      ok := Acceptable(sequence);
      if !ok {
        return;
      }
      if highest.None? {
        highest, bitmap, committed := Some(sequence), 1, committed + {sequence};
        FirstRepresents(sequence);
        assert committed == {sequence};
        return;
      }
      if sequence > highest.value {
        var shift := sequence - highest.value;
        forall d: nat | d < WINDOW
          ensures TestBit(MaskedBitmap(bitmap, shift), d) == (d == 0 || (d >= shift && TestBit(bitmap, d - shift)))
        {
          MaskedBits(bitmap, shift, d);
        }
        ForwardRepresents(highest.value, bitmap, committed, sequence, MaskedBitmap(bitmap, shift));
        bitmap := MaskedBitmap(bitmap, shift);
        highest := Some(sequence);
        committed := committed + {sequence};
        return;
      }
      BehindRepresents(highest.value, bitmap, committed, sequence);
      bitmap := SetBit(bitmap, highest.value - sequence);
      committed := committed + {sequence};
    }
  }

  /** Whole runs: a stream of authenticated sequences, each committed when accepted. */
  datatype Endpoint = Firmware | Desktop

  ghost predicate Takes(e: Endpoint, committed: set<u32>, s: u32) {
    if e.Firmware? then Accepts(committed, s) else DesktopAccepts(committed, s)
  }

  ghost function After(e: Endpoint, committed: set<u32>, s: u32): set<u32> {
    if Takes(e, committed, s) then committed + {s} else committed
  }

  ghost function Decisions(e: Endpoint, committed: set<u32>, offers: seq<u32>): (r: seq<bool>)
    ensures |r| == |offers|
    decreases offers
  {
    if offers == [] then []
    else [Takes(e, committed, offers[0])] + Decisions(e, After(e, committed, offers[0]), offers[1..])
  }

  lemma {:induction false} NeverAcceptedAgain(e: Endpoint, committed: set<u32>, offers: seq<u32>, k: nat)
    requires k < |offers| && offers[k] in committed
    ensures !Decisions(e, committed, offers)[k]
    decreases offers
  {
    if k > 0 {
      NeverAcceptedAgain(e, After(e, committed, offers[0]), offers[1..], k - 1);
    } else {
      assert committed != {};
    }
  }

  /** In every run of either window no sequence is accepted twice. */
  lemma {:induction false} AcceptedAtMostOnce(e: Endpoint, committed: set<u32>, offers: seq<u32>, i: nat, j: nat)
    requires i < j < |offers| && offers[i] == offers[j]
    requires Decisions(e, committed, offers)[i]
    ensures !Decisions(e, committed, offers)[j]
    decreases offers
  {
    var next := After(e, committed, offers[0]);
    if i == 0 {
      assert offers[1..][j - 1] in next;
      NeverAcceptedAgain(e, next, offers[1..], j - 1);
    } else {
      AcceptedAtMostOnce(e, next, offers[1..], i - 1, j - 1);
    }
  }

  lemma {:induction false} AgreeOnceStarted(committed: set<u32>, offers: seq<u32>)
    requires committed != {}
    ensures Decisions(Firmware, committed, offers) == Decisions(Desktop, committed, offers)
    decreases offers
  {
    if offers != [] {
      AgreeOnceStarted(After(Firmware, committed, offers[0]), offers[1..]);
    }
  }

  /**
   Two fresh windows agree on a whole stream exactly when its first sequence is
   within the forward distance; after any common first commit they never disagree.
   */
  lemma FreshWindowsAgreeIff(offers: seq<u32>)
    ensures Decisions(Firmware, {}, offers) == Decisions(Desktop, {}, offers)
       <==> (offers == [] || offers[0] <= MAX_FORWARD)
  {
    if offers != [] {
      assert Decisions(Desktop, {}, offers)[0];
      assert Decisions(Firmware, {}, offers)[0] == (offers[0] <= MAX_FORWARD);
      if offers[0] <= MAX_FORWARD {
        AgreeOnceStarted({offers[0]}, offers[1..]);
        assert {} + {offers[0]} == {offers[0]};
      }
    }
  }

  // ---- What each offer of a stream must be answered ---------------------------------------------------

  /** The committed sequences after the first k offers. */
  ghost function CommittedAfter(e: Endpoint, committed: set<u32>, offers: seq<u32>, k: nat): set<u32>
    requires k <= |offers|
  {
    if k == 0 then committed else After(e, CommittedAfter(e, committed, offers, k - 1), offers[k - 1])
  }

  lemma {:induction false} CommittedShift(e: Endpoint, committed: set<u32>, offers: seq<u32>, k: nat)
    requires 0 < k <= |offers|
    ensures CommittedAfter(e, committed, offers, k) == CommittedAfter(e, After(e, committed, offers[0]), offers[1..], k - 1)
  {
    if k > 1 {
      CommittedShift(e, committed, offers, k - 1);
      assert offers[1..][k - 2] == offers[k - 1];
    }
  }

  lemma {:induction false} DecisionAt(e: Endpoint, committed: set<u32>, offers: seq<u32>, k: nat)
    requires k < |offers|
    ensures Decisions(e, committed, offers)[k] == Takes(e, CommittedAfter(e, committed, offers, k), offers[k])
    decreases k
  {
    if k > 0 {
      DecisionAt(e, After(e, committed, offers[0]), offers[1..], k - 1);
      CommittedShift(e, committed, offers, k);
    }
  }

  /** The sequence was offered and accepted before offer k. */
  ghost predicate TakenBefore(e: Endpoint, offers: seq<u32>, k: nat, s: u32)
    requires k <= |offers|
  {
    exists i :: 0 <= i < k && offers[i] == s && Decisions(e, {}, offers)[i]
  }

  lemma {:induction false} CommittedIsTaken(e: Endpoint, offers: seq<u32>, k: nat, s: u32)
    requires k <= |offers|
    ensures s in CommittedAfter(e, {}, offers, k) <==> TakenBefore(e, offers, k, s)
  {
    if k > 0 {
      CommittedIsTaken(e, offers, k - 1, s);
      DecisionAt(e, {}, offers, k - 1);
    }
  }

  /** m is the greatest sequence accepted before offer k. */
  ghost predicate GreatestTaken(e: Endpoint, offers: seq<u32>, k: nat, m: u32)
    requires k <= |offers|
  {
    TakenBefore(e, offers, k, m) && forall s: u32 :: TakenBefore(e, offers, k, s) ==> s <= m
  }

  /**
   In every stream of offers to a fresh window, each is accepted exactly by the sliding-window rule
   on what was accepted before: at most 1024 ahead of the greatest, or less than 64 behind it and new.
   */
  lemma OfferIff(e: Endpoint, offers: seq<u32>, k: nat, m: u32)
    requires k < |offers| && GreatestTaken(e, offers, k, m)
    ensures Decisions(e, {}, offers)[k] <==>
            if offers[k] > m then offers[k] - m <= 1024 else m - offers[k] < 64 && !TakenBefore(e, offers, k, offers[k])
  {
    var c := CommittedAfter(e, {}, offers, k);
    DecisionAt(e, {}, offers, k);
    CommittedIsTaken(e, offers, k, m);
    CommittedIsTaken(e, offers, k, Newest(c));
    CommittedIsTaken(e, offers, k, offers[k]);
  }

  /** The first offer: the firmware takes sequences up to 1024, the desktop any. */
  lemma FirstOfferIff(e: Endpoint, offers: seq<u32>)
    requires offers != []
    ensures Decisions(e, {}, offers)[0] <==> e.Desktop? || offers[0] <= 1024
  {
  }
}
