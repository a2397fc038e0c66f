/**
 The firmware's four-cell stash for audio that arrives before its `response.begin`
 (the future_frames_ array of transport_udp/udp_session.cc), proved against a map.
 */
module FutureFrames {
  import opened Machine
  import opened Jitter
  import opened SlotTable
  import opened SessionModel
  import JitterSlots

  type Frame = Cell<Stashed>

  const CLEAR: Frame := Cell(false, 0, Stashed(0, 0, 0, []))

  /** Indices in `order[..n]` name used cells in strictly ascending sequence. */
  ghost predicate Ascending(cells: seq<Frame>, order: seq<nat>) {
    && (forall a :: 0 <= a < |order| ==> order[a] < |cells| && cells[order[a]].used)
    && (forall a, b :: 0 <= a < b < |order| ==> cells[order[a]].sequence < cells[order[b]].sequence)
  }

  ghost predicate SameMembers(a: seq<nat>, b: seq<nat>) {
    forall y :: y in a <==> y in b
  }

  /** Put `x` at place p of a sequence. */
  function Inserted<T>(s: seq<T>, p: nat, x: T): seq<T>
    requires p <= |s|
  {
    s[..p] + [x] + s[p..]
  }

  lemma InsertedAt<T>(s: seq<T>, p: nat, x: T, a: nat)
    requires p <= |s| && a <= |s|
    ensures |Inserted(s, p, x)| == |s| + 1
    ensures Inserted(s, p, x)[a] == if a < p then s[a] else if a == p then x else s[a - 1]
  {
  }

  lemma InsertedMembers(s: seq<nat>, p: nat, x: nat)
    requires p <= |s|
    ensures SameMembers(Inserted(s, p, x), s + [x])
  {
    var r := Inserted(s, p, x);
    forall y | y in s
      ensures y in r
    {
      var a :| 0 <= a < |s| && s[a] == y;
      assert r[if a < p then a else a + 1] == y;
    }
    assert r[p] == x;
  }

  lemma InsertedAscending(cells: seq<Frame>, s: seq<nat>, p: nat, x: nat)
    requires Ascending(cells, s) && p <= |s| && x < |cells| && cells[x].used
    requires forall a :: 0 <= a < p ==> cells[s[a]].sequence < cells[x].sequence
    requires forall a :: p <= a < |s| ==> cells[x].sequence < cells[s[a]].sequence
    ensures Ascending(cells, Inserted(s, p, x))
    ensures SameMembers(Inserted(s, p, x), s + [x])
  {
    InsertedMembers(s, p, x);
    var r := Inserted(s, p, x);
    forall a | 0 <= a < |r|
      ensures r[a] < |cells| && cells[r[a]].used
    {
      InsertedAt(s, p, x, a);
    }
    forall a, b | 0 <= a < b < |r|
      ensures cells[r[a]].sequence < cells[r[b]].sequence
    {
      InsertedAt(s, p, x, a);
      InsertedAt(s, p, x, b);
    }
  }

  lemma ShiftedIsInserted<T>(r: seq<T>, s: seq<T>, p: nat, x: T)
    requires p <= |s| && |r| == |s| + 1 && r[p] == x
    requires forall a :: 0 <= a < p ==> r[a] == s[a]
    requires forall a :: p < a <= |s| ==> r[a] == s[a - 1]
    ensures r == Inserted(s, p, x)
  {
  }

  /** Shift `order[index]` left past every larger sequence of the sorted prefix. */
  method ShiftIntoPlace(cells: seq<Frame>, order: array<nat>, index: nat)
    requires Distinct(cells) && index < order.Length && Ascending(cells, order[..index])
    requires order[index] < |cells| && cells[order[index]].used && order[index] !in order[..index]
    modifies order
    ensures Ascending(cells, order[..index + 1])
    ensures SameMembers(order[..index + 1], old(order[..index + 1]))
    ensures order[index + 1..] == old(order[index + 1..])
  {
    var current := order[index];
    ghost var sorted := order[..index];
    assert order[..index + 1] == sorted + [current];
    var position := FindPlace(cells, order, index, current);
    BelowPlace(cells, sorted, position, current);
    order[position] := current;
    ShiftedIsInserted(order[..index + 1], sorted, position, current);
    InsertedAscending(cells, sorted, position, current);
    assert order[..index + 1] == Inserted(sorted, position, current);
  }

  /** Move every larger sequence of the sorted prefix one place right; returns the place that became free. */
  method FindPlace(cells: seq<Frame>, order: array<nat>, index: nat, current: nat) returns (position: nat)
    requires index < order.Length && Ascending(cells, order[..index])
    requires current < |cells|
    modifies order
    ensures position <= index
    ensures position > 0 ==> cells[old(order[position - 1])].sequence <= cells[current].sequence
    ensures forall a :: position <= a < index ==> cells[old(order[a])].sequence > cells[current].sequence
    ensures forall a :: 0 <= a < position ==> order[a] == old(order[a])
    ensures forall a :: position < a <= index ==> order[a] == old(order[a - 1])
    ensures forall a :: index < a < order.Length ==> order[a] == old(order[a])
  {
    ghost var sorted := order[..index];
    position := index;
    while position > 0 && cells[order[position - 1]].sequence > cells[current].sequence
      invariant 0 <= position <= index
      invariant forall a :: 0 <= a < position ==> order[a] == sorted[a]
      invariant forall a :: position < a <= index ==> order[a] == sorted[a - 1]
      invariant forall a :: index < a < order.Length ==> order[a] == old(order[a])
      invariant forall a :: position <= a < index ==> cells[sorted[a]].sequence > cells[current].sequence
    {
      order[position] := order[position - 1];
      position := position - 1;
    }
  }

  /** Where shifting stops, everything before is strictly lower. */
  lemma BelowPlace(cells: seq<Frame>, sorted: seq<nat>, p: nat, x: nat)
    requires Distinct(cells) && Ascending(cells, sorted) && p <= |sorted|
    requires x < |cells| && cells[x].used && x !in sorted
    requires p > 0 ==> cells[sorted[p - 1]].sequence <= cells[x].sequence
    ensures forall a :: 0 <= a < p ==> cells[sorted[a]].sequence < cells[x].sequence
  {
    if p > 0 {
      assert sorted[p - 1] != x;
    }
  }

  /** Bounded insertion sort of cell indices by sequence. */
  method SortBySequence(cells: seq<Frame>, order: array<nat>, count: nat)
    requires Distinct(cells) && count <= order.Length
    requires forall a :: 0 <= a < count ==> order[a] < |cells| && cells[order[a]].used
    requires forall a, b :: 0 <= a < b < count ==> order[a] != order[b]
    modifies order
    ensures Ascending(cells, order[..count])
    ensures SameMembers(order[..count], old(order[..count]))
  {
    ghost var start := order[..];
    var index := 0;
    while index < count
      invariant index <= count
      invariant Ascending(cells, order[..index])
      invariant SameMembers(order[..index], start[..index])
      invariant order[index..] == start[index..]
    {
      assert order[index] == start[index];
      assert order[..index + 1] == order[..index] + [start[index]];
      assert start[..index + 1] == start[..index] + [start[index]];
      ghost var tail := order[index..];
      ShiftIntoPlace(cells, order, index);
      assert order[index + 1..] == tail[1..];
      index := index + 1;
    }
  }

  /** Cell j is used by a frame of generation g. */
  predicate Holds(cells: seq<Frame>, g: u32, j: nat) {
    j < |cells| && cells[j].used && cells[j].held.generation == g
  }

  /** `order` lists, by ascending sequence, the cells of generation g; everything else stashed is newer. */
  ghost predicate Pending(cells: seq<Frame>, stash: map<u32, Stashed>, g: u32, order: seq<nat>) {
    && Agrees(cells, stash) && Ascending(cells, order)
    && (forall q :: q in stash ==> stash[q].generation >= g)
    && forall j: nat {:trigger j in order} :: j in order <==> Holds(cells, g, j)
  }

  /** Sorting the cells of generation g gives their pending order. */
  lemma SortedIsPending(cells: seq<Frame>, stash: map<u32, Stashed>, g: u32, found: seq<nat>, sorted: seq<nat>)
    requires Agrees(cells, stash) && forall q :: q in stash ==> stash[q].generation >= g
    requires Lists(cells, g, |cells|, found)
    requires Ascending(cells, sorted) && SameMembers(sorted, found)
    ensures Pending(cells, stash, g, sorted)
  {
    forall j: nat
      ensures j in sorted <==> Holds(cells, g, j)
    {
      assert j in sorted <==> j in found;
    }
  }

  lemma OfGenerationWithout(stash: map<u32, Stashed>, g: u32, q: u32)
    ensures OfGeneration(stash - {q}, g) == OfGeneration(stash, g) - {q}
  {
  }

  /** The first index of the order names the lowest sequence of generation g. */
  lemma FirstIsLeast(cells: seq<Frame>, stash: map<u32, Stashed>, g: u32, order: seq<nat>)
    requires Pending(cells, stash, g, order) && order != []
    ensures var f := cells[order[0]];
            && f.sequence in stash && stash[f.sequence] == f.held
            && f.sequence in OfGeneration(stash, g) && f.sequence == Least(OfGeneration(stash, g).Keys)
            && OfGeneration(stash - {f.sequence}, g) == OfGeneration(stash, g) - {f.sequence}
  {
    var q := cells[order[0]].sequence;
    assert order[0] in order;
    assert q in OfGeneration(stash, g).Keys;
    OfGenerationWithout(stash, g, q);
    forall x | x in OfGeneration(stash, g)
      ensures q <= x
    {
      assert HasCell(cells, x);
      var j: nat :| j < |cells| && cells[j].used && cells[j].sequence == x;
      assert j in order;
      var a :| 0 <= a < |order| && order[a] == j;
      assert a == 0 || cells[order[0]].sequence < cells[order[a]].sequence;
    }
  }

  lemma NonePending(cells: seq<Frame>, stash: map<u32, Stashed>, g: u32)
    requires Pending(cells, stash, g, [])
    ensures OfGeneration(stash, g) == map[] && AboveGeneration(stash, g) == stash
  {
    forall x | x in stash
      ensures stash[x].generation > g
    {
      assert HasCell(cells, x);
      var j: nat :| j < |cells| && cells[j].used && cells[j].sequence == x;
      var none: seq<nat> := [];
      assert j !in none;
    }
  }

  lemma RestUntouched(cells: seq<Frame>, order: seq<nat>)
    requires Ascending(cells, order) && order != []
    ensures var after := cells[order[0] := CLEAR];
            Ascending(after, order[1..]) && forall a :: 0 <= a < |order| - 1 ==> after[order[1..][a]] == cells[order[a + 1]]
  {
    var after := cells[order[0] := CLEAR];
    forall a | 1 <= a < |order|
      ensures after[order[a]] == cells[order[a]]
    {
      assert cells[order[0]].sequence < cells[order[a]].sequence;
    }
  }

  /** Indices of a strictly ascending order are distinct, so the rest has every other one. */
  lemma InRest(cells: seq<Frame>, order: seq<nat>, j: nat)
    requires Ascending(cells, order) && order != []
    ensures j in order[1..] <==> j in order && j != order[0]
  {
    var rest := order[1..];
    if j in rest {
      var a :| 0 <= a < |rest| && rest[a] == j;
      assert order[a + 1] == j && cells[order[0]].sequence < cells[order[a + 1]].sequence;
    }
  }

  lemma PendingRest(cells: seq<Frame>, stash: map<u32, Stashed>, g: u32, order: seq<nat>)
    requires Pending(cells, stash, g, order) && order != []
    ensures Pending(cells[order[0] := CLEAR], stash - {cells[order[0]].sequence}, g, order[1..])
  {
    AgreesClear(cells, stash, order[0], CLEAR);
    RestUntouched(cells, order);
    var after, rest := cells[order[0] := CLEAR], order[1..];
    forall j: nat
      ensures j in rest <==> Holds(after, g, j)
    {
      InRest(cells, order, j);
      assert j in order <==> Holds(cells, g, j);
    }
  }

  lemma AboveRest(stash: map<u32, Stashed>, g: u32, q: u32)
    requires q in stash && stash[q].generation == g
    ensures AboveGeneration(stash - {q}, g) == AboveGeneration(stash, g)
  {
  }

  /** The indices below n of the cells of generation g, each once. */
  ghost predicate Lists(cells: seq<Frame>, g: u32, n: nat, found: seq<nat>) {
    && (forall j: nat {:trigger j in found} :: j in found <==> j < n && Holds(cells, g, j))
    && (forall a, b :: 0 <= a < b < |found| ==> found[a] != found[b])
  }

  lemma ListsMore(cells: seq<Frame>, g: u32, i: nat, found: seq<nat>)
    requires Lists(cells, g, i, found)
    ensures Lists(cells, g, i + 1, if Holds(cells, g, i) then found + [i] else found)
  {
    if Holds(cells, g, i) {
      var more := found + [i];
      forall j: nat
        ensures j in more <==> j < i + 1 && Holds(cells, g, j)
      {
        assert j in more <==> j in found || j == i;
      }
      forall a, b | 0 <= a < b < |more|
        ensures more[a] != more[b]
      {
        assert found[a] in found;
      }
    }
  }

  lemma ListedUsed(cells: seq<Frame>, g: u32, found: seq<nat>)
    requires Lists(cells, g, |cells|, found)
    ensures forall a :: 0 <= a < |found| ==> found[a] < |cells| && cells[found[a]].used
  {
    forall a | 0 <= a < |found|
      ensures found[a] < |cells| && cells[found[a]].used
    {
      assert found[a] in found;
    }
  }

  class FutureFrames {
    const cells: array<Frame>
    ghost var stash: map<u32, Stashed>

    ghost predicate Valid()
      reads this, cells
    {
      cells.Length == FUTURE_FRAMES && Agrees(cells[..], stash)
    }

    constructor ()
      ensures Valid() && fresh(cells) && stash == map[]
    {
      cells := new Frame[FUTURE_FRAMES](_ => CLEAR);
      stash := map[];
    }

    method ClearAll()
      requires Valid()
      modifies this, cells
      ensures Valid() && stash == map[]
    {
      for i := 0 to cells.Length
        invariant forall j :: 0 <= j < i ==> !cells[j].used
      {
        cells[i] := CLEAR;
      }
      stash := map[];
    }

    /** Empty one used cell. */
    method Clear(i: nat)
      requires Valid() && i < cells.Length && cells[i].used
      modifies this, cells
      ensures Valid() && stash == old(stash) - {old(cells[i].sequence)}
      ensures cells[..] == old(cells[..])[i := CLEAR]
    {
      AgreesClear(cells[..], stash, i, CLEAR);
      ghost var before := cells[..];
      cells[i] := CLEAR;
      assert cells[..] == before[i := CLEAR];
      stash := stash - {before[i].sequence};
    }

    method Fill(i: nat, c: Frame)
      requires Valid() && i < cells.Length && c.used && !cells[i].used && c.sequence !in stash
      modifies this, cells
      ensures Valid() && stash == old(stash)[c.sequence := c.held]
    {
      AgreesTake(cells[..], stash, i, c);
      ghost var before := cells[..];
      cells[i] := c;
      assert cells[..] == before[i := c];
      stash := stash[c.sequence := c.held];
    }

    /** Drop every frame of an older generation. */
    method ClearBelow(g: u32)
      requires Valid()
      modifies this, cells
      ensures Valid() && stash == FromGeneration(old(stash), g)
    {
      for i := 0 to cells.Length
        invariant Valid()
        invariant forall q :: q in stash ==> q in old(stash) && stash[q] == old(stash)[q]
        invariant forall q :: q in old(stash) && old(stash)[q].generation >= g ==> q in stash
        invariant forall j :: 0 <= j < i && cells[j].used ==> cells[j].held.generation >= g
      {
        if cells[i].used && cells[i].held.generation < g {
          Clear(i);
        }
      }
      forall q | q in stash
        ensures stash[q].generation >= g
      {
        assert HasCell(cells[..], q);
      }
    }

    /** The scan of one arriving frame: its own cell, a free cell, and the oldest frame of its generation. */
    method Scan(sequence: u32, generation: u32) returns (present: bool, free: int, oldest: int)
      requires Valid()
      ensures -1 <= free < cells.Length && -1 <= oldest < cells.Length
      ensures present == (sequence in stash)
      ensures !present ==> (free >= 0) == (|stash| < FUTURE_FRAMES)
      ensures free >= 0 ==> !cells[free].used
      ensures !present ==> (oldest < 0) == (OfGeneration(stash, generation).Keys == {})
      ensures !present && oldest >= 0 ==>
                cells[oldest].used && cells[oldest].sequence == Least(OfGeneration(stash, generation).Keys)
    {
      present, free, oldest := ScanCells(sequence, generation);
      if present {
        assert sequence in stash;
      } else {
        FullIff(cells[..], stash);
        assert !HasCell(cells[..], sequence);
        OldestIsLeast(generation, oldest);
      }
    }

    method ScanCells(sequence: u32, generation: u32) returns (present: bool, free: int, oldest: int)
      ensures -1 <= free < cells.Length && -1 <= oldest < cells.Length
      ensures present ==> exists j :: 0 <= j < cells.Length && cells[j].used && cells[j].sequence == sequence
      ensures !present ==> forall j :: 0 <= j < cells.Length && cells[j].used ==> cells[j].sequence != sequence
      ensures free >= 0 ==> !cells[free].used
      ensures !present && free < 0 ==> forall j :: 0 <= j < cells.Length ==> cells[j].used
      ensures !present && oldest < 0 ==> forall j :: 0 <= j < cells.Length && cells[j].used ==> cells[j].held.generation != generation
      ensures oldest >= 0 ==> cells[oldest].used && cells[oldest].held.generation == generation
      ensures !present && oldest >= 0 ==>
                forall j :: 0 <= j < cells.Length && cells[j].used && cells[j].held.generation == generation ==>
                              cells[oldest].sequence <= cells[j].sequence
    {
      present, free, oldest := false, -1, -1;
      for i := 0 to cells.Length
        invariant -1 <= free < i && -1 <= oldest < i && !present
        invariant forall j :: 0 <= j < i && cells[j].used ==> cells[j].sequence != sequence
        invariant free >= 0 ==> !cells[free].used
        invariant free < 0 ==> forall j :: 0 <= j < i ==> cells[j].used
        invariant oldest < 0 ==> forall j :: 0 <= j < i && cells[j].used ==> cells[j].held.generation != generation
        invariant oldest >= 0 ==> cells[oldest].used && cells[oldest].held.generation == generation
        invariant oldest >= 0 ==> forall j :: 0 <= j < i && cells[j].used && cells[j].held.generation == generation ==>
                                                cells[oldest].sequence <= cells[j].sequence
      {
        if cells[i].used && cells[i].sequence == sequence {
          return true, free, oldest;
        }
        if !cells[i].used && free < 0 {
          free := i;
        }
        if cells[i].used && cells[i].held.generation == generation
           && (oldest < 0 || cells[i].sequence < cells[oldest].sequence) {
          oldest := i;
        }
      }
    }

    lemma OldestIsLeast(generation: u32, oldest: int)
      requires Valid() && -1 <= oldest < cells.Length
      requires oldest < 0 ==> forall j :: 0 <= j < cells.Length && cells[j].used ==> cells[j].held.generation != generation
      requires oldest >= 0 ==> cells[oldest].used && cells[oldest].held.generation == generation
      requires oldest >= 0 ==>
        forall j :: 0 <= j < cells.Length && cells[j].used && cells[j].held.generation == generation ==>
                      cells[oldest].sequence <= cells[j].sequence
      ensures (oldest < 0) == (OfGeneration(stash, generation).Keys == {})
      ensures oldest >= 0 ==> cells[oldest].sequence == Least(OfGeneration(stash, generation).Keys)
    {
      forall q | q in OfGeneration(stash, generation)
        ensures oldest >= 0 && cells[oldest].sequence <= q
      {
        assert HasCell(cells[..], q);
      }
      if oldest >= 0 {
        assert cells[oldest].sequence in OfGeneration(stash, generation).Keys;
      }
    }

    method Buffer(sequence: u32, f: Stashed, st: Stats) returns (kept: bool, st': Stats)
      requires Valid()
      modifies this, cells
      ensures Valid()
      ensures Buffered(stash, st', kept) == BufferFuture(old(stash), st, sequence, f)
    {
      st' := st;
      var present, free, oldest := Scan(sequence, f.generation);
      if present {
        return true, st';
      }
      if free < 0 {
        st' := st'.(queueDropped := Wrap32(st'.queueDropped + 1));
        if oldest < 0 || sequence <= cells[oldest].sequence {
          return false, st';
        }
        Clear(oldest);
        free := oldest;
      }
      Fill(free, Cell(true, sequence, f));
      kept := true;
    }

    /** List the cells of generation g. */
    method Gather(g: u32, order: array<nat>) returns (count: nat)
      requires Valid() && order.Length == FUTURE_FRAMES
      modifies order
      ensures Valid() && cells[..] == old(cells[..]) && count <= order.Length
      ensures Lists(cells[..], g, cells.Length, order[..count])
    {
      count := 0;
      ghost var all, found := cells[..], [];
      for i := 0 to cells.Length
        invariant cells[..] == all && count <= i && order[..count] == found
        invariant Lists(all, g, i, found)
      {
        ListsMore(all, g, i, found);
        if cells[i].used && cells[i].held.generation == g {
          order[count] := i;
          count := count + 1;
          assert order[..count] == found + [i];
          found := found + [i];
        }
      }
    }

    /** Take the first frame of the order out of the stash and hand it to the jitter buffer. */
    method HandOver(g: u32, ghost order: seq<nat>, at: nat, jitter: JitterSlots.JitterBuffer, st: Stats) returns (st': Stats)
      requires Valid() && order != [] && at == order[0] && Pending(cells[..], stash, g, order)
      requires jitter.Valid() && {this as object, cells} !! {jitter as object, jitter.slots}
      modifies this, cells, jitter, jitter.slots
      ensures Valid() && Pending(cells[..], stash, g, order[1..]) && jitter.Valid()
      ensures InsertAscending(jitter.model, st', OfGeneration(stash, g)) ==
              InsertAscending(old(jitter.model), st, old(OfGeneration(stash, g)))
      ensures AboveGeneration(stash, g) == AboveGeneration(old(stash), g)
    {
      FirstIsLeast(cells[..], stash, g, order);
      PendingRest(cells[..], stash, g, order);
      var f := cells[at];
      AboveRest(stash, g, f.sequence);
      assert OfGeneration(stash, g) != map[];
      var result;
      result, st' := jitter.InsertAudio(f.sequence, f.held.timestamp, f.held.generation, f.held.payload, f.held.arrived, st);
      Clear(at);
    }

    /** Drop older frames and list those of generation g by ascending sequence. */
    method Collect(g: u32) returns (order: array<nat>, count: nat)
      requires Valid()
      modifies this, cells
      ensures Valid() && fresh(order) && count <= order.Length
      ensures stash == FromGeneration(old(stash), g)
      ensures Pending(cells[..], stash, g, order[..count])
    {
      ClearBelow(g);
      order := new nat[FUTURE_FRAMES](_ => 0);
      count := Gather(g, order);
      ghost var found := order[..count];
      ListedUsed(cells[..], g, found);
      assert forall a :: 0 <= a < count ==> order[a] == found[a];
      SortBySequence(cells[..], order, count);
      SortedIsPending(cells[..], stash, g, found, order[..count]);
    }

    method HandOverAll(g: u32, order: array<nat>, count: nat, jitter: JitterSlots.JitterBuffer, st: Stats) returns (st': Stats)
      requires Valid() && jitter.Valid() && {this as object, cells} !! {jitter as object, jitter.slots}
      requires order as object !in {this as object, cells, jitter, jitter.slots}
      requires count <= order.Length && Pending(cells[..], stash, g, order[..count])
      modifies this, cells, jitter, jitter.slots
      ensures Valid() && jitter.Valid()
      ensures stash == AboveGeneration(old(stash), g)
      ensures (jitter.model, st') == InsertAscending(old(jitter.model), st, OfGeneration(old(stash), g))
    {
      st' := st;
      ghost var all := order[..count];
      var index := 0;
      while index < count
        invariant index <= count && order[..count] == all
        invariant Valid() && Pending(cells[..], stash, g, all[index..]) && jitter.Valid()
        invariant InsertAscending(jitter.model, st', OfGeneration(stash, g)) ==
                  InsertAscending(old(jitter.model), st, OfGeneration(old(stash), g))
        invariant AboveGeneration(stash, g) == AboveGeneration(old(stash), g)
      {
        assert order[index] == all[index];
        assert all[index..][0] == all[index] && all[index..][1..] == all[index + 1..];
        st' := HandOver(g, all[index..], order[index], jitter, st');
        index := index + 1;
      }
      assert all[count..] == [];
      NonePending(cells[..], stash, g);
    }

    method Release(g: u32, jitter: JitterSlots.JitterBuffer, st: Stats) returns (st': Stats)
      requires Valid() && jitter.Valid() && {this as object, cells} !! {jitter as object, jitter.slots}
      modifies this, cells, jitter, jitter.slots
      ensures Valid() && jitter.Valid()
      ensures stash == AboveGeneration(old(stash), g)
      ensures (jitter.model, st') == InsertAscending(old(jitter.model), st, OfGeneration(old(stash), g))
    {
      var order, count := Collect(g);
      assert OfGeneration(stash, g) == OfGeneration(old(stash), g);
      assert AboveGeneration(stash, g) == AboveGeneration(old(stash), g);
      st' := HandOverAll(g, order, count, jitter, st);
    }
  }
}
