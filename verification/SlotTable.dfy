/**
 Small fixed tables of slots: each cell is unused or holds one packet under its sequence.
 A table agrees with the map it stores; filling and clearing cells are map updates.
 */
module SlotTable {
  import opened Machine

  datatype Cell<T> = Cell(used: bool, sequence: u32, held: T)

  /** Used cells have pairwise distinct sequences. */
  ghost predicate Distinct<T>(cells: seq<Cell<T>>) {
    forall i, j :: 0 <= i < j < |cells| && cells[i].used && cells[j].used ==> cells[i].sequence != cells[j].sequence
  }

  ghost predicate HasCell<T>(cells: seq<Cell<T>>, s: u32) {
    exists i :: 0 <= i < |cells| && cells[i].used && cells[i].sequence == s
  }

  /** The used cells are exactly the packets of the abstract buffer. */
  ghost predicate Agrees<T>(cells: seq<Cell<T>>, m: map<u32, T>) {
    && Distinct(cells)
    && (forall i :: 0 <= i < |cells| && cells[i].used ==> cells[i].sequence in m && m[cells[i].sequence] == cells[i].held)
    && (forall s :: s in m ==> HasCell(cells, s))
  }

  lemma AgreesTake<T>(cells: seq<Cell<T>>, m: map<u32, T>, i: nat, c: Cell<T>)
    requires Agrees(cells, m) && i < |cells| && c.used
    requires if cells[i].used then cells[i].sequence == c.sequence else c.sequence !in m
    ensures Agrees(cells[i := c], m[c.sequence := c.held])
  {
    var after := cells[i := c];
    assert after[i] == c;
    forall s | s in m && s != c.sequence
      ensures HasCell(after, s)
    {
      var j :| 0 <= j < |cells| && cells[j].used && cells[j].sequence == s;
      assert after[j] == cells[j];
    }
  }

  lemma AgreesClear<T>(cells: seq<Cell<T>>, m: map<u32, T>, i: nat, clear: Cell<T>)
    requires Agrees(cells, m) && i < |cells| && cells[i].used && !clear.used
    ensures Agrees(cells[i := clear], m - {cells[i].sequence})
  {
    var after := cells[i := clear];
    forall s | s in m && s != cells[i].sequence
      ensures HasCell(after, s)
    {
      var j :| 0 <= j < |cells| && cells[j].used && cells[j].sequence == s;
      assert after[j] == cells[j];
    }
  }

  ghost function UsedSequences<T>(cells: seq<Cell<T>>): set<u32> {
    set i | 0 <= i < |cells| && cells[i].used :: cells[i].sequence
  }

  lemma {:induction false} UsedCount<T>(cells: seq<Cell<T>>)
    requires Distinct(cells)
    ensures |UsedSequences(cells)| <= |cells|
    ensures |UsedSequences(cells)| == |cells| <==> forall i :: 0 <= i < |cells| ==> cells[i].used
  {
    if cells != [] {
      var n := |cells| - 1;
      var init := cells[..n];
      UsedCount(init);
      if cells[n].used {
        assert UsedSequences(cells) == UsedSequences(init) + {cells[n].sequence};
        assert cells[n].sequence !in UsedSequences(init);
      } else {
        assert UsedSequences(cells) == UsedSequences(init);
      }
      assert (forall i :: 0 <= i < |cells| ==> cells[i].used) <==>
             cells[n].used && forall i :: 0 <= i < |init| ==> init[i].used;
    }
  }

  /** The array is full exactly when the abstract buffer holds as many packets as there are cells. */
  lemma FullIff<T>(cells: seq<Cell<T>>, m: map<u32, T>)
    requires Agrees(cells, m)
    ensures |m| >= |cells| <==> forall i :: 0 <= i < |cells| ==> cells[i].used
  {
    UsedCount(cells);
    forall s | s in m.Keys
      ensures s in UsedSequences(cells)
    {
      assert HasCell(cells, s);
    }
    assert m.Keys == UsedSequences(cells);
  }
}
