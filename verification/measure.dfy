/**
  The `Measure` class of MusicManager.cs: the grid rows of one measure block
  are packed four at a time into grids, its timing codes give the timing
  dictionary, and `Convert` turns every grid into notes, filed per cell in
  start-time order, before handing them to the chart in dictionary order.
*/
module Measure {
  import opened Wrappers
  import opened Notes
  import opened Buckets
  import opened Timing
  import opened Grid

  // ---------------------------------------------------------------------
  // AddNotePositionText
  // ---------------------------------------------------------------------

  /** The rows of all groups, in order. */
  function Concat(groups: seq<seq<string>>): seq<string> {
    if |groups| == 0 then [] else Concat(groups[..|groups| - 1]) + groups[|groups| - 1]
  }

  /** Every group but the last is full; the last holds at most four rows. */
  predicate Packed(groups: seq<seq<string>>) {
    && |groups| >= 1
    && (forall i :: 0 <= i < |groups| - 1 ==> |groups[i]| == 4)
    && |groups[|groups| - 1]| <= 4
  }

  /** `AddNotePositionText`: the row joins the last group, or opens a new
      group when the last one is full. */
  function AddPositionText(groups: seq<seq<string>>, text: string): (r: seq<seq<string>>)
    requires Packed(groups)
    ensures Packed(r) && |r[|r| - 1]| >= 1
    ensures Concat(r) == Concat(groups) + [text]
    ensures |r[|r| - 1]| == if |groups[|groups| - 1]| == 4 then 1 else |groups[|groups| - 1]| + 1
  {
    var last := groups[|groups| - 1];
    if |last| == 4 then
      assert (groups + [[text]])[..|groups|] == groups;
      groups + [[text]]
    else
      var r := groups[..|groups| - 1] + [last + [text]];
      assert r[..|r| - 1] == groups[..|groups| - 1];
      assert groups == groups[..|groups| - 1] + [last];
      r
  }

  /** One more row, `len` rows after `len - 1`: a last group of `prev`
      rows becomes one of `next`, which is again the remainder. */
  lemma NextRemainder(before: int, len: int, prev: int, next: int)
    requires before >= 0 && len == before + 1
    requires before == 0 ==> prev == 0
    requires before > 0 ==> prev == (before - 1) % 4 + 1
    requires next == if prev == 4 then 1 else prev + 1
    ensures next == (len - 1) % 4 + 1
  {
  }

  lemma LastGroupFull(n: int)
    requires n >= 1
    ensures (n - 1) % 4 + 1 == 4 <==> n % 4 == 0
  {
  }

  /** `NotePositions` after the rows of a block were added to `{ new() }`:
      the rows in groups of four, the last group holding the remainder. */
  function Positions(rows: seq<string>): (r: seq<seq<string>>)
    ensures Packed(r) && Concat(r) == rows
    ensures |rows| == 0 ==> r == [[]]
    ensures |rows| > 0 ==> |r[|r| - 1]| == (|rows| - 1) % 4 + 1
  {
    if |rows| == 0 then [[]]
    else
      var p := Positions(rows[..|rows| - 1]);
      PositionsStep(rows, p);
      RemainderStep(rows, p);
      AddPositionText(p, rows[|rows| - 1])
  }

  /** Packing the last row after the others keeps the groups packed and
      in row order. */
  lemma PositionsStep(rows: seq<string>, p: seq<seq<string>>)
    requires |rows| > 0
    requires Packed(p) && Concat(p) == rows[..|rows| - 1]
    ensures Packed(AddPositionText(p, rows[|rows| - 1]))
    ensures Concat(AddPositionText(p, rows[|rows| - 1])) == rows
  {
    assert rows == rows[..|rows| - 1] + [rows[|rows| - 1]];
  }

  /** ... and leaves the remainder of the longer block in the last group. */
  lemma RemainderStep(rows: seq<string>, p: seq<seq<string>>)
    requires |rows| > 0 && Packed(p)
    requires |rows[..|rows| - 1]| == 0 ==> p == [[]]
    requires |rows[..|rows| - 1]| > 0 ==> |p[|p| - 1]| == (|rows[..|rows| - 1]| - 1) % 4 + 1
    ensures |AddPositionText(p, rows[|rows| - 1])[|AddPositionText(p, rows[|rows| - 1])| - 1]| == (|rows| - 1) % 4 + 1
  {
    var r := AddPositionText(p, rows[|rows| - 1]);
    NextRemainder(|rows[..|rows| - 1]|, |rows|, |p[|p| - 1]|, |r[|r| - 1]|);
  }

  /** Every group is a whole grid of four rows. */
  predicate AllFull(groups: seq<seq<string>>) {
    forall i :: 0 <= i < |groups| ==> |groups[i]| == 4
  }

  /** The grids are all whole exactly when the block has a non-zero
      multiple of four rows; otherwise `Convert` indexes past the end of
      the last group. */
  lemma FullGrids(rows: seq<string>)
    ensures AllFull(Positions(rows)) <==> |rows| > 0 && |rows| % 4 == 0
  {
    var r := Positions(rows);
    if |rows| > 0 {
      LastGroupFull(|rows|);
      assert AllFull(r) <==> |r[|r| - 1]| == 4;
    } else {
      assert |r[0]| == 0;
    }
  }

  // ---------------------------------------------------------------------
  // AddNote: the per-cell lists of the measure
  // ---------------------------------------------------------------------

  /** Every list of the dictionary is in start-time order. */
  predicate ListsSorted(b: Buckets) {
    forall k :: k in b.lists ==> SortedByStart(b.lists[k])
  }

  /** `Measure.AddNote` on a cell that already has a list. */
  function InsertIntoCell(b: Buckets, n: Note): (r: Buckets)
    requires Valid(b) && Cell(n) in b.lists
    ensures Valid(r) && r.keys == b.keys
    ensures multiset(Flatten(r)) == multiset(Flatten(b)) + multiset{n}
    ensures ListsSorted(b) ==> ListsSorted(r)
  {
    var k := Cell(n);
    var l := InsertByStart(b.lists[k], n);
    InsertKeepsCell(b.lists[k], n);
    ReplaceValid(b, k, l);
    FlattenGrow(b.keys, b.lists, k, l, n);
    InsertKeepsSorted(b.lists[k], n);
    Buckets(b.keys, b.lists[k := l])
  }

  /** `Measure.AddNote` on a cell seen for the first time. */
  function OpenCell(b: Buckets, n: Note): (r: Buckets)
    requires Valid(b) && Cell(n) !in b.lists
    ensures Valid(r) && r.keys == b.keys + [Cell(n)]
    ensures r.lists == b.lists[Cell(n) := [n]]
    ensures Flatten(r) == Flatten(b) + [n]
    ensures ListsSorted(b) ==> ListsSorted(r)
  {
    OpenCellValid(b, n);
    FlattenNewKey(b, Cell(n), [n]);
    OpenCellSorted(b, n);
    Buckets(b.keys + [Cell(n)], b.lists[Cell(n) := [n]])
  }

  /** A one-note list is in order, so opening a cell keeps every list in
      order. */
  lemma OpenCellSorted(b: Buckets, n: Note)
    ensures ListsSorted(b) ==> ListsSorted(Buckets(b.keys + [Cell(n)], b.lists[Cell(n) := [n]]))
  {
  }

  /** A new key, last in the order, with the one-note list of its cell. */
  lemma OpenCellValid(b: Buckets, n: Note)
    requires Valid(b) && Cell(n) !in b.lists
    ensures Valid(Buckets(b.keys + [Cell(n)], b.lists[Cell(n) := [n]]))
  {
    var keys := b.keys + [Cell(n)];
    forall i, j | 0 <= i < j < |keys|
      ensures keys[i] != keys[j]
    {
      if j < |b.keys| {
        assert keys[i] == b.keys[i] && keys[j] == b.keys[j];
      } else {
        assert keys[i] == b.keys[i] && b.keys[i] in b.lists;
      }
    }
  }

  /** `Measure.AddNote`: the note goes into the list of its cell, after the
      notes that start no later; a new cell's list is appended to the
      dictionary's key order. */
  function AddToMap(b: Buckets, n: Note): (r: Buckets)
    requires Valid(b)
    ensures Valid(r)
    ensures multiset(Flatten(r)) == multiset(Flatten(b)) + multiset{n}
    ensures ListsSorted(b) ==> ListsSorted(r)
    ensures r.keys == if Cell(n) in b.lists then b.keys else b.keys + [Cell(n)]
  {
    if Cell(n) in b.lists then InsertIntoCell(b, n) else OpenCell(b, n)
  }

  /** `AddNote` applied to the notes in order. */
  function AddAll(b: Buckets, notes: seq<Note>): (r: Buckets)
    requires Valid(b)
    ensures Valid(r)
    ensures multiset(Flatten(r)) == multiset(Flatten(b)) + multiset(notes)
    ensures ListsSorted(b) ==> ListsSorted(r)
  {
    if |notes| == 0 then b
    else
      MultisetSnoc(notes);
      AddToMap(AddAll(b, notes[..|notes| - 1]), notes[|notes| - 1])
  }

  lemma MultisetSnoc<T>(s: seq<T>)
    requires |s| > 0
    ensures multiset(s) == multiset(s[..|s| - 1]) + multiset{s[|s| - 1]}
  {
    assert s == s[..|s| - 1] + [s[|s| - 1]];
  }

  /** Notes of the same cell appear in start-time order. */
  predicate CellOrdered(notes: seq<Note>) {
    forall i, j :: 0 <= i < j < |notes| && Cell(notes[i]) == Cell(notes[j]) ==>
      notes[i].startTime <= notes[j].startTime
  }

  /** Each note of the concatenation is filed under one of the keys. */
  lemma {:induction false} FlattenCells(keys: seq<int>, lists: map<int, seq<Note>>)
    requires forall i :: 0 <= i < |keys| ==> keys[i] in lists
    requires forall k, i :: k in lists && 0 <= i < |lists[k]| ==> Cell(lists[k][i]) == k
    ensures forall i :: 0 <= i < |FlattenKeys(keys, lists)| ==> Cell(FlattenKeys(keys, lists)[i]) in keys
    decreases |keys|
  {
    if |keys| > 0 {
      var front := keys[..|keys| - 1];
      var last := keys[|keys| - 1];
      FlattenCells(front, lists);
      var f := FlattenKeys(front, lists);
      assert FlattenKeys(keys, lists) == f + lists[last];
      forall i | 0 <= i < |f + lists[last]|
        ensures Cell((f + lists[last])[i]) in keys
      {
        if i < |f| {
          assert Cell(f[i]) in front;
        } else {
          assert (f + lists[last])[i] == lists[last][i - |f|];
        }
      }
    }
  }

  /** Concatenating sorted per-cell lists keeps every cell in order. */
  lemma {:induction false} FlattenCellOrdered(keys: seq<int>, lists: map<int, seq<Note>>)
    requires forall i :: 0 <= i < |keys| ==> keys[i] in lists
    requires forall i, j :: 0 <= i < j < |keys| ==> keys[i] != keys[j]
    requires forall k, i :: k in lists && 0 <= i < |lists[k]| ==> Cell(lists[k][i]) == k
    requires forall k :: k in lists ==> SortedByStart(lists[k])
    ensures CellOrdered(FlattenKeys(keys, lists))
    decreases |keys|
  {
    if |keys| > 0 {
      var front := keys[..|keys| - 1];
      var last := keys[|keys| - 1];
      FlattenCellOrdered(front, lists);
      FlattenCells(front, lists);
      var f := FlattenKeys(front, lists);
      var l := lists[last];
      var s := f + l;
      assert FlattenKeys(keys, lists) == s;
      assert last !in front by {
        forall i | 0 <= i < |front|
          ensures front[i] != last
        {
          assert keys[i] != keys[|keys| - 1];
        }
      }
      forall i, j | 0 <= i < j < |s|
        ensures Cell(s[i]) == Cell(s[j]) ==> s[i].startTime <= s[j].startTime
      {
        if j < |f| {
          assert s[i] == f[i] && s[j] == f[j];
        } else if i < |f| {
          assert s[i] == f[i] && s[j] == l[j - |f|];
          assert Cell(f[i]) in front;
          assert Cell(s[i]) != Cell(s[j]);
        } else {
          assert s[i] == l[i - |f|] && s[j] == l[j - |f|];
        }
      }
    }
  }

  // ---------------------------------------------------------------------
  // Convert
  // ---------------------------------------------------------------------

  /** The notes of the grids, grid after grid. */
  function AllGridNotes(groups: seq<seq<string>>, times: map<char, real>, mi: int): seq<Note>
    requires forall i :: 0 <= i < |groups| ==> GridShape(groups[i])
  {
    if |groups| == 0 then []
    else AllGridNotes(groups[..|groups| - 1], times, mi) + GridNotes(groups[|groups| - 1], times, mi)
  }

  /** What `Convert` leaves behind: the notes it hands to the chart, in
      order, and the start of the next measure. */
  datatype Converted = Converted(notes: seq<Note>, next: real)

  /** Every row of the block is four glyphs wide. */
  predicate RowsWide(rows: seq<string>) {
    forall r :: 0 <= r < |rows| ==> |rows[r]| == 4
  }

  /** `Measure.Convert` with the chart's tempo list `bpms` and the offset
      `start` the measure begins at. It fails, as the source throws, when
      no tempo was set yet or when a grid has fewer than four rows. */
  function Convert(bpms: seq<real>, start: real, mi: int, rows: seq<string>, timings: seq<string>)
    : (r: Option<Converted>)
    requires forall i :: 0 <= i < |bpms| ==> bpms[i] > 0.0
    requires RowsWide(rows)
    ensures r.None? <==> |bpms| == 0 || |rows| == 0 || |rows| % 4 != 0
    ensures r.Some? ==> r.value.next == start + Elapsed(bpms[|bpms| - 1], timings)
    ensures r.Some? ==> CellOrdered(r.value.notes)
  {
    FullGrids(rows);
    if |bpms| == 0 then None
    else
      var bpm := bpms[|bpms| - 1];
      var clock := TimingMap(bpm, start, timings);
      var groups := Positions(rows);
      if !AllFull(groups) then None
      else
        assert forall i :: 0 <= i < |groups| ==> GridShape(groups[i]) by {
          GroupsAreGrids(rows);
        }
        var b := AddAll(Empty, AllGridNotes(groups, clock.times, mi));
        FlattenCellOrdered(b.keys, b.lists);
        Some(Converted(Flatten(b), clock.offset))
  }

  /** Rows of four glyphs packed into whole groups make four-by-four grids. */
  lemma GroupsAreGrids(rows: seq<string>)
    requires RowsWide(rows) && AllFull(Positions(rows))
    ensures forall i :: 0 <= i < |Positions(rows)| ==> GridShape(Positions(rows)[i])
  {
    var groups := Positions(rows);
    forall i | 0 <= i < |groups|
      ensures GridShape(groups[i])
    {
      ConcatHolds(groups, i);
    }
  }

  /** Every row of every group is a row of the concatenation. */
  lemma {:induction false} ConcatHolds(groups: seq<seq<string>>, i: nat)
    requires i < |groups|
    ensures forall y :: 0 <= y < |groups[i]| ==> groups[i][y] in Concat(groups)
    decreases |groups|
  {
    var front := groups[..|groups| - 1];
    if i < |groups| - 1 {
      ConcatHolds(front, i);
      assert groups[i] == front[i];
    }
  }

  /** The notes `Convert` produces are those of its grids, reordered. */
  lemma ConvertNotes(bpms: seq<real>, start: real, mi: int, rows: seq<string>, timings: seq<string>)
    requires forall i :: 0 <= i < |bpms| ==> bpms[i] > 0.0
    requires RowsWide(rows) && |bpms| > 0 && |rows| > 0 && |rows| % 4 == 0
    ensures var groups := Positions(rows);
            && (forall i :: 0 <= i < |groups| ==> GridShape(groups[i]))
            && Convert(bpms, start, mi, rows, timings).Some?
            && multiset(Convert(bpms, start, mi, rows, timings).value.notes)
               == multiset(AllGridNotes(groups, TimingMap(bpms[|bpms| - 1], start, timings).times, mi))
  {
    FullGrids(rows);
    GroupsAreGrids(rows);
  }
}
