/**
  The `Note` class of MusicManager.cs as an immutable value: a cell of the
  4x4 grid with a start time, and for a long note a second "bar" cell and a
  finish time. `Clone` is the identity on values, so the copy-making
  transforms `Rotate` and `Random(row, column)` return a new value. Also the
  start-time ordered insertion that `Measure.AddNote` performs and that the
  stable `OrderBy(StartTime)` of `Chart.NoteList` amounts to.
*/
module Notes {
  import opened Int32

  /** A note; `barRow`/`barColumn` are -1 unless the note is long, and
      `finishTime` is 0 until a later note on the same cell closes it. */
  datatype Note = Note(
    measureIndex: int,
    row: int,
    column: int,
    barRow: int,
    barColumn: int,
    startTime: real,
    finishTime: real)

  /** `Note.IsLong`. */
  predicate IsLong(n: Note) {
    n.barRow != -1 && n.barColumn != -1
  }

  /** The first constructor: a plain note. */
  function PlainNote(measureIndex: int, row: int, column: int, startTime: real): (n: Note)
    ensures !IsLong(n) && n.finishTime == 0.0
    ensures n.row == row && n.column == column && n.startTime == startTime
    ensures n.measureIndex == measureIndex
  {
    Note(measureIndex, row, column, -1, -1, startTime, 0.0)
  }

  /** The second constructor: a long note from `(row, column)` whose bar
      stands at `(barRow, barColumn)`, still without a finish time. */
  function LongNote(measureIndex: int, row: int, column: int, barRow: int, barColumn: int,
                    startTime: real): (n: Note)
    ensures IsLong(n) <==> barRow != -1 && barColumn != -1
    ensures n.finishTime == 0.0
    ensures n.row == row && n.column == column && n.startTime == startTime
    ensures n.barRow == barRow && n.barColumn == barColumn && n.measureIndex == measureIndex
  {
    Note(measureIndex, row, column, barRow, barColumn, startTime, 0.0)
  }

  predicate InGrid(row: int, column: int) {
    0 <= row < 4 && 0 <= column < 4
  }

  /** Start cell on the grid; a long note's bar on the grid, a plain note's
      bar fields both -1. */
  predicate ValidNote(n: Note) {
    && InGrid(n.row, n.column)
    && (IsLong(n) ==> InGrid(n.barRow, n.barColumn))
    && (!IsLong(n) ==> n.barRow == -1 && n.barColumn == -1)
  }

  /** The key of the per-cell note lists: `Row * 4 + Column`. */
  function Cell(n: Note): int {
    n.row * 4 + n.column
  }

  // ---------------------------------------------------------------------
  // Rotate
  // ---------------------------------------------------------------------

  /** `degree % 360 / 90`, the selector of `Rotate`'s switch. */
  function QuarterTurns(degree: int): int {
    TruncDiv(TruncRem(degree, 360), 90)
  }

  /** The cell map of one case of `Rotate`'s switch: 90, 180 or 270
      degrees; any other selector leaves the cell alone. */
  function TurnCell(q: int, row: int, column: int): (int, int) {
    if q == 1 then (3 - column, row)
    else if q == 2 then (3 - row, 3 - column)
    else if q == 3 then (column, 3 - row)
    else (row, column)
  }

  /** The selector is the number of whole quarter turns in the angle
      reduced to `[0, 360)`; a negative angle gives a selector of at most 0. */
  lemma QuarterTurnsOf(degree: int)
    ensures degree < 0 ==> QuarterTurns(degree) <= 0
    ensures degree >= 0 ==> QuarterTurns(degree) == degree % 360 / 90
  {
    if degree >= 0 {
      assert TruncRem(degree, 360) == degree % 360;
    }
  }

  /** The case of the switch each range of angles selects. */
  lemma SelectorCases(degree: int)
    ensures degree < 0 || degree % 360 < 90 ==> QuarterTurns(degree) <= 0
    ensures degree >= 0 && 90 <= degree % 360 < 180 ==> QuarterTurns(degree) == 1
    ensures degree >= 0 && 180 <= degree % 360 < 270 ==> QuarterTurns(degree) == 2
    ensures degree >= 0 && 270 <= degree % 360 ==> QuarterTurns(degree) == 3
  {
    QuarterTurnsOf(degree);
  }

  /** `Note.Rotate`: the start cell turned, the bar turned too when the note
      is long; times, measure and length untouched. A negative angle, or one
      whose remainder by 360 is under 90, selects no case of the switch and
      the note comes back unchanged. */
  function Rotate(n: Note, degree: int): (r: Note)
    ensures r.startTime == n.startTime && r.finishTime == n.finishTime
    ensures r.measureIndex == n.measureIndex
    ensures ValidNote(n) ==> ValidNote(r) && (IsLong(r) <==> IsLong(n))
    ensures degree < 0 || degree % 360 < 90 ==> r == n
    ensures degree >= 0 && 90 <= degree % 360 < 180 ==>
              && r.row == 3 - n.column && r.column == n.row
              && (IsLong(n) ==> r.barRow == 3 - n.barColumn && r.barColumn == n.barRow)
    ensures degree >= 0 && 180 <= degree % 360 < 270 ==>
              && r.row == 3 - n.row && r.column == 3 - n.column
              && (IsLong(n) ==> r.barRow == 3 - n.barRow && r.barColumn == 3 - n.barColumn)
    ensures degree >= 0 && 270 <= degree % 360 ==>
              && r.row == n.column && r.column == 3 - n.row
              && (IsLong(n) ==> r.barRow == n.barColumn && r.barColumn == 3 - n.barRow)
    ensures !IsLong(n) ==> r.barRow == n.barRow && r.barColumn == n.barColumn
  {
    SelectorCases(degree);
    var q := QuarterTurns(degree);
    var (row, column) := TurnCell(q, n.row, n.column);
    var (barRow, barColumn) := if IsLong(n) then TurnCell(q, n.barRow, n.barColumn) else (n.barRow, n.barColumn);
    n.(row := row, column := column, barRow := barRow, barColumn := barColumn)
  }

  /** For non-negative angles a full turn more changes nothing. */
  lemma FullTurnPeriodic(n: Note, degree: int)
    requires degree >= 0
    ensures Rotate(n, degree + 360) == Rotate(n, degree)
  {
    assert TruncRem(degree + 360, 360) == TruncRem(degree, 360);
  }

  /** Four quarter turns are the identity on notes of the grid. */
  lemma FourQuarterTurns(n: Note)
    requires ValidNote(n)
    ensures Rotate(Rotate(Rotate(Rotate(n, 90), 90), 90), 90) == n
  {
    assert QuarterTurns(90) == 1;
  }

  /** The half and three-quarter turns are repeated quarter turns. */
  lemma TurnsCompose(n: Note)
    requires ValidNote(n)
    ensures Rotate(Rotate(n, 90), 90) == Rotate(n, 180)
    ensures Rotate(Rotate(Rotate(n, 90), 90), 90) == Rotate(n, 270)
  {
    assert QuarterTurns(90) == 1 && QuarterTurns(180) == 2 && QuarterTurns(270) == 3;
  }

  /** A quarter turn makes a long note along a row into one along a column,
      and the other way round. */
  lemma QuarterTurnSwapsAxis(n: Note)
    requires ValidNote(n) && IsLong(n)
    ensures n.row == n.barRow ==> Rotate(n, 90).column == Rotate(n, 90).barColumn
    ensures n.column == n.barColumn ==> Rotate(n, 90).row == Rotate(n, 90).barRow
  {
    assert QuarterTurns(90) == 1;
  }

  // ---------------------------------------------------------------------
  // Random(row, column)
  // ---------------------------------------------------------------------

  /** A permutation of the four rows (or columns). */
  predicate IsPermutation4(p: seq<int>) {
    && |p| == 4
    && (forall i :: 0 <= i < 4 ==> 0 <= p[i] < 4)
    && (forall i, j :: 0 <= i < j < 4 ==> p[i] != p[j])
  }

  /** `Note.Random(row, column)`: every row index goes through `rows`,
      every column index through `columns`; the bar too when the note is
      long. The tables are indexed, so the indices must be in range. */
  function Remap(n: Note, rows: seq<int>, columns: seq<int>): (r: Note)
    requires 0 <= n.row < |rows| && 0 <= n.column < |columns|
    requires IsLong(n) ==> 0 <= n.barRow < |rows| && 0 <= n.barColumn < |columns|
    ensures r.startTime == n.startTime && r.finishTime == n.finishTime
    ensures r.measureIndex == n.measureIndex
    ensures r.row == rows[n.row] && r.column == columns[n.column]
    ensures IsLong(n) ==> r.barRow == rows[n.barRow] && r.barColumn == columns[n.barColumn]
    ensures !IsLong(n) ==> r.barRow == n.barRow && r.barColumn == n.barColumn
  {
    var r := n.(row := rows[n.row], column := columns[n.column]);
    if IsLong(n) then r.(barRow := rows[n.barRow], barColumn := columns[n.barColumn]) else r
  }

  /** Remapping through two permutations keeps a note on the grid, keeps
      its length, and keeps a long note straight: along a row exactly when
      it was, along a column exactly when it was. */
  lemma RemapKeepsShape(n: Note, rows: seq<int>, columns: seq<int>)
    requires ValidNote(n) && IsPermutation4(rows) && IsPermutation4(columns)
    ensures ValidNote(Remap(n, rows, columns))
    ensures IsLong(Remap(n, rows, columns)) <==> IsLong(n)
    ensures IsLong(n) ==>
              && (Remap(n, rows, columns).row == Remap(n, rows, columns).barRow <==> n.row == n.barRow)
              && (Remap(n, rows, columns).column == Remap(n, rows, columns).barColumn <==> n.column == n.barColumn)
  {
    if IsLong(n) {
      assert n.row != n.barRow ==> rows[n.row] != rows[n.barRow] by {
        if n.row < n.barRow {
          assert rows[n.row] != rows[n.barRow];
        } else if n.barRow < n.row {
          assert rows[n.barRow] != rows[n.row];
        }
      }
      assert n.column != n.barColumn ==> columns[n.column] != columns[n.barColumn] by {
        if n.column < n.barColumn {
          assert columns[n.column] != columns[n.barColumn];
        } else if n.barColumn < n.column {
          assert columns[n.barColumn] != columns[n.column];
        }
      }
    }
  }

  // ---------------------------------------------------------------------
  // Ordering by start time
  // ---------------------------------------------------------------------

  predicate SortedByStart(s: seq<Note>) {
    forall i, j :: 0 <= i < j < |s| ==> s[i].startTime <= s[j].startTime
  }

  /** `FindIndex(note => note.StartTime > t)`, with `|s|` standing for -1:
      the first position holding a strictly later note. */
  function FirstLater(s: seq<Note>, t: real): (i: nat)
    ensures i <= |s|
    ensures forall j :: 0 <= j < i ==> s[j].startTime <= t
    ensures i < |s| ==> s[i].startTime > t
  {
    if |s| == 0 || s[0].startTime > t then 0 else 1 + FirstLater(s[1..], t)
  }

  /** `Measure.AddNote` on one cell's list: the note goes before the first
      strictly later note, or at the end, so it follows the notes with an
      equal start time. */
  function InsertByStart(s: seq<Note>, n: Note): (r: seq<Note>)
    ensures |r| == |s| + 1
    ensures multiset(r) == multiset(s) + multiset{n}
  {
    var i := FirstLater(s, n.startTime);
    assert s == s[..i] + s[i..];
    s[..i] + [n] + s[i..]
  }

  /** Every note placed before the inserted one starts no later than it,
      every note after it starts strictly later. */
  lemma InsertByStartPlace(s: seq<Note>, n: Note)
    ensures var r := InsertByStart(s, n);
            var i := FirstLater(s, n.startTime);
            && r[i] == n
            && (forall j :: 0 <= j < i ==> r[j] == s[j] && r[j].startTime <= n.startTime)
            && (forall j :: i < j < |r| ==> r[j] == s[j - 1])
            && (i < |s| ==> r[i + 1].startTime > n.startTime)
  {
    var i := FirstLater(s, n.startTime);
    SpliceAt(s, n, i);
  }

  /** Where the elements of a sequence go when one is spliced in at `i`. */
  lemma SpliceAt<T>(s: seq<T>, x: T, i: nat)
    requires i <= |s|
    ensures var r := s[..i] + [x] + s[i..];
            && |r| == |s| + 1 && r[i] == x
            && (forall j :: 0 <= j < i ==> r[j] == s[j])
            && (forall j :: i < j < |r| ==> r[j] == s[j - 1])
  {
    var r := s[..i] + [x] + s[i..];
    assert forall j :: 0 <= j < i ==> r[j] == s[..i][j];
    assert forall j :: i < j < |r| ==> r[j] == s[i..][j - i - 1];
  }

  /** Inserting a note of the cell every other note is on keeps the list
      on that cell. */
  lemma InsertKeepsCell(s: seq<Note>, n: Note)
    requires forall i :: 0 <= i < |s| ==> Cell(s[i]) == Cell(n)
    ensures forall i :: 0 <= i < |InsertByStart(s, n)| ==> Cell(InsertByStart(s, n)[i]) == Cell(n)
  {
    InsertByStartPlace(s, n);
  }

  /** Inserting into a start-ordered list keeps it start-ordered. */
  lemma InsertKeepsSorted(s: seq<Note>, n: Note)
    ensures SortedByStart(s) ==> SortedByStart(InsertByStart(s, n))
  {
    if SortedByStart(s) {
      var r := InsertByStart(s, n);
      var i := FirstLater(s, n.startTime);
      InsertByStartPlace(s, n);
      forall a, b | 0 <= a < b < |r|
        ensures r[a].startTime <= r[b].startTime
      {
        if b < i {
          assert r[a] == s[a] && r[b] == s[b];
        } else if b == i {
        } else if a < i {
          assert r[b] == s[b - 1];
          assert r[a].startTime <= n.startTime;
          assert s[i].startTime > n.startTime;
          assert s[i].startTime <= s[b - 1].startTime || i == b - 1;
        } else if a == i {
          assert r[b] == s[b - 1];
          assert s[i].startTime > n.startTime;
          assert s[i].startTime <= s[b - 1].startTime || i == b - 1;
        } else {
          assert r[a] == s[a - 1] && r[b] == s[b - 1];
        }
      }
    }
  }

  /** The stable sort of `NoteList`: each note in turn is inserted after
      the notes already placed with an equal or earlier start time. */
  function SortByStart(s: seq<Note>): (r: seq<Note>)
    ensures SortedByStart(r)
    ensures multiset(r) == multiset(s)
    ensures |r| == |s|
  {
    if |s| == 0 then []
    else
      assert s == s[..|s| - 1] + [s[|s| - 1]];
      InsertKeepsSorted(SortByStart(s[..|s| - 1]), s[|s| - 1]);
      InsertByStart(SortByStart(s[..|s| - 1]), s[|s| - 1])
  }
}
