/**
  The second half of `Measure.Convert` in MusicManager.cs, for one 4x4 grid
  of a measure. First every arrow glyph, in reading order, looks along its
  direction for the nearest cell that is timed (its glyph is a key of the
  timing dictionary) and not yet claimed by another arrow; that cell is
  claimed and becomes the start of a long note whose bar is the arrow.
  Then every timed cell that no arrow claimed becomes a plain note.
*/
module Grid {
  import opened Wrappers
  import opened Notes

  /** Four rows of four glyphs. */
  predicate GridShape(g: seq<string>) {
    |g| == 4 && forall y :: 0 <= y < 4 ==> |g[y]| == 4
  }

  datatype Pos = Pos(row: int, column: int)

  /** The key `row * 4 + column` of a cell. */
  function Index(p: Pos): int {
    p.row * 4 + p.column
  }

  /** The cell with key `k`. */
  function CellPos(k: int): (p: Pos)
    requires 0 <= k < 16
    ensures InGrid(p.row, p.column) && Index(p) == k
  {
    Pos(k / 4, k % 4)
  }

  function GlyphAt(g: seq<string>, p: Pos): char
    requires GridShape(g) && InGrid(p.row, p.column)
  {
    g[p.row][p.column]
  }

  /** The cell's glyph is a timing character. */
  predicate Timed(g: seq<string>, times: map<char, real>, p: Pos)
    requires GridShape(g) && InGrid(p.row, p.column)
  {
    GlyphAt(g, p) in times
  }

  // ---------------------------------------------------------------------
  // Arrows
  // ---------------------------------------------------------------------

  datatype Dir = Up | Down | Right | Left

  /** The cases of the switch: `^`/`∧` up, `∨`/`Ｖ` down, `>`/`＞` right,
      `＜`/`<` left. */
  function ArrowOf(c: char): Option<Dir> {
    if c == '^' || c == '\U{2227}' then Some(Up)
    else if c == '\U{2228}' || c == '\U{FF36}' then Some(Down)
    else if c == '>' || c == '\U{FF1E}' then Some(Right)
    else if c == '\U{FF1C}' || c == '<' then Some(Left)
    else None
  }

  /** The cells an arrow at `(y, x)` looks at, nearest first, up to the edge
      of the grid. */
  function Path(d: Dir, y: int, x: int): (path: seq<Pos>)
    requires InGrid(y, x)
    ensures forall i :: 0 <= i < |path| ==> InGrid(path[i].row, path[i].column)
    ensures forall i :: 0 <= i < |path| ==> path[i] != Pos(y, x)
  {
    match d
    case Up => seq(y, i => Pos(y - 1 - i, x))
    case Down => seq(3 - y, i => Pos(y + 1 + i, x))
    case Right => seq(3 - x, i => Pos(y, x + 1 + i))
    case Left => seq(x, i => Pos(y, x - 1 - i))
  }

  /** Vertical arrows stay in their column and horizontal ones in their row,
      and the path runs to the grid's edge. */
  lemma PathStraight(d: Dir, y: int, x: int)
    requires InGrid(y, x)
    ensures d == Up || d == Down ==> forall i :: 0 <= i < |Path(d, y, x)| ==> Path(d, y, x)[i].column == x
    ensures d == Left || d == Right ==> forall i :: 0 <= i < |Path(d, y, x)| ==> Path(d, y, x)[i].row == y
    ensures d == Up ==> |Path(d, y, x)| == y
    ensures d == Down ==> |Path(d, y, x)| == 3 - y
    ensures d == Left ==> |Path(d, y, x)| == x
    ensures d == Right ==> |Path(d, y, x)| == 3 - x
  {
  }

  /** A cell an arrow may still claim. */
  predicate Eligible(g: seq<string>, times: map<char, real>, claimed: set<int>, p: Pos)
    requires GridShape(g) && InGrid(p.row, p.column)
  {
    Index(p) !in claimed && Timed(g, times, p)
  }

  /** The search loop of one arrow: the first eligible cell of the path at
      or after `from`. */
  function FirstEligible(g: seq<string>, times: map<char, real>, claimed: set<int>,
                         path: seq<Pos>, from: nat): (r: Option<nat>)
    requires GridShape(g) && from <= |path|
    requires forall i :: 0 <= i < |path| ==> InGrid(path[i].row, path[i].column)
    ensures r.Some? ==> from <= r.value < |path| && Eligible(g, times, claimed, path[r.value])
    ensures r.Some? ==> forall i :: from <= i < r.value ==> !Eligible(g, times, claimed, path[i])
    ensures r.None? <==> forall i :: from <= i < |path| ==> !Eligible(g, times, claimed, path[i])
    decreases |path| - from
  {
    if from == |path| then None
    else if Eligible(g, times, claimed, path[from]) then Some(from)
    else FirstEligible(g, times, claimed, path, from + 1)
  }

  // ---------------------------------------------------------------------
  // The arrow pass
  // ---------------------------------------------------------------------

  /** The arrow pass so far: `longNoteList` and the notes it produced. */
  datatype Pass = Pass(claimed: set<int>, notes: seq<Note>)

  /** A long note the arrow pass may produce: it starts on a timed cell at
      that cell's time, and its bar is an arrow whose path holds the start. */
  predicate LinkNote(g: seq<string>, times: map<char, real>, mi: int, n: Note)
    requires GridShape(g)
  {
    && ValidNote(n) && IsLong(n)
    && n.measureIndex == mi && n.finishTime == 0.0
    && Timed(g, times, Pos(n.row, n.column))
    && n.startTime == times[GlyphAt(g, Pos(n.row, n.column))]
    && ArrowOf(GlyphAt(g, Pos(n.barRow, n.barColumn))).Some?
    && Pos(n.row, n.column) in Path(ArrowOf(GlyphAt(g, Pos(n.barRow, n.barColumn))).value, n.barRow, n.barColumn)
  }

  /** The cells the arrow glyph at `at` searches, nearest first. */
  function ArrowPath(g: seq<string>, at: Pos): seq<Pos>
    requires GridShape(g) && InGrid(at.row, at.column) && ArrowOf(GlyphAt(g, at)).Some?
  {
    Path(ArrowOf(GlyphAt(g, at)).value, at.row, at.column)
  }

  /** The arrow pass at the cell `at`: nothing unless the glyph is an arrow
      that finds an eligible cell, which is then claimed. */
  function LinkStep(g: seq<string>, times: map<char, real>, mi: int, p: Pass, at: Pos): (r: Pass)
    requires GridShape(g) && InGrid(at.row, at.column)
    ensures r.notes == p.notes ==> r.claimed == p.claimed
    ensures r.notes != p.notes ==>
              && |r.notes| == |p.notes| + 1 && r.notes[..|p.notes|] == p.notes
              && var n := r.notes[|p.notes|];
                 && LinkNote(g, times, mi, n)
                 && Pos(n.barRow, n.barColumn) == at
                 && Cell(n) !in p.claimed
                 && r.claimed == p.claimed + {Cell(n)}
  {
    match ArrowOf(GlyphAt(g, at))
    case None => p
    case Some(d) =>
      var path := Path(d, at.row, at.column);
      match FirstEligible(g, times, p.claimed, path, 0)
      case None => p
      case Some(i) =>
        var s := path[i];
        var n := LongNote(mi, s.row, s.column, at.row, at.column, times[GlyphAt(g, s)]);
        assert Pos(n.row, n.column) == s;
        Pass(p.claimed + {Index(s)}, p.notes + [n])
  }

  /** An arrow emits a note exactly when some cell on its path is
      eligible, and the note starts on the nearest such cell. */
  lemma LinkStepNearest(g: seq<string>, times: map<char, real>, mi: int, p: Pass, at: Pos)
    requires GridShape(g) && InGrid(at.row, at.column)
    ensures var r := LinkStep(g, times, mi, p, at);
            r.notes == p.notes <==>
              || ArrowOf(GlyphAt(g, at)).None?
              || forall i :: 0 <= i < |ArrowPath(g, at)| ==> !Eligible(g, times, p.claimed, ArrowPath(g, at)[i])
    ensures var r := LinkStep(g, times, mi, p, at);
            r.notes != p.notes && ArrowOf(GlyphAt(g, at)).Some? ==>
              forall i, j :: 0 <= j < i < |ArrowPath(g, at)| && ArrowPath(g, at)[i] == Pos(r.notes[|p.notes|].row, r.notes[|p.notes|].column)
                ==> !Eligible(g, times, p.claimed, ArrowPath(g, at)[j])
  {
    var r := LinkStep(g, times, mi, p, at);
    if ArrowOf(GlyphAt(g, at)).Some? {
      var path := ArrowPath(g, at);
      var f := FirstEligible(g, times, p.claimed, path, 0);
      if f.Some? {
        assert Pos(r.notes[|p.notes|].row, r.notes[|p.notes|].column) == path[f.value];
        PathDistinct(ArrowOf(GlyphAt(g, at)).value, at.row, at.column);
        NearestOnPath(g, times, p.claimed, path, f.value);
      } else {
        assert r.notes == p.notes;
      }
    } else {
      assert r.notes == p.notes;
    }
  }

  /** No cell appears twice on an arrow's path. */
  lemma PathDistinct(d: Dir, y: int, x: int)
    requires InGrid(y, x)
    ensures forall i, j :: 0 <= i < j < |Path(d, y, x)| ==> Path(d, y, x)[i] != Path(d, y, x)[j]
  { }

  /** On a path without repeats, every cell before the first eligible one
      is ineligible, whichever index names that cell. */
  lemma NearestOnPath(g: seq<string>, times: map<char, real>, claimed: set<int>, path: seq<Pos>, k: nat)
    requires GridShape(g) && k < |path|
    requires forall i :: 0 <= i < |path| ==> InGrid(path[i].row, path[i].column)
    requires forall i, j :: 0 <= i < j < |path| ==> path[i] != path[j]
    requires forall i :: 0 <= i < k ==> !Eligible(g, times, claimed, path[i])
    ensures forall i, j :: 0 <= j < i < |path| && path[i] == path[k] ==> !Eligible(g, times, claimed, path[j])
  {
    forall i, j | 0 <= j < i < |path| && path[i] == path[k]
      ensures !Eligible(g, times, claimed, path[j])
    {
      assert i == k;
    }
  }

  /** The number of notes starting on the cell with key `k`. */
  function CountAt(notes: seq<Note>, k: int): nat {
    if |notes| == 0 then 0
    else CountAt(notes[..|notes| - 1], k) + (if Cell(notes[|notes| - 1]) == k then 1 else 0)
  }

  lemma {:induction false} CountAtAppend(a: seq<Note>, b: seq<Note>, k: int)
    ensures CountAt(a + b, k) == CountAt(a, k) + CountAt(b, k)
    decreases |b|
  {
    if |b| == 0 {
      assert a + b == a;
    } else {
      assert (a + b)[..|a + b| - 1] == a + b[..|b| - 1];
      assert (a + b)[|a + b| - 1] == b[|b| - 1];
      CountAtAppend(a, b[..|b| - 1], k);
    }
  }

  /** The arrow pass over the cells with keys below `k`, in reading order. */
  function LinkPass(g: seq<string>, times: map<char, real>, mi: int, k: nat): (r: Pass)
    requires GridShape(g) && k <= 16
    ensures forall i :: 0 <= i < |r.notes| ==> LinkNote(g, times, mi, r.notes[i])
  {
    if k == 0 then Pass({}, [])
    else LinkStep(g, times, mi, LinkPass(g, times, mi, k - 1), CellPos(k - 1))
  }

  /** The count of notes per cell after one step of the arrow pass. */
  lemma LinkStepCount(g: seq<string>, times: map<char, real>, mi: int, p: Pass, at: Pos)
    requires GridShape(g) && InGrid(at.row, at.column)
    requires forall c :: c in p.claimed ==> 0 <= c < 16 && Timed(g, times, CellPos(c))
    requires forall c :: CountAt(p.notes, c) == if c in p.claimed then 1 else 0
    ensures var r := LinkStep(g, times, mi, p, at);
            && (forall c :: c in r.claimed ==> 0 <= c < 16 && Timed(g, times, CellPos(c)))
            && (forall c :: CountAt(r.notes, c) == if c in r.claimed then 1 else 0)
  {
    var r := LinkStep(g, times, mi, p, at);
    if r.notes != p.notes {
      PushPass(g, times, p, r, r.notes[|p.notes|]);
    }
  }

  /** One note pushed by the arrow pass keeps both invariants of the pass:
      claimed cells are timed grid cells, each holding exactly one note. */
  lemma PushPass(g: seq<string>, times: map<char, real>, p: Pass, r: Pass, n: Note)
    requires GridShape(g)
    requires |r.notes| == |p.notes| + 1 && r.notes[..|p.notes|] == p.notes && r.notes[|p.notes|] == n
    requires InGrid(n.row, n.column) && Timed(g, times, Pos(n.row, n.column))
    requires Cell(n) !in p.claimed && r.claimed == p.claimed + {Cell(n)}
    requires forall c :: c in p.claimed ==> 0 <= c < 16 && Timed(g, times, CellPos(c))
    requires forall c :: CountAt(p.notes, c) == if c in p.claimed then 1 else 0
    ensures forall c :: c in r.claimed ==> 0 <= c < 16 && Timed(g, times, CellPos(c))
    ensures forall c :: CountAt(r.notes, c) == if c in r.claimed then 1 else 0
  {
    assert r.notes == p.notes + [n];
    assert CellPos(Cell(n)) == Pos(n.row, n.column);
    PushCount(p.notes, p.claimed, n);
  }

  /** A note on an unclaimed cell, appended and claimed, keeps one note per
      claimed cell and none elsewhere. */
  lemma PushCount(notes: seq<Note>, claimed: set<int>, n: Note)
    requires Cell(n) !in claimed
    requires forall c :: CountAt(notes, c) == if c in claimed then 1 else 0
    ensures forall c :: CountAt(notes + [n], c) == if c in claimed + {Cell(n)} then 1 else 0
  {
    forall c
      ensures CountAt(notes + [n], c) == CountAt(notes, c) + (if Cell(n) == c then 1 else 0)
    {
      assert (notes + [n])[..|notes|] == notes;
    }
  }

  /** Each claimed cell is timed and starts exactly one long note; no other
      cell starts any. */
  lemma {:induction false} LinkPassClaims(g: seq<string>, times: map<char, real>, mi: int, k: nat)
    requires GridShape(g) && k <= 16
    ensures var r := LinkPass(g, times, mi, k);
            && (forall c :: c in r.claimed ==> 0 <= c < 16 && Timed(g, times, CellPos(c)))
            && (forall c :: CountAt(r.notes, c) == if c in r.claimed then 1 else 0)
  {
    if k > 0 {
      var p := LinkPass(g, times, mi, k - 1);
      LinkPassClaims(g, times, mi, k - 1);
      LinkStepCount(g, times, mi, p, CellPos(k - 1));
      assert LinkPass(g, times, mi, k) == LinkStep(g, times, mi, p, CellPos(k - 1));
    }
  }

  /** The count at one cell after the arrow pass. */
  lemma LinkPassCountAt(g: seq<string>, times: map<char, real>, mi: int, k: nat, c: int)
    requires GridShape(g) && k <= 16
    ensures var r := LinkPass(g, times, mi, k);
            CountAt(r.notes, c) == if c in r.claimed then 1 else 0
  {
    LinkPassClaims(g, times, mi, k);
  }

  // ---------------------------------------------------------------------
  // The plain pass and the whole grid
  // ---------------------------------------------------------------------

  /** A plain note of the second pass: on a timed cell, at its time. */
  predicate PlainCellNote(g: seq<string>, times: map<char, real>, mi: int, n: Note)
    requires GridShape(g)
  {
    && ValidNote(n) && !IsLong(n)
    && n.measureIndex == mi && n.finishTime == 0.0
    && Timed(g, times, Pos(n.row, n.column))
    && n.startTime == times[GlyphAt(g, Pos(n.row, n.column))]
  }

  /** The plain pass over the cells with keys below `k`: one plain note for
      each timed cell that is not claimed. */
  function PlainPass(g: seq<string>, times: map<char, real>, mi: int, claimed: set<int>, k: nat): (notes: seq<Note>)
    requires GridShape(g) && k <= 16
    ensures forall i :: 0 <= i < |notes| ==> PlainCellNote(g, times, mi, notes[i])
    ensures forall c :: CountAt(notes, c) ==
              if 0 <= c < k && c !in claimed && Timed(g, times, CellPos(c)) then 1 else 0
  {
    if k == 0 then []
    else
      var front := PlainPass(g, times, mi, claimed, k - 1);
      var at := CellPos(k - 1);
      if k - 1 !in claimed && Timed(g, times, at) then
        var n := PlainNote(mi, at.row, at.column, times[GlyphAt(g, at)]);
        assert Cell(n) == k - 1;
        assert (front + [n])[..|front|] == front;
        front + [n]
      else
        front
  }

  /** The notes one grid adds to its measure, in the order `Measure.AddNote`
      receives them. */
  function GridNotes(g: seq<string>, times: map<char, real>, mi: int): (r: seq<Note>)
    requires GridShape(g)
    ensures forall i :: 0 <= i < |r| ==> LinkNote(g, times, mi, r[i]) || PlainCellNote(g, times, mi, r[i])
  {
    var p := LinkPass(g, times, mi, 16);
    PassNoteKinds(g, times, mi);
    p.notes + PlainPass(g, times, mi, p.claimed, 16)
  }

  /** The count of one cell key over the two passes. */
  lemma CoverageAt(g: seq<string>, times: map<char, real>, mi: int, k: int)
    requires GridShape(g)
    ensures CountAt(GridNotes(g, times, mi), k) == if 0 <= k < 16 && Timed(g, times, CellPos(k)) then 1 else 0
  {
    var p := LinkPass(g, times, mi, 16);
    var q := PlainPass(g, times, mi, p.claimed, 16);
    assert GridNotes(g, times, mi) == p.notes + q;
    LinkPassClaims(g, times, mi, 16);
    CountAtAppend(p.notes, q, k);
    LinkPassCountAt(g, times, mi, 16, k);
    PlainPassCountAt(g, times, mi, p.claimed, 16, k);
  }

  /** The count at one cell after the plain pass. */
  lemma PlainPassCountAt(g: seq<string>, times: map<char, real>, mi: int, claimed: set<int>, k: nat, c: int)
    requires GridShape(g) && k <= 16
    ensures CountAt(PlainPass(g, times, mi, claimed, k), c) ==
              if 0 <= c < k && c !in claimed && Timed(g, times, CellPos(c)) then 1 else 0
  {
  }

  /** Every timed cell starts exactly one note, every other cell none. */
  lemma GridCoverage(g: seq<string>, times: map<char, real>, mi: int)
    requires GridShape(g)
    ensures forall k :: 0 <= k < 16 ==>
              CountAt(GridNotes(g, times, mi), k) == if Timed(g, times, CellPos(k)) then 1 else 0
    ensures forall k :: !(0 <= k < 16) ==> CountAt(GridNotes(g, times, mi), k) == 0
  {
    forall k
      ensures CountAt(GridNotes(g, times, mi), k) == if 0 <= k < 16 && Timed(g, times, CellPos(k)) then 1 else 0
    {
      CoverageAt(g, times, mi, k);
    }
  }

  /** Each note of the two passes starts at its cell's time and is either
      a plain note or a long note whose bar is an arrow pointing at its
      start. */
  lemma PassNoteKinds(g: seq<string>, times: map<char, real>, mi: int)
    requires GridShape(g)
    ensures var p := LinkPass(g, times, mi, 16);
            var all := p.notes + PlainPass(g, times, mi, p.claimed, 16);
            forall i :: 0 <= i < |all| ==> LinkNote(g, times, mi, all[i]) || PlainCellNote(g, times, mi, all[i])
  {
    var p := LinkPass(g, times, mi, 16);
    var q := PlainPass(g, times, mi, p.claimed, 16);
    var all := p.notes + q;
    forall i | 0 <= i < |all|
      ensures LinkNote(g, times, mi, all[i]) || PlainCellNote(g, times, mi, all[i])
    {
      if i < |p.notes| {
        assert all[i] == p.notes[i];
      } else {
        assert all[i] == q[i - |p.notes|];
      }
    }
  }
}
