/**
  The `Chart` class of MusicManager.cs: the per-cell note lists with the
  closing of long notes, the note count, the set of clap timings, the
  tempo list, and `Parse`, which runs the measure blocks of a chart file in
  order and yields no chart when any of them throws.
*/
module Charts {
  import opened Wrappers
  import opened Notes
  import opened Buckets
  import opened Timing
  import opened ChartText
  import Measure

  /** A chart as `Parse` builds it. `ClapTimings` is a sorted set, so a
      set of reals; the music and the difficulty are left out. */
  datatype Chart = Chart(
    level: real,
    bpms: seq<real>,
    cells: Buckets,
    noteCount: nat,
    claps: set<real>,
    isLong: bool)

  /** The last note of the new note's cell is a long note still waiting
      for its end (`FinishTime <= 0`). */
  predicate Closes(b: Buckets, n: Note) {
    && Cell(n) in b.lists
    && |b.lists[Cell(n)]| > 0
    && IsLong(b.lists[Cell(n)][|b.lists[Cell(n)]| - 1])
    && b.lists[Cell(n)][|b.lists[Cell(n)]| - 1].finishTime <= 0.0
  }

  /** The list of a cell whose open long note the new note closes. */
  function CloseLast(l: seq<Note>, t: real): (r: seq<Note>)
    requires |l| > 0
    ensures |r| == |l| && r[..|l| - 1] == l[..|l| - 1]
    ensures r[|l| - 1] == l[|l| - 1].(finishTime := t)
  {
    l[..|l| - 1] + [l[|l| - 1].(finishTime := t)]
  }

  /** The list of a cell, empty when the cell has none yet. */
  function Held(b: Buckets, k: int): seq<Note> {
    if k in b.lists then b.lists[k] else []
  }

  /** `Chart.AddNote`: a note on a new cell opens its list; a note on a
      cell whose last note is an open long note becomes that note's end
      and is not stored; any other note is appended. Every note counts and
      adds its start time to the clap timings. */
  function AddNote(c: Chart, n: Note): (r: Chart)
    requires Valid(c.cells)
    ensures Valid(r.cells)
    ensures r.level == c.level && r.bpms == c.bpms
    ensures r.noteCount == c.noteCount + 1
    ensures r.claps == c.claps + {n.startTime}
    ensures r.isLong <==> c.isLong || IsLong(n)
    ensures Closes(c.cells, n) ==>
              && r.cells.keys == c.cells.keys
              && |Flatten(r.cells)| == |Flatten(c.cells)|
              && r.cells.lists[Cell(n)] == CloseLast(c.cells.lists[Cell(n)], n.startTime)
    ensures !Closes(c.cells, n) ==>
              && multiset(Flatten(r.cells)) == multiset(Flatten(c.cells)) + multiset{n}
              && Cell(n) in r.cells.lists
              && r.cells.lists[Cell(n)] == Held(c.cells, Cell(n)) + [n]
              && r.cells.keys == if Cell(n) in c.cells.lists then c.cells.keys else c.cells.keys + [Cell(n)]
    ensures forall k :: k in c.cells.lists && k != Cell(n) ==> k in r.cells.lists && r.cells.lists[k] == c.cells.lists[k]
  {
    var cells := PlaceNote(c.cells, n);
    Chart(c.level, c.bpms, cells, c.noteCount + 1, c.claps + {n.startTime}, c.isLong || IsLong(n))
  }

  /** The cell lists after `AddNote`: the three cases of its body. */
  function PlaceNote(b: Buckets, n: Note): (r: Buckets)
    requires Valid(b)
    ensures Valid(r)
    ensures Closes(b, n) ==>
              && r.keys == b.keys
              && |Flatten(r)| == |Flatten(b)|
              && r.lists[Cell(n)] == CloseLast(b.lists[Cell(n)], n.startTime)
    ensures !Closes(b, n) ==>
              && multiset(Flatten(r)) == multiset(Flatten(b)) + multiset{n}
              && Cell(n) in r.lists
              && r.lists[Cell(n)] == Held(b, Cell(n)) + [n]
              && r.keys == if Cell(n) in b.lists then b.keys else b.keys + [Cell(n)]
    ensures forall k :: k in b.lists && k != Cell(n) ==> k in r.lists && r.lists[k] == b.lists[k]
  {
    if Cell(n) !in b.lists then
      var r := Measure.OpenCell(b, n);
      assert multiset(Flatten(r)) == multiset(Flatten(b)) + multiset{n};
      assert Held(b, Cell(n)) == [];
      r
    else if Closes(b, n) then CloseCell(b, n)
    else
      assert Held(b, Cell(n)) == b.lists[Cell(n)];
      AppendToCell(b, n)
  }

  /** The closing case of `AddNote`. */
  function CloseCell(b: Buckets, n: Note): (r: Buckets)
    requires Valid(b) && Closes(b, n)
    ensures Valid(r) && r.keys == b.keys
    ensures |Flatten(r)| == |Flatten(b)|
    ensures r.lists == b.lists[Cell(n) := CloseLast(b.lists[Cell(n)], n.startTime)]
  {
    var k := Cell(n);
    var l := CloseLast(b.lists[k], n.startTime);
    assert forall i :: 0 <= i < |l| ==> Cell(l[i]) == Cell(b.lists[k][i]);
    ReplaceValid(b, k, l);
    FlattenSameLength(b.keys, b.lists, k, l);
    Buckets(b.keys, b.lists[k := l])
  }

  /** The appending case of `AddNote`. */
  function AppendToCell(b: Buckets, n: Note): (r: Buckets)
    requires Valid(b) && Cell(n) in b.lists
    ensures Valid(r) && r.keys == b.keys
    ensures multiset(Flatten(r)) == multiset(Flatten(b)) + multiset{n}
    ensures r.lists == b.lists[Cell(n) := b.lists[Cell(n)] + [n]]
  {
    var k := Cell(n);
    var l := b.lists[k] + [n];
    ReplaceValid(b, k, l);
    FlattenGrow(b.keys, b.lists, k, l, n);
    Buckets(b.keys, b.lists[k := l])
  }

  /** The start times of the notes. */
  function StartTimes(notes: seq<Note>): (ts: set<real>)
    ensures forall i :: 0 <= i < |notes| ==> notes[i].startTime in ts
    ensures forall t :: t in ts ==> exists i :: 0 <= i < |notes| && notes[i].startTime == t
  {
    if |notes| == 0 then {}
    else StartTimes(notes[..|notes| - 1]) + {notes[|notes| - 1].startTime}
  }

  /** Some note is long. */
  predicate SomeLong(notes: seq<Note>) {
    exists i :: 0 <= i < |notes| && IsLong(notes[i])
  }

  lemma SomeLongSplit(notes: seq<Note>)
    requires |notes| > 0
    ensures SomeLong(notes) <==> SomeLong(notes[..|notes| - 1]) || IsLong(notes[|notes| - 1])
  {
    var front := notes[..|notes| - 1];
    if SomeLong(notes) {
      var i :| 0 <= i < |notes| && IsLong(notes[i]);
      if i < |front| {
        assert front[i] == notes[i];
      }
    }
    if SomeLong(front) {
      var i :| 0 <= i < |front| && IsLong(front[i]);
      assert notes[i] == front[i];
    }
  }

  /** `AddNote` applied to the notes in order. */
  function AddNotes(c: Chart, notes: seq<Note>): (r: Chart)
    requires Valid(c.cells)
    ensures Valid(r.cells)
    ensures r.level == c.level && r.bpms == c.bpms
    ensures r.noteCount == c.noteCount + |notes|
  {
    if |notes| == 0 then c
    else AddNote(AddNotes(c, notes[..|notes| - 1]), notes[|notes| - 1])
  }

  /** After a run of notes the chart is long exactly when it was or one of
      them is. */
  lemma {:induction false} AddNotesLong(c: Chart, notes: seq<Note>)
    requires Valid(c.cells)
    ensures AddNotes(c, notes).isLong <==> c.isLong || SomeLong(notes)
    decreases |notes|
  {
    if |notes| > 0 {
      var front := notes[..|notes| - 1];
      assert AddNotes(c, notes) == AddNote(AddNotes(c, front), notes[|notes| - 1]);
      AddNotesLong(c, front);
      SomeLongSplit(notes);
    }
  }

  /** After a run of notes every start time of the run is a clap timing,
      and nothing else was added to the clap timings. */
  lemma {:induction false} AddNotesClaps(c: Chart, notes: seq<Note>)
    requires Valid(c.cells)
    ensures AddNotes(c, notes).claps == c.claps + StartTimes(notes)
    decreases |notes|
  {
    if |notes| > 0 {
      var front := notes[..|notes| - 1];
      var last := notes[|notes| - 1];
      var p := AddNotes(c, front);
      assert AddNotes(c, notes) == AddNote(p, last);
      AddNotesClaps(c, front);
      UnionStep(AddNotes(c, notes).claps, p.claps, c.claps, StartTimes(front), StartTimes(notes), last.startTime);
    }
  }

  /** One more start time, added to the chart and to the run alike. */
  lemma UnionStep(after: set<real>, before: set<real>, base: set<real>, front: set<real>, all: set<real>, t: real)
    requires after == before + {t} && before == base + front && all == front + {t}
    ensures after == base + all
  {
  }

  // ---------------------------------------------------------------------
  // Invariant
  // ---------------------------------------------------------------------

  /** Some stored note is long. */
  predicate AnyLong(b: Buckets) {
    exists k, i :: k in b.lists && 0 <= i < |b.lists[k]| && IsLong(b.lists[k][i])
  }

  /** Every stored note's start is a clap timing. */
  predicate StartsClapped(b: Buckets, claps: set<real>) {
    forall k, i :: k in b.lists && 0 <= i < |b.lists[k]| ==> b.lists[k][i].startTime in claps
  }

  /** What holds of every chart `AddNote` builds from the empty one: the
      lists are well formed, no more notes are stored than were counted,
      every stored start is a clap timing, and `IsLong` says whether a
      long note is stored. */
  predicate Inv(c: Chart) {
    && Valid(c.cells)
    && |Flatten(c.cells)| <= c.noteCount
    && StartsClapped(c.cells, c.claps)
    && (c.isLong <==> AnyLong(c.cells))
  }

  lemma EmptyInv(level: real)
    ensures Inv(Chart(level, [], Empty, 0, {}, false))
  {
  }

  /** `AddNote` keeps the invariant. */
  lemma AddNoteInv(c: Chart, n: Note)
    requires Inv(c)
    ensures Inv(AddNote(c, n))
  {
    if Closes(c.cells, n) {
      CloseInv(c, n);
    } else {
      StoreInv(c, n);
    }
  }

  /** A stored note is counted, clapped, and long only if `IsLong` says
      so. */
  lemma StoreInv(c: Chart, n: Note)
    requires Inv(c) && !Closes(c.cells, n)
    ensures Inv(AddNote(c, n))
  {
    var r := AddNote(c, n);
    assert |Flatten(r.cells)| == |Flatten(c.cells)| + 1 by {
      assert |multiset(Flatten(r.cells))| == |multiset(Flatten(c.cells))| + 1;
    }
    StoreClapped(c, n);
    StoreLong(c, n);
  }

  lemma StoreClapped(c: Chart, n: Note)
    requires Inv(c) && !Closes(c.cells, n)
    ensures StartsClapped(AddNote(c, n).cells, AddNote(c, n).claps)
  {
    var r := AddNote(c, n);
    assert r.cells.lists == c.cells.lists[Cell(n) := Held(c.cells, Cell(n)) + [n]];
    PushClapped(c.cells, r.cells, n, c.claps);
  }

  lemma StoreLong(c: Chart, n: Note)
    requires Inv(c) && !Closes(c.cells, n)
    ensures AddNote(c, n).isLong <==> AnyLong(AddNote(c, n).cells)
  {
    var r := AddNote(c, n);
    assert r.cells.lists == c.cells.lists[Cell(n) := Held(c.cells, Cell(n)) + [n]];
    PushLong(c.cells, r.cells, n);
  }

  /** Putting `n` at the end of its cell's list, opened or not, adds its
      start to the starts that need a clap timing. */
  lemma PushClapped(b: Buckets, r: Buckets, n: Note, claps: set<real>)
    requires StartsClapped(b, claps)
    requires r.lists == b.lists[Cell(n) := Held(b, Cell(n)) + [n]]
    ensures StartsClapped(r, claps + {n.startTime})
  {
    forall k, i | k in r.lists && 0 <= i < |r.lists[k]|
      ensures r.lists[k][i].startTime in claps + {n.startTime}
    {
      if k != Cell(n) {
        assert r.lists[k][i] == b.lists[k][i];
      } else if i < |Held(b, k)| {
        assert r.lists[k][i] == b.lists[k][i];
      } else {
        assert r.lists[k][i] == n;
      }
    }
  }

  /** Putting `n` at the end of its cell's list stores a long note exactly
      when one was stored before or `n` is long. */
  lemma PushLong(b: Buckets, r: Buckets, n: Note)
    requires r.lists == b.lists[Cell(n) := Held(b, Cell(n)) + [n]]
    ensures AnyLong(r) <==> AnyLong(b) || IsLong(n)
  {
    var k := Cell(n);
    forall k', i | k' in r.lists && 0 <= i < |r.lists[k']| && IsLong(r.lists[k'][i])
      ensures AnyLong(b) || IsLong(n)
    {
      if k' != k || i < |Held(b, k)| {
        assert r.lists[k'][i] == b.lists[k'][i];
      } else {
        assert r.lists[k'][i] == n;
      }
    }
    if IsLong(n) {
      assert r.lists[k][|Held(b, k)|] == n;
    }
    if AnyLong(b) {
      var k', i :| k' in b.lists && 0 <= i < |b.lists[k']| && IsLong(b.lists[k'][i]);
      assert r.lists[k'][i] == b.lists[k'][i];
    }
  }

  /** Closing a long note changes only its finish time. */
  lemma CloseInv(c: Chart, n: Note)
    requires Inv(c) && Closes(c.cells, n)
    ensures Inv(AddNote(c, n))
  {
    var r := AddNote(c, n);
    var k := Cell(n);
    var l := c.cells.lists[k];
    var l' := r.cells.lists[k];
    forall k', i | k' in r.cells.lists && 0 <= i < |r.cells.lists[k']|
      ensures r.cells.lists[k'][i].startTime in r.claps
      ensures IsLong(r.cells.lists[k'][i]) <==> IsLong(c.cells.lists[k'][i])
    {
      if k' == k {
        if i < |l| - 1 {
          assert l'[..|l| - 1][i] == l[..|l| - 1][i];
        }
      }
    }
    assert IsLong(l'[|l| - 1]);
    if c.isLong {
      var k', i :| k' in c.cells.lists && 0 <= i < |c.cells.lists[k']| && IsLong(c.cells.lists[k'][i]);
      assert IsLong(r.cells.lists[k'][i]);
    }
  }

  /** `AddNotes` keeps the invariant. */
  lemma {:induction false} AddNotesInv(c: Chart, notes: seq<Note>)
    requires Inv(c)
    ensures Inv(AddNotes(c, notes))
    decreases |notes|
  {
    if |notes| > 0 {
      AddNotesInv(c, notes[..|notes| - 1]);
      AddNoteInv(AddNotes(c, notes[..|notes| - 1]), notes[|notes| - 1]);
    }
  }

  /** `NoteList`: all stored notes in start-time order. */
  function NoteList(c: Chart): (r: seq<Note>)
    requires Valid(c.cells)
    ensures SortedByStart(r)
    ensures multiset(r) == multiset(Flatten(c.cells))
    ensures |r| <= c.noteCount || !Inv(c)
  {
    SortByStart(Flatten(c.cells))
  }

  // ---------------------------------------------------------------------
  // Parse
  // ---------------------------------------------------------------------

  /** The state of `Parse`'s outer loop: the chart so far, the offset the
      next measure starts at, and the next measure number. */
  datatype Build = Build(chart: Chart, offset: real, measure: int)

  predicate BpmsPositive(bpms: seq<real>) {
    forall i :: 0 <= i < |bpms| ==> bpms[i] > 0.0
  }

  /** A measure block: its notes go into the chart at the current offset
      and tempo, and the next measure starts where it ends. */
  function StepBlock(st: Build, rows: seq<string>, timings: seq<string>): (r: Option<Build>)
    requires Valid(st.chart.cells) && BpmsPositive(st.chart.bpms) && Measure.RowsWide(rows)
    ensures r.None? <==> |st.chart.bpms| == 0 || |rows| == 0 || |rows| % 4 != 0
    ensures r.Some? ==>
              && Valid(r.value.chart.cells)
              && r.value.chart.level == st.chart.level
              && r.value.chart.bpms == st.chart.bpms
              && r.value.measure == st.measure + 1
              && r.value.offset == st.offset + Elapsed(st.chart.bpms[|st.chart.bpms| - 1], timings)
  {
    match Measure.Convert(st.chart.bpms, st.offset, st.measure, rows, timings)
    case None => None
    case Some(cv) => Some(Build(AddNotes(st.chart, cv.notes), cv.next, st.measure + 1))
  }

  /** One directive or measure block of the outer loop. */
  function Step(st: Build, item: Item): (r: Option<Build>)
    requires Valid(st.chart.cells) && BpmsPositive(st.chart.bpms)
    requires item.Tempo? ==> item.bpm > 0.0
    requires item.Block? ==> Measure.RowsWide(item.rows)
    ensures r.Some? ==> Valid(r.value.chart.cells) && BpmsPositive(r.value.chart.bpms)
    ensures r.Some? ==> r.value.chart.level == st.chart.level
    ensures item.Tempo? ==> r.Some? && r.value.chart.bpms == st.chart.bpms + [item.bpm]
    ensures item.Block? ==>
              (r.None? <==> |st.chart.bpms| == 0 || |item.rows| == 0 || |item.rows| % 4 != 0)
    ensures item.Block? && r.Some? ==>
              && r.value.chart.bpms == st.chart.bpms
              && r.value.measure == st.measure + 1
              && r.value.offset == st.offset + Elapsed(st.chart.bpms[|st.chart.bpms| - 1], item.timings)
  {
    match item
    case Tempo(v) =>
      var c := st.chart;
      Some(st.(chart := c.(bpms := c.bpms + [v])))
    case Block(rows, timings) => StepBlock(st, rows, timings)
  }

  /** `Step` keeps the chart invariant. */
  lemma StepInv(st: Build, item: Item)
    requires Inv(st.chart) && BpmsPositive(st.chart.bpms)
    requires item.Tempo? ==> item.bpm > 0.0
    requires item.Block? ==> Measure.RowsWide(item.rows)
    ensures Step(st, item).Some? ==> Inv(Step(st, item).value.chart)
  {
    if item.Block? {
      assert Step(st, item) == StepBlock(st, item.rows, item.timings);
      var cv := Measure.Convert(st.chart.bpms, st.offset, st.measure, item.rows, item.timings);
      if cv.Some? {
        AddNotesInv(st.chart, cv.value.notes);
      }
    }
  }

  /** The items a chart file consists of can be compiled. */
  predicate Compilable(items: seq<Item>) {
    WellFormed(items) && TempiPositive(items)
  }

  lemma CompilableRest(items: seq<Item>)
    requires Compilable(items) && |items| > 0
    ensures Compilable(items[1..])
    ensures items[0].Tempo? ==> items[0].bpm > 0.0
    ensures items[0].Block? ==> Measure.RowsWide(items[0].rows)
  {
    assert forall k :: 0 <= k < |items| - 1 ==> items[1..][k] == items[k + 1];
  }

  /** The outer loop of `Parse` over the items from `st`. */
  function Compile(st: Build, items: seq<Item>): (r: Option<Build>)
    requires Valid(st.chart.cells) && BpmsPositive(st.chart.bpms) && Compilable(items)
    ensures r.Some? ==> Valid(r.value.chart.cells) && r.value.chart.level == st.chart.level
    decreases |items|
  {
    if |items| == 0 then Some(st)
    else
      CompilableRest(items);
      match Step(st, items[0])
      case None => None
      case Some(next) => Compile(next, items[1..])
  }

  /** A block that throws: no tempo set before it, or a row count that is
      not a multiple of four. */
  predicate Throws(items: seq<Item>, k: nat, hadTempo: bool) {
    && k < |items| && items[k].Block?
    && ((!hadTempo && NoTempoBefore(items, k)) || |items[k].rows| % 4 != 0)
  }

  /** No tempo line comes before item `k`. */
  predicate NoTempoBefore(items: seq<Item>, k: nat) {
    forall j :: 0 <= j < k && j < |items| ==> !items[j].Tempo?
  }

  /** Some block throws. */
  predicate AnyThrows(items: seq<Item>, hadTempo: bool) {
    exists k :: 0 <= k < |items| && Throws(items, k, hadTempo)
  }

  /** Compilation fails exactly when some block throws. */
  lemma {:induction false} CompileFails(st: Build, items: seq<Item>)
    requires Valid(st.chart.cells) && BpmsPositive(st.chart.bpms) && Compilable(items)
    ensures Compile(st, items).None? <==> AnyThrows(items, |st.chart.bpms| > 0)
    decreases |items|
  {
    if |items| > 0 {
      var rest := items[1..];
      CompilableRest(items);
      var s := Step(st, items[0]);
      if s.Some? {
        CompileFails(s.value, rest);
        ThrowsShift(items, |st.chart.bpms| > 0, |s.value.chart.bpms| > 0);
      } else {
        assert Throws(items, 0, |st.chart.bpms| > 0);
      }
    }
  }

  /** A block after the first item throws exactly when it throws in the
      rest, with the first item's tempo taken into account; the first item
      itself does not throw. */
  lemma ThrowsShift(items: seq<Item>, had: bool, had': bool)
    requires |items| > 0
    requires had' == (had || items[0].Tempo?)
    requires items[0].Block? ==> had && |items[0].rows| % 4 == 0
    ensures AnyThrows(items, had) <==> AnyThrows(items[1..], had')
  {
    var rest := items[1..];
    if AnyThrows(items, had) {
      var k :| 0 <= k < |items| && Throws(items, k, had);
      assert k > 0;
      ThrowsAtShift(items, had, had', k);
    }
    if AnyThrows(rest, had') {
      var k :| 0 <= k < |rest| && Throws(rest, k, had');
      ThrowsAtShift(items, had, had', k + 1);
    }
  }

  lemma ThrowsAtShift(items: seq<Item>, had: bool, had': bool, k: nat)
    requires 0 < k < |items|
    requires had' == (had || items[0].Tempo?)
    ensures Throws(items, k, had) <==> Throws(items[1..], k - 1, had')
  {
    var rest := items[1..];
    assert rest[k - 1] == items[k];
    assert NoTempoBefore(items, k) <==> !items[0].Tempo? && NoTempoBefore(rest, k - 1) by {
      if NoTempoBefore(items, k) {
        forall j | 0 <= j < k - 1 && j < |rest|
          ensures !rest[j].Tempo?
        {
          assert rest[j] == items[j + 1];
        }
      }
      if !items[0].Tempo? && NoTempoBefore(rest, k - 1) {
        forall j | 0 <= j < k && j < |items|
          ensures !items[j].Tempo?
        {
          if j > 0 {
            assert items[j] == rest[j - 1];
          }
        }
      }
    }
  }

  /** `Chart.Parse` on the lines of a chart file: the level scan, then the
      outer loop from an empty chart at offset zero and measure zero. */
  function Parse(lines: seq<string>): (r: Option<Chart>)
    requires PositiveTempi(lines)
    ensures r.Some? ==> Valid(r.value.cells) && r.value.level == ScanLevel(lines)
  {
    var start := Build(Chart(ScanLevel(lines), [], Empty, 0, {}, false), 0.0, 0);
    match Compile(start, Items(lines))
    case None => None
    case Some(b) => Some(b.chart)
  }

  /** A chart file fails to parse exactly when one of its measure blocks
      comes before any tempo line or has a row count that is not a
      multiple of four. */
  lemma ParseFails(lines: seq<string>)
    requires PositiveTempi(lines)
    ensures Parse(lines).None? <==> AnyThrows(Items(lines), false)
  {
    var start := Build(Chart(ScanLevel(lines), [], Empty, 0, {}, false), 0.0, 0);
    CompileFails(start, Items(lines));
  }

  /** The outer loop keeps the chart invariant. */
  lemma {:induction false} CompileKeeps(st: Build, items: seq<Item>)
    requires Inv(st.chart) && BpmsPositive(st.chart.bpms) && Compilable(items)
    ensures Compile(st, items).Some? ==> Inv(Compile(st, items).value.chart)
    decreases |items|
  {
    if |items| > 0 {
      CompilableRest(items);
      var s := Step(st, items[0]);
      if s.Some? {
        assert Compile(st, items) == Compile(s.value, items[1..]);
        StepInv(st, items[0]);
        CompileKeeps(s.value, items[1..]);
      }
    }
  }

  /** A step appends the item's own tempo directive, if any. */
  lemma StepTempo(st: Build, item: Item)
    requires Valid(st.chart.cells) && BpmsPositive(st.chart.bpms)
    requires item.Tempo? ==> item.bpm > 0.0
    requires item.Block? ==> Measure.RowsWide(item.rows)
    ensures Step(st, item).Some? ==> Step(st, item).value.chart.bpms == st.chart.bpms + TempoOf(item)
  {
  }

  /** The tempo list grows by exactly the tempo directives, in file order. */
  lemma {:induction false} CompileTempi(st: Build, items: seq<Item>)
    requires Valid(st.chart.cells) && BpmsPositive(st.chart.bpms) && Compilable(items)
    ensures Compile(st, items).Some? ==> Compile(st, items).value.chart.bpms == st.chart.bpms + TemposOf(items)
    decreases |items|
  {
    if |items| == 0 {
      assert st.chart.bpms + [] == st.chart.bpms;
    } else {
      CompilableRest(items);
      var s := Step(st, items[0]);
      if s.Some? {
        var rest := Compile(s.value, items[1..]);
        assert Compile(st, items) == rest;
        if rest.Some? {
          StepTempo(st, items[0]);
          CompileTempi(s.value, items[1..]);
          var a, b, c := st.chart.bpms, TempoOf(items[0]), TemposOf(items[1..]);
          assert rest.value.chart.bpms == (a + b) + c;
          assert TemposOf(items) == b + c;
          SeqAssoc(a, b, c);
        }
      }
    }
  }

  /** A parsed chart keeps the invariant, so it lists no more notes than it
      counted, and its tempo list is the file's tempo directives. */
  lemma ParsedChart(lines: seq<string>)
    requires PositiveTempi(lines)
    ensures Parse(lines).Some? ==> Inv(Parse(lines).value)
    ensures Parse(lines).Some? ==> |NoteList(Parse(lines).value)| <= Parse(lines).value.noteCount
    ensures Parse(lines).Some? ==> Parse(lines).value.bpms == TemposOf(Items(lines))
  {
    var start := Build(Chart(ScanLevel(lines), [], Empty, 0, {}, false), 0.0, 0);
    var items := Items(lines);
    assert Compilable(items);
    EmptyInv(ScanLevel(lines));
    CompiledFrom(start, items);
  }

  /** The outer loop run from an empty chart: the invariant holds at the end
      and the tempo list is exactly the items' tempo directives. */
  lemma CompiledFrom(start: Build, items: seq<Item>)
    requires Inv(start.chart) && start.chart.bpms == [] && Compilable(items)
    ensures Compile(start, items).Some? ==> Inv(Compile(start, items).value.chart)
    ensures Compile(start, items).Some? ==>
              |NoteList(Compile(start, items).value.chart)| <= Compile(start, items).value.chart.noteCount
    ensures Compile(start, items).Some? ==> Compile(start, items).value.chart.bpms == TemposOf(items)
  {
    CompileKeeps(start, items);
    CompileTempi(start, items);
    assert [] + TemposOf(items) == TemposOf(items);
  }
}
