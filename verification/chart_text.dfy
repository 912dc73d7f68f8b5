/**
  Line classification of a chart file (the static helpers of `Chart` in
  MusicManager.cs): the note-glyph grammar `NoteRegex`, the BPM and level
  directives, comment stripping, the level scan, and the split of the file
  into tempo directives and measure blocks that `Chart.Parse` performs.
*/
module ChartText {
  import opened Wrappers
  import opened Text

  // ---------------------------------------------------------------------
  // Glyphs
  // ---------------------------------------------------------------------

  /** The character class `[口□①-⑳┼｜┃━―∨∧^>＞＜<ＶＡ-Ｚ]` of `NoteRegex`. */
  predicate IsGlyph(c: char) {
    || c == '\U{53E3}'                    // 口
    || c == '\U{25A1}'                    // □
    || ('\U{2460}' <= c <= '\U{2473}')    // ① .. ⑳
    || c == '\U{253C}'                    // ┼
    || c == '\U{FF5C}'                    // ｜
    || c == '\U{2503}'                    // ┃
    || c == '\U{2501}'                    // ━
    || c == '\U{2015}'                    // ―
    || c == '\U{2228}'                    // ∨
    || c == '\U{2227}'                    // ∧
    || c == '^' || c == '>'
    || c == '\U{FF1E}'                    // ＞
    || c == '\U{FF1C}'                    // ＜
    || c == '<'
    || c == '\U{FF36}'                    // Ｖ
    || ('\U{FF21}' <= c <= '\U{FF3A}')    // Ａ .. Ｚ
  }

  predicate AllGlyphs(s: string) {
    forall i :: 0 <= i < |s| ==> IsGlyph(s[i])
  }

  predicate NoNewline(s: string) {
    forall i :: 0 <= i < |s| ==> s[i] != '\n'
  }

  // ---------------------------------------------------------------------
  // NoteRegex: ^([G]{4}|([G]{4}\|.+(\|)?))$
  // ---------------------------------------------------------------------

  /** The .NET `$` anchor without `Multiline`: the end of the text, or just
      before a final line feed. */
  predicate EndAnchor(s: string, p: nat) {
    p == |s| || (p == |s| - 1 && s[p] == '\n')
  }

  /** Matches `.+(\|)?$` from `p`, `n` characters of `.+` being already
      consumed; `.` is any character but a line feed. */
  predicate DotsThenEnd(s: string, p: nat, n: nat)
    requires p <= |s|
    decreases |s| - p
  {
    || (n >= 1 && (EndAnchor(s, p) || (p < |s| && s[p] == '|' && EndAnchor(s, p + 1))))
    || (p < |s| && s[p] != '\n' && DotsThenEnd(s, p + 1, n + 1))
  }

  /** `Chart.IsNoteText`: a match of `NoteRegex`, tried alternative by
      alternative as the regex engine does. */
  predicate IsNoteText(s: string) {
    && |s| >= 4
    && AllGlyphs(s[..4])
    && (EndAnchor(s, 4) || (|s| > 4 && s[4] == '|' && DotsThenEnd(s, 5, 0)))
  }

  /** The shape of a note line: four glyphs, or four glyphs, a bar and at
      least one more character, none of them a line feed. */
  predicate NoteShape(t: string) {
    || (|t| == 4 && AllGlyphs(t))
    || (|t| >= 6 && AllGlyphs(t[..4]) && t[4] == '|' && NoNewline(t[5..]))
  }

  /** What `.+(\|)?$` accepts: the rest is free of line feeds (apart from a
      final one) and `.+` gets at least one character. */
  lemma {:induction false} DotsThenEndShape(s: string, p: nat, n: nat)
    requires p <= |s|
    ensures DotsThenEnd(s, p, n) <==>
            || (NoNewline(s[p..]) && n + (|s| - p) >= 1)
            || (p < |s| && s[|s| - 1] == '\n' && NoNewline(s[p..|s| - 1]) && n + (|s| - 1 - p) >= 1)
    decreases |s| - p
  {
    if p < |s| {
      DotsThenEndShape(s, p + 1, n + 1);
      assert s[p..] == [s[p]] + s[p + 1..];
      if p < |s| - 1 {
        assert s[p..|s| - 1] == [s[p]] + s[p + 1..|s| - 1];
      }
    }
  }

  /** `IsNoteText` holds exactly for the note shape, optionally followed by
      one line feed that the `$` anchor lets through. */
  lemma NoteTextShape(s: string)
    ensures IsNoteText(s) <==>
            NoteShape(s) || (|s| > 0 && s[|s| - 1] == '\n' && NoteShape(s[..|s| - 1]))
  {
    if |s| > 4 {
      DotsThenEndShape(s, 5, 0);
      if |s| > 5 {
        assert s[..|s| - 1][5..] == s[5..|s| - 1];
      }
    }
    if |s| >= 5 {
      assert s[..|s| - 1][..4] == s[..4];
    }
  }

  /** For a line without line feeds (every line a file yields), `IsNoteText`
      holds iff the line is four glyphs, or four glyphs, `|` and at least
      one more character. */
  lemma NoteTextOfLine(s: string)
    requires NoNewline(s)
    ensures IsNoteText(s) <==>
            || (|s| == 4 && AllGlyphs(s))
            || (|s| >= 6 && AllGlyphs(s[..4]) && s[4] == '|')
  {
    NoteTextShape(s);
    if |s| >= 6 {
      assert NoNewline(s[5..]);
    }
  }

  // ---------------------------------------------------------------------
  // Directives and comments
  // ---------------------------------------------------------------------

  /** `Chart.IsBpmText`: starts, case-insensitively, with `bpm` or `t=`. */
  predicate IsBpmText(text: string): (b: bool)
    ensures b <==> StartsWithIgnoreCase(text, "bpm") || StartsWithIgnoreCase(text, "t=")
  {
    LowerPrefix(text, "bpm");
    LowerPrefix(text, "t=");
    "bpm" <= Lower(text) || "t=" <= Lower(text)
  }

  /** A tempo line is never a note line, so it ends a measure block. */
  lemma BpmTextIsNotNoteText(text: string)
    requires IsBpmText(text)
    ensures !IsNoteText(text)
  {
    assert Lower(text)[0] == LowerChar(text[0]);
  }

  /** The part of a line before its comment: the text up to the first `//`,
      unless that `//` opens the line, in which case nothing is cut. */
  function Uncommented(text: string): (u: string)
    ensures |u| <= |text| && u == text[..|u|]
    ensures |u| < |text| <==> !CommentAt(text, 0) && exists j :: 0 < j < |text| && CommentAt(text, j)
    ensures |u| < |text| ==> CommentAt(text, |u|) && forall j :: 0 <= j < |u| ==> !CommentAt(text, j)
  {
    match CommentIndex(text, 0)
    case Some(i) => if i > 0 then text[..i] else text
    case None => text
  }

  /** `Chart.RemoveComment`: cut at the first `//` unless it is at index 0,
      trim, then drop every U+0020. What is left is every other character
      of the trimmed uncommented part. */
  function RemoveComment(text: string): (r: string)
    ensures forall i :: 0 <= i < |r| ==> r[i] != ' '
    ensures Trimmed(r)
    ensures multiset(r) == multiset(Trim(Uncommented(text)))[' ' := 0]
    ensures |r| <= |Uncommented(text)|
  {
    var kept := Trim(Uncommented(text));
    SpacesKeepTrimmed(kept);
    RemoveSpaces(kept)
  }

  /** A line without `//` is only trimmed and stripped of spaces. */
  lemma NoCommentKept(text: string)
    requires CommentIndex(text, 0).None?
    ensures RemoveComment(text) == RemoveSpaces(Trim(text))
  {
    assert Uncommented(text) == text;
  }

  /** Everything from the first `//` past index 0 on plays no part. */
  lemma CommentDropped(text: string, i: nat)
    requires CommentIndex(text, 0) == Some(i) && i > 0
    ensures RemoveComment(text) == RemoveComment(text[..i])
  {
    var pre := text[..i];
    forall j | 0 <= j < |pre|
      ensures !CommentAt(pre, j)
    {
      assert CommentAt(pre, j) ==> CommentAt(text, j);
    }
    assert CommentIndex(pre, 0).None?;
  }

  /** `TrimEnd` keeps every character up to the last one that is not white
      space. */
  lemma {:induction false} TrimEndKeeps(s: string, k: nat)
    requires k < |s| && !IsWhiteSpace(s[k])
    ensures |TrimEnd(s)| > k
    decreases |s|
  {
    if IsWhiteSpace(s[|s| - 1]) {
      assert k < |s| - 1;
      assert s[..|s| - 1][k] == s[k];
      TrimEndKeeps(s[..|s| - 1], k);
    }
  }

  /** Trimming a text that starts with `//` keeps the `//`. */
  lemma TrimKeepsSlashes(rest: string)
    ensures var t := Trim("//" + rest); |t| >= 2 && t[..2] == "//"
  {
    var text := "//" + rest;
    assert TrimStart(text) == text;
    TrimEndKeeps(text, 1);
  }

  /** A text starting with `//` is only trimmed and stripped of spaces. */
  lemma SlashesNotCut(text: string)
    requires |text| >= 2 && text[0] == '/' && text[1] == '/'
    ensures RemoveComment(text) == RemoveSpaces(Trim(text))
  {
    assert CommentAt(text, 0);
  }

  lemma SlashesHead(t: string)
    requires |t| >= 2 && t[..2] == "//"
    ensures t == "//" + t[2..]
  {
    assert t == t[..2] + t[2..];
  }

  lemma SlashesHaveNoSpace()
    ensures RemoveSpaces("//") == "//"
  {
    var s := "//";
    assert s[1..] == "/";
    assert "/"[1..] == [];
    assert RemoveSpaces("/") == ['/'] + RemoveSpaces([]);
    assert RemoveSpaces(s) == ['/'] + RemoveSpaces("/");
  }

  /** Comment stripping leaves a leading `//` in place. */
  lemma SlashesStay(rest: string)
    ensures var r := RemoveComment("//" + rest); |r| >= 2 && r[..2] == "//"
  {
    var text := "//" + rest;
    SlashesNotCut(text);
    var t := Trim(text);
    TrimKeepsSlashes(rest);
    SlashesHead(t);
    RemoveSpacesAppend("//", t[2..]);
    SlashesHaveNoSpace();
    var r := "//" + RemoveSpaces(t[2..]);
    assert RemoveComment(text) == r;
    assert r[..2] == "//";
  }

  /** A text that starts with `/` is neither a note line nor a tempo line. */
  lemma SlashIsNoDirective(r: string)
    requires |r| > 0 && r[0] == '/'
    ensures !IsNoteText(r) && !IsBpmText(r)
  {
    assert Lower(r)[0] == '/';
  }

  /** A `//` at index 0 is kept: a whole-line comment is not blank, not a
      note line and not a tempo line, so inside a measure block it ends the
      block. */
  lemma LeadingCommentKept(rest: string)
    ensures var r := RemoveComment("//" + rest);
            |r| >= 2 && r[..2] == "//" && !IsNoteText(r) && !IsBpmText(r)
  {
    SlashesStay(rest);
    var r := RemoveComment("//" + rest);
    assert r[0] == '/';
    SlashIsNoDirective(r);
  }

  // ---------------------------------------------------------------------
  // The level scan
  // ---------------------------------------------------------------------

  /** What a line says about the level once comment-stripped and
      lower-cased: nothing, `lev` without a number, or `lev` with one. */
  datatype LevelLine = NotLevel | LevelWithout | LevelWith(value: real)

  function LevelKind(text: string): (k: LevelLine)
    ensures k.NotLevel? <==> !("lev" <= Lower(RemoveComment(text)))
    ensures k.LevelWith? <==>
            "lev" <= Lower(RemoveComment(text)) && NumberInText(Lower(RemoveComment(text))).Some?
  {
    var line := Lower(RemoveComment(text));
    if !("lev" <= line) then NotLevel
    else match NumberInText(line)
      case Some(v) => LevelWith(v)
      case None => LevelWithout
  }

  /** The scan of `Chart.Parse` from line `i`, `level` holding what the
      `out` argument holds so far: the first level line with a number ends
      the scan; one without a number leaves 0 behind and the scan goes on. */
  function ScanLevelFrom(kinds: seq<LevelLine>, i: nat, level: real): (r: real)
    requires i <= |kinds|
    ensures r == level || r == 0.0 || exists k :: i <= k < |kinds| && kinds[k] == LevelWith(r)
    decreases |kinds| - i
  {
    if i == |kinds| then level
    else match kinds[i]
      case LevelWith(v) => v
      case LevelWithout => ScanLevelFrom(kinds, i + 1, 0.0)
      case NotLevel => ScanLevelFrom(kinds, i + 1, level)
  }

  function LevelKinds(lines: seq<string>): (kinds: seq<LevelLine>)
    ensures |kinds| == |lines|
    ensures forall k :: 0 <= k < |lines| ==> kinds[k] == LevelKind(lines[k])
  {
    seq(|lines|, k requires 0 <= k < |lines| => LevelKind(lines[k]))
  }

  /** The chart level: 1.0 unless some level line says otherwise. */
  function ScanLevel(lines: seq<string>): (r: real)
    ensures r == 1.0 || r == 0.0 || exists k :: 0 <= k < |lines| && LevelKind(lines[k]) == LevelWith(r)
  {
    ScanLevelFrom(LevelKinds(lines), 0, 1.0)
  }

  /** With no level line from `i` on, the scan returns what it holds. */
  lemma {:induction false} NoLevelLineFrom(kinds: seq<LevelLine>, i: nat, level: real)
    requires i <= |kinds|
    requires forall k :: i <= k < |kinds| ==> kinds[k].NotLevel?
    ensures ScanLevelFrom(kinds, i, level) == level
    decreases |kinds| - i
  {
    if i < |kinds| {
      NoLevelLineFrom(kinds, i + 1, level);
    }
  }

  /** Once the scan holds 0, lines without a level number keep it at 0. */
  lemma {:induction false} LevelZeroStays(kinds: seq<LevelLine>, i: nat)
    requires i <= |kinds|
    requires forall j :: i <= j < |kinds| ==> !kinds[j].LevelWith?
    ensures ScanLevelFrom(kinds, i, 0.0) == 0.0
    decreases |kinds| - i
  {
    if i < |kinds| {
      LevelZeroStays(kinds, i + 1);
    }
  }

  /** The first level line carrying a number decides, whatever the level
      lines without one before it did. */
  lemma {:induction false} FirstLevelWins(kinds: seq<LevelLine>, i: nat, level: real, k: nat)
    requires i <= k < |kinds| && kinds[k].LevelWith?
    requires forall j :: i <= j < k ==> !kinds[j].LevelWith?
    ensures ScanLevelFrom(kinds, i, level) == kinds[k].value
    decreases k - i
  {
    if i < k {
      LevelFirstWinsStep(kinds, i, level, k);
    }
  }

  lemma {:induction false} LevelFirstWinsStep(kinds: seq<LevelLine>, i: nat, level: real, k: nat)
    requires i < k < |kinds| && kinds[k].LevelWith?
    requires forall j :: i <= j < k ==> !kinds[j].LevelWith?
    ensures ScanLevelFrom(kinds, i, level) == kinds[k].value
    decreases k - i, 0
  {
    var next := if kinds[i].LevelWithout? then 0.0 else level;
    assert ScanLevelFrom(kinds, i, level) == ScanLevelFrom(kinds, i + 1, next);
    FirstLevelWins(kinds, i + 1, next, k);
  }

  /** Level lines that all lack a number leave the level at 0. */
  lemma {:induction false} LevelWithoutNumberFrom(kinds: seq<LevelLine>, i: nat, level: real, k: nat)
    requires i <= k < |kinds| && kinds[k].LevelWithout?
    requires forall j :: i <= j < |kinds| ==> !kinds[j].LevelWith?
    ensures ScanLevelFrom(kinds, i, level) == 0.0
    decreases k - i
  {
    if i < k {
      var next := if kinds[i].LevelWithout? then 0.0 else level;
      LevelWithoutNumberFrom(kinds, i + 1, next, k);
    } else {
      LevelZeroStays(kinds, i + 1);
    }
  }

  /** Without a level line the level is 1.0. */
  lemma LevelDefault(lines: seq<string>)
    requires forall k :: 0 <= k < |lines| ==> !("lev" <= Lower(RemoveComment(lines[k])))
    ensures ScanLevel(lines) == 1.0
  {
    NoLevelLineFrom(LevelKinds(lines), 0, 1.0);
  }

  /** The first level line with a number sets the level to that number. */
  lemma LevelFirstNumber(lines: seq<string>, k: nat)
    requires k < |lines| && LevelKind(lines[k]).LevelWith?
    requires forall j :: 0 <= j < k ==> !LevelKind(lines[j]).LevelWith?
    ensures ScanLevel(lines) == LevelKind(lines[k]).value
  {
    FirstLevelWins(LevelKinds(lines), 0, 1.0, k);
  }

  /** A level line without a number sets the level to 0 and the scan goes
      on; if no later line carries a number, 0 is the level. */
  lemma LevelWithoutNumber(lines: seq<string>, k: nat)
    requires k < |lines| && LevelKind(lines[k]).LevelWithout?
    requires forall j :: 0 <= j < |lines| ==> !LevelKind(lines[j]).LevelWith?
    ensures ScanLevel(lines) == 0.0
  {
    var kinds := LevelKinds(lines);
    forall j | 0 <= j < |kinds| ensures !kinds[j].LevelWith? {
      assert kinds[j] == LevelKind(lines[j]);
    }
    LevelWithoutNumberFrom(kinds, 0, 1.0, k);
  }

  // ---------------------------------------------------------------------
  // Measure blocks
  // ---------------------------------------------------------------------

  /** The role a line plays in `Chart.Parse` once comment-stripped. */
  datatype LineKind =
    | BlankLine                                        // skipped everywhere
    | TempoLine(bpm: real)                             // `bpm`/`t=` with a number
    | NoteRow(grid: string, timing: Option<string>)    // matches NoteRegex
    | OtherLine                                        // anything else

  /** The grid part of a note line: its first four characters. */
  function GridPart(line: string): (r: string)
    requires |line| >= 4
    ensures |r| == 4 && r == line[..4]
  {
    line[..4]
  }

  /** The timing code of a note line: `line[4..].Trim().Split("|")[1].Trim()`
      when the split yields more than one field. */
  function TimingPart(line: string): (r: Option<string>)
    requires |line| >= 4
    ensures r.None? <==> forall j :: 0 <= j < |Trim(line[4..])| ==> Trim(line[4..])[j] != '|'
    ensures r.Some? ==> Trimmed(r.value)
    ensures r.Some? ==> exists i, e :: SecondFieldAt(Trim(line[4..]), '|', i, e)
                                       && r.value == Trim(Trim(line[4..])[i + 1..e])
  {
    match SecondField(Trim(line[4..]), '|')
    case None => None
    case Some(f) => Some(Trim(f))
  }

  /** The classification the branches of `Chart.Parse` make. A tempo line
      is tested first, and a tempo text is never note text. */
  function Classify(text: string): (k: LineKind)
    ensures k.BlankLine? <==> |RemoveComment(text)| == 0
    ensures k.NoteRow? <==> |RemoveComment(text)| > 0 && IsNoteText(RemoveComment(text))
    ensures k.NoteRow? ==> |k.grid| == 4 && AllGlyphs(k.grid)
    ensures k.TempoLine? <==>
            |RemoveComment(text)| > 0 && IsBpmText(RemoveComment(text)) && NumberInText(RemoveComment(text)).Some?
    ensures k.TempoLine? ==> k.bpm == NumberInText(RemoveComment(text)).value
    ensures k.NoteRow? ==> |RemoveComment(text)| >= 4 && k.grid == RemoveComment(text)[..4]
                           && k.timing == TimingPart(RemoveComment(text))
  {
    var line := RemoveComment(text);
    if |line| < 1 then BlankLine
    else if IsBpmText(line) && NumberInText(line).Some? then
      BpmTextIsNotNoteText(line);
      TempoLine(NumberInText(line).value)
    else if IsNoteText(line) then NoteRow(GridPart(line), TimingPart(line))
    else OtherLine
  }

  function Kinds(lines: seq<string>): (kinds: seq<LineKind>)
    ensures |kinds| == |lines|
    ensures forall k :: 0 <= k < |lines| ==> kinds[k] == Classify(lines[k])
  {
    seq(|lines|, k requires 0 <= k < |lines| => Classify(lines[k]))
  }

  /** Lines a measure block runs through. */
  predicate InBlock(k: LineKind) {
    k.BlankLine? || k.NoteRow?
  }

  /** Where the block scan started at `j` stops: the first line that is
      neither blank nor a note line (a tempo line included), or the end of
      the file. That line is not consumed; the outer scan sees it again. */
  function BlockEnd(kinds: seq<LineKind>, j: nat): (e: nat)
    requires j <= |kinds|
    ensures j <= e <= |kinds|
    ensures forall k :: j <= k < e ==> InBlock(kinds[k])
    ensures e < |kinds| ==> !InBlock(kinds[e])
    decreases |kinds| - j
  {
    if j == |kinds| then j
    else if InBlock(kinds[j]) then BlockEnd(kinds, j + 1)
    else j
  }

  /** A tempo line ends the block it follows. */
  lemma BlockStopsAtTempo(lines: seq<string>, j: nat, k: nat)
    requires j <= k < |lines|
    requires IsBpmText(RemoveComment(lines[k])) && NumberInText(RemoveComment(lines[k])).Some?
    ensures BlockEnd(Kinds(lines), j) <= k
  {
    BpmTextIsNotNoteText(RemoveComment(lines[k]));
  }

  /** A whole-line comment inside a block ends it as well. */
  lemma BlockStopsAtComment(lines: seq<string>, j: nat, k: nat, rest: string)
    requires j <= k < |lines| && lines[k] == "//" + rest
    ensures BlockEnd(Kinds(lines), j) <= k
  {
    LeadingCommentKept(rest);
  }

  /** One directive or measure block, in file order. */
  datatype Item =
    | Tempo(bpm: real)
    | Block(rows: seq<string>, timings: seq<string>)

  /** The grid rows of the block lines `[i, e)`, blank lines skipped. */
  function BlockRows(kinds: seq<LineKind>, i: nat, e: nat): (rows: seq<string>)
    requires i <= e <= |kinds|
    decreases e - i
  {
    if i == e then []
    else match kinds[i]
      case NoteRow(g, _) => [g] + BlockRows(kinds, i + 1, e)
      case _ => BlockRows(kinds, i + 1, e)
  }

  /** The timing codes of the block lines `[i, e)`, in order. */
  function BlockTimings(kinds: seq<LineKind>, i: nat, e: nat): seq<string>
    requires i <= e <= |kinds|
    decreases e - i
  {
    if i == e then []
    else match kinds[i]
      case NoteRow(_, Some(t)) => [t] + BlockTimings(kinds, i + 1, e)
      case _ => BlockTimings(kinds, i + 1, e)
  }

  /** Every note row is four characters wide. */
  predicate RowsFourWide(kinds: seq<LineKind>) {
    forall k :: 0 <= k < |kinds| && kinds[k].NoteRow? ==> |kinds[k].grid| == 4
  }

  /** Every block has at least one row and every row is four wide. */
  predicate WellFormed(items: seq<Item>) {
    forall k :: 0 <= k < |items| && items[k].Block? ==>
      |items[k].rows| >= 1 && forall r :: 0 <= r < |items[k].rows| ==> |items[k].rows[r]| == 4
  }

  predicate TempiPositive(items: seq<Item>) {
    forall k :: 0 <= k < |items| && items[k].Tempo? ==> items[k].bpm > 0.0
  }

  /** The rows of a block are the grid parts of its note rows. */
  lemma {:induction false} BlockRowsShape(kinds: seq<LineKind>, i: nat, e: nat)
    requires i <= e <= |kinds| && RowsFourWide(kinds)
    ensures forall r :: 0 <= r < |BlockRows(kinds, i, e)| ==> |BlockRows(kinds, i, e)[r]| == 4
    ensures i < e && kinds[i].NoteRow? ==> |BlockRows(kinds, i, e)| >= 1
    decreases e - i
  {
    if i < e {
      BlockRowsShape(kinds, i + 1, e);
    }
  }

  /** The block that the note line `i` opens. */
  function BlockAt(kinds: seq<LineKind>, i: nat): (b: Item)
    requires i < |kinds| && kinds[i].NoteRow? && RowsFourWide(kinds)
    ensures b.Block? && |b.rows| >= 1
    ensures forall r :: 0 <= r < |b.rows| ==> |b.rows[r]| == 4
  {
    var e := BlockEnd(kinds, i);
    BlockRowsShape(kinds, i, e);
    Block(BlockRows(kinds, i, e), BlockTimings(kinds, i, e))
  }

  /** The outer loop of `Chart.Parse` from line `i`: blank lines and lines
      of no known kind are skipped, a tempo line yields a `Tempo`, and a
      note line opens a block that runs to `BlockEnd`, where the loop
      resumes. */
  function Segment(kinds: seq<LineKind>, i: nat): (items: seq<Item>)
    requires i <= |kinds| && RowsFourWide(kinds)
    ensures WellFormed(items)
    ensures (forall k :: i <= k < |kinds| && kinds[k].TempoLine? ==> kinds[k].bpm > 0.0)
            ==> TempiPositive(items)
    decreases |kinds| - i
  {
    if i == |kinds| then []
    else match kinds[i]
      case TempoLine(v) => [Tempo(v)] + Segment(kinds, i + 1)
      case NoteRow(_, _) => [BlockAt(kinds, i)] + Segment(kinds, BlockEnd(kinds, i))
      case _ => Segment(kinds, i + 1)
  }

  /** The tempo directives of one item. */
  function TempoOf(item: Item): (r: seq<real>)
    ensures |r| <= 1
    ensures |r| == 1 <==> item.Tempo?
  {
    if item.Tempo? then [item.bpm] else []
  }

  /** The tempo directives among the items, in order. */
  function TemposOf(items: seq<Item>): seq<real> {
    if |items| == 0 then [] else TempoOf(items[0]) + TemposOf(items[1..])
  }

  /** The grid rows of all blocks among the items, in order. */
  function RowsOf(items: seq<Item>): seq<string> {
    if |items| == 0 then []
    else (if items[0].Block? then items[0].rows else []) + RowsOf(items[1..])
  }

  /** The timing codes of all blocks among the items, in order. */
  function TimingsOf(items: seq<Item>): seq<string> {
    if |items| == 0 then []
    else (if items[0].Block? then items[0].timings else []) + TimingsOf(items[1..])
  }

  /** The tempo values of the tempo lines from `i` on, in file order. */
  function LineTempi(kinds: seq<LineKind>, i: nat): seq<real>
    requires i <= |kinds|
    decreases |kinds| - i
  {
    if i == |kinds| then []
    else (if kinds[i].TempoLine? then [kinds[i].bpm] else []) + LineTempi(kinds, i + 1)
  }

  /** Block lines carry no tempo. */
  lemma {:induction false} BlockHasNoTempo(kinds: seq<LineKind>, i: nat, e: nat)
    requires i <= e <= |kinds|
    requires forall k :: i <= k < e ==> InBlock(kinds[k])
    ensures LineTempi(kinds, i) == LineTempi(kinds, e)
    decreases e - i
  {
    if i < e {
      BlockHasNoTempo(kinds, i + 1, e);
    }
  }

  lemma {:induction false} BlockRowsSplit(kinds: seq<LineKind>, i: nat, m: nat, e: nat)
    requires i <= m <= e <= |kinds|
    ensures BlockRows(kinds, i, e) == BlockRows(kinds, i, m) + BlockRows(kinds, m, e)
    decreases m - i
  {
    if i < m {
      BlockRowsSplit(kinds, i + 1, m, e);
      match kinds[i]
      case NoteRow(g, _) =>
        assert BlockRows(kinds, i, e) == [g] + BlockRows(kinds, i + 1, e);
        assert BlockRows(kinds, i, m) == [g] + BlockRows(kinds, i + 1, m);
        SeqAssoc([g], BlockRows(kinds, i + 1, m), BlockRows(kinds, m, e));
      case _ =>
    }
  }

  lemma {:induction false} BlockTimingsSplit(kinds: seq<LineKind>, i: nat, m: nat, e: nat)
    requires i <= m <= e <= |kinds|
    ensures BlockTimings(kinds, i, e) == BlockTimings(kinds, i, m) + BlockTimings(kinds, m, e)
    decreases m - i
  {
    if i < m {
      BlockTimingsSplit(kinds, i + 1, m, e);
      match kinds[i]
      case NoteRow(_, Some(t)) =>
        assert BlockTimings(kinds, i, e) == [t] + BlockTimings(kinds, i + 1, e);
        assert BlockTimings(kinds, i, m) == [t] + BlockTimings(kinds, i + 1, m);
        SeqAssoc([t], BlockTimings(kinds, i + 1, m), BlockTimings(kinds, m, e));
      case _ =>
    }
  }

  lemma SeqAssoc<T>(a: seq<T>, b: seq<T>, c: seq<T>)
    ensures (a + b) + c == a + (b + c)
  {
  }

  /** The first item, then the rest. */
  lemma ItemsCons(x: Item, rest: seq<Item>)
    ensures TemposOf([x] + rest) == TempoOf(x) + TemposOf(rest)
    ensures RowsOf([x] + rest) == (if x.Block? then x.rows else []) + RowsOf(rest)
    ensures TimingsOf([x] + rest) == (if x.Block? then x.timings else []) + TimingsOf(rest)
  {
    assert ([x] + rest)[1..] == rest;
  }

  /** The tempo items are the tempo lines, in file order. */
  lemma {:induction false} SegmentTempi(kinds: seq<LineKind>, i: nat)
    requires i <= |kinds| && RowsFourWide(kinds)
    ensures TemposOf(Segment(kinds, i)) == LineTempi(kinds, i)
    decreases |kinds| - i
  {
    if i < |kinds| {
      match kinds[i]
      case TempoLine(v) =>
        SegmentTempi(kinds, i + 1);
        ItemsCons(Tempo(v), Segment(kinds, i + 1));
      case NoteRow(_, _) =>
        var e := BlockEnd(kinds, i);
        SegmentTempi(kinds, e);
        ItemsCons(BlockAt(kinds, i), Segment(kinds, e));
        BlockHasNoTempo(kinds, i, e);
      case _ =>
        SegmentTempi(kinds, i + 1);
    }
  }

  /** The block rows, concatenated, are the grid parts of the note lines,
      and the block timing codes are those of the note lines, in order:
      no note line is dropped and none is read twice. */
  lemma {:induction false} SegmentRows(kinds: seq<LineKind>, i: nat)
    requires i <= |kinds| && RowsFourWide(kinds)
    ensures RowsOf(Segment(kinds, i)) == BlockRows(kinds, i, |kinds|)
    ensures TimingsOf(Segment(kinds, i)) == BlockTimings(kinds, i, |kinds|)
    decreases |kinds| - i
  {
    if i < |kinds| {
      match kinds[i]
      case TempoLine(v) =>
        SegmentRows(kinds, i + 1);
        ItemsCons(Tempo(v), Segment(kinds, i + 1));
      case NoteRow(_, _) =>
        var e := BlockEnd(kinds, i);
        SegmentRows(kinds, e);
        ItemsCons(BlockAt(kinds, i), Segment(kinds, e));
        BlockRowsSplit(kinds, i, e, |kinds|);
        BlockTimingsSplit(kinds, i, e, |kinds|);
      case _ =>
        SegmentRows(kinds, i + 1);
    }
  }

  /** Every tempo directive in the file is positive. */
  predicate PositiveTempi(lines: seq<string>) {
    forall k :: 0 <= k < |lines| && Classify(lines[k]).TempoLine? ==> Classify(lines[k]).bpm > 0.0
  }

  /** The items of a chart file in order. They carry exactly the tempo
      values, grid rows and timing codes of the classified lines, in file
      order. */
  function Items(lines: seq<string>): (items: seq<Item>)
    ensures WellFormed(items)
    ensures PositiveTempi(lines) ==> TempiPositive(items)
    ensures TemposOf(items) == LineTempi(Kinds(lines), 0)
    ensures RowsOf(items) == BlockRows(Kinds(lines), 0, |lines|)
    ensures TimingsOf(items) == BlockTimings(Kinds(lines), 0, |lines|)
  {
    var kinds := Kinds(lines);
    SegmentTempi(kinds, 0);
    SegmentRows(kinds, 0);
    Segment(kinds, 0)
  }
}
