# LeinJUBEAT chart compiler and scorer, in Dafny

LeinJUBEAT is a rhythm game on a 4×4 grid of buttons. This project models
its two deterministic parts and proves properties of them.

**The chart compiler** (`Chart`, `Note` and `Measure` in
`Assets/Scripts/MusicManager.cs`) turns the lines of a chart text file into
timed notes:

- Comment stripping and line classification. A line can be a tempo (`t=` /
  `bpm`) directive, a note row of four glyphs with an optional `|timing`
  suffix, or something else.
- The `lev` scan.
- Measure blocks. Their rows are packed into 4×4 grids.
- The timing map. Every timing character gets the moment it is read.
- The arrow pass. It turns arrow glyphs into long notes.
- The plain pass, which emits the plain notes.
- The per-cell start-time insertion of `Measure.AddNote`.
- `Chart.AddNote`, where the next note on a cell closes an open long note.
- `NoteList`.
- The two grid transforms of a note, `Rotate` and `Random(row, column)`.

**The judgement scorer** (`Assets/Scripts/GameManager.cs`) covers:

- `AddScore`: early/late tallies, combo, per-measure histogram and the
  shutter meter clamped to [0, 1024].
- `Score` and `ShutterScore`.
- The reset when the game scene loads.
- The line rewrite of `ModifyMusicOffset`.

Every mutating method is a function from state to state. Times and tempi
are `real`, and C# `int` division and remainder are written out as
truncating (`Int32`).

Modules, one per file, in dependency order:

| file | module | models |
|---|---|---|
| wrappers.dfy | Wrappers | `Option` |
| int32.dfy | Int32 | C# `/`, `%` and 32-bit wrap-around |
| text.dfy | Text | `Trim`, `Replace(" ", "")`, `IndexOf`, `ToLower`, `StartsWith(…, OrdinalIgnoreCase)`, the `-?\d+(\.\d+)?` scan |
| chart_text.dfy | ChartText | `NoteRegex`, `IsNoteText`, `IsBpmText`, `RemoveComment`, the level scan, the line and block scanning of `Parse` |
| notes.dfy | Notes | `Note`, its constructors, `IsLong`, `Rotate`, `Random(row, column)`, start-time insertion and the stable sort |
| buckets.dfy | Buckets | the `Dictionary<int, List<Note>>` of per-cell lists, in key insertion order |
| timing.dfy | Timing | the timing map of `Measure.Convert` |
| grid.dfy | Grid | the arrow pass and the plain pass over one 4×4 grid |
| measure.dfy | Measure | `AddNotePositionText`, `Measure.AddNote`, `Convert` |
| chart.dfy | Charts | `Chart.AddNote`, `NoteList`, `Parse` |
| scorer.dfy | Scorer | `AddScore`, `Score`, `ShutterScore`, the in-game reset |
| sync.dfy | Sync | the line rewrite of `ModifyMusicOffset` |

## Model

| member | source | states |
|---|---|---|
| Int32.TruncDiv | Assets/Scripts/MusicManager.cs:586 | C# integer division truncates toward zero: the quotient times the divisor brackets the dividend from the side of zero |
| Int32.TruncDivInRange | Assets/Scripts/GameManager.cs:77-81 | a truncated quotient of a 32-bit value by a positive divisor is a 32-bit value |
| Int32.TruncRem | Assets/Scripts/MusicManager.cs:586 | C# `%`: the dividend is the truncated quotient times the divisor plus the remainder, which takes the dividend's sign and stays below the divisor in magnitude |
| Int32.Wrap | Assets/Scripts/GameManager.cs:77-81 | the 32-bit value of an unchecked `int` result: in range, congruent modulo 2^32, and unchanged when no overflow occurs |
| Text.TrimStart | Assets/Scripts/MusicManager.cs:374 | `TrimStart` removes exactly the leading white space and keeps the rest |
| Text.TrimEnd | Assets/Scripts/MusicManager.cs:374 | `TrimEnd` removes exactly the trailing white space |
| Text.Trim | Assets/Scripts/MusicManager.cs:374 | the result is a contiguous window of the input with only white space before and after it, is trimmed at both ends, and is the input itself when that is already trimmed |
| Text.RemoveSpaces | Assets/Scripts/MusicManager.cs:374 | `Replace(" ", "")` leaves no U+0020 and keeps every other character, with its multiplicity |
| Text.RemoveSpacesAppend | Assets/Scripts/MusicManager.cs:374 | space removal distributes over concatenation |
| Text.SpacesKeepTrimmed | Assets/Scripts/MusicManager.cs:374 | removing spaces from a trimmed text leaves it trimmed |
| Text.CommentIndex | Assets/Scripts/MusicManager.cs:373 | `IndexOf("//")` returns the first position where `//` starts, and none exactly when no such position exists |
| Text.IndexOfChar | Assets/Scripts/MusicManager.cs:449 | the first position holding the character, and none exactly when the character is absent |
| Text.SecondField | Assets/Scripts/MusicManager.cs:449-451 | `Split("|")[1]` exists exactly when a bar is present, and is then the text strictly between the first bar and the next bar or the end |
| Text.Lower | Assets/Scripts/MusicManager.cs:384 | `ToLower` keeps the length and lower-cases each ASCII capital, leaving other characters |
| Text.LowerPrefix | Assets/Scripts/MusicManager.cs:384-385 | testing a lower-case prefix against the lower-cased text is the case-insensitive prefix test |
| Text.DigitRun | Assets/Scripts/MusicManager.cs:367 | the `\d+` run at a position is all digits and stops before a non-digit or at the end |
| Text.NumberFrom | Assets/Scripts/MusicManager.cs:365-369 | the scan finds no number exactly when no position from the start point begins `-?\d` |
| Text.NumberInText | Assets/Scripts/MusicManager.cs:365-369 | `TryParseDoubleInText` fails exactly when the text holds no `-?\d` |
| Text.Decimal | Assets/Scripts/MusicManager.cs:365-369 | rendering a natural number gives one or more digits |
| Text.DecimalValue | Assets/Scripts/MusicManager.cs:365-369 | reading back the digits of a rendered number gives the number |
| Text.NumberSkipsPrefix | Assets/Scripts/MusicManager.cs:367 | the leftmost match is not affected by a prefix without digits or minus signs |
| Text.NumberAtDecimal | Assets/Scripts/MusicManager.cs:367-368 | a rendered integer, optionally signed and not followed by a digit or point, is read back as its value |
| Text.NumberInDecimalText | Assets/Scripts/MusicManager.cs:365-369 | round trip: after a prefix without digits or minus signs, the first number found in the text is the number written |
| ChartText.DotsThenEndShape | Assets/Scripts/MusicManager.cs:288 | `.+(\|)?$` matches exactly when at least one character follows and no line feed occurs except possibly a final one |
| ChartText.NoteTextShape | Assets/Scripts/MusicManager.cs:377-380 | `IsNoteText` holds iff the text is four glyphs, or four glyphs, a bar and at least one more character, optionally followed by a final line feed |
| ChartText.NoteTextOfLine | Assets/Scripts/MusicManager.cs:377-380 | for a line without line feeds, `IsNoteText` holds iff it is four glyphs, or four glyphs, `|`, and at least one more character |
| ChartText.BpmTextIsNotNoteText | Assets/Scripts/MusicManager.cs:382-386 | a tempo text is never note text, so a tempo line ends a measure block |
| ChartText.IsBpmText | Assets/Scripts/MusicManager.cs:382-386 | a text is tempo text exactly when it starts, ignoring ASCII case, with `bpm` or `t=` |
| ChartText.RemoveComment | Assets/Scripts/MusicManager.cs:371-375 | the stripped line holds no space, is trimmed, and holds exactly the non-space characters of the trimmed text before the first `//` past index 0, with their multiplicities |
| ChartText.Uncommented | Assets/Scripts/MusicManager.cs:373-374 | the kept part is a prefix of the line; it is shorter exactly when a `//` occurs past index 0 and none at 0, and it then ends at the first `//` |
| ChartText.NoCommentKept | Assets/Scripts/MusicManager.cs:371-375 | without any `//` the line is only trimmed and stripped of spaces |
| ChartText.CommentDropped | Assets/Scripts/MusicManager.cs:371-375 | when the first `//` is past index 0, nothing from it on affects the result |
| ChartText.TrimKeepsSlashes | Assets/Scripts/MusicManager.cs:374 | trimming a text that starts with `//` keeps the `//` at its head |
| ChartText.SlashesNotCut | Assets/Scripts/MusicManager.cs:371-375 | a `//` at index 0 is not cut: the line is only trimmed and stripped of spaces |
| ChartText.SlashesStay | Assets/Scripts/MusicManager.cs:371-375 | after stripping, a line that started with `//` still starts with `//` |
| ChartText.SlashIsNoDirective | Assets/Scripts/MusicManager.cs:377-386 | a text starting with `/` is neither note text nor tempo text |
| ChartText.LeadingCommentKept | Assets/Scripts/MusicManager.cs:371-375 | a whole-line comment is not blank, not a tempo line and not a note line |
| ChartText.LevelKind | Assets/Scripts/MusicManager.cs:402-403 | a line is a level line iff its stripped lower-cased text starts with `lev`, and it carries a number iff the scan finds one |
| ChartText.LevelKinds | Assets/Scripts/MusicManager.cs:400-407 | the level classification of each line of the file |
| ChartText.ScanLevelFrom | Assets/Scripts/MusicManager.cs:398-407 | the scan ends with the level it holds, 0, or the number of a numbered level line |
| ChartText.ScanLevel | Assets/Scripts/MusicManager.cs:398-407 | the level is 1.0, 0, or the number of some numbered level line of the file |
| ChartText.NoLevelLineFrom | Assets/Scripts/MusicManager.cs:398-407 | with no level line left, the scan ends with the value it holds |
| ChartText.LevelZeroStays | Assets/Scripts/MusicManager.cs:398-407 | once a level line without a number has set 0, later lines without a number keep 0 |
| ChartText.FirstLevelWins | Assets/Scripts/MusicManager.cs:398-407 | the first level line with a number decides the level, whatever came before |
| ChartText.LevelWithoutNumberFrom | Assets/Scripts/MusicManager.cs:398-407 | a level line without a number, with no numbered level line anywhere, leaves 0 |
| ChartText.LevelDefault | Assets/Scripts/MusicManager.cs:398-407 | with no line starting with `lev`, the level is 1.0 |
| ChartText.LevelFirstNumber | Assets/Scripts/MusicManager.cs:398-407 | the first `lev` line with a number ends the scan with that number |
| ChartText.LevelWithoutNumber | Assets/Scripts/MusicManager.cs:398-407 | a `lev` line without a number sets the level to 0 through the `out` parameter, and the scan continues |
| ChartText.GridPart | Assets/Scripts/MusicManager.cs:446 | the grid part is the first four characters |
| ChartText.TimingPart | Assets/Scripts/MusicManager.cs:449-451 | a timing code is present exactly when the trimmed rest holds a bar; it is then the trimmed text between the first bar and the next bar or the end |
| ChartText.Classify | Assets/Scripts/MusicManager.cs:413-451 | a line is blank iff it strips to nothing; a tempo line iff it strips to tempo text holding a number, and then its tempo is that number; a note row iff it strips to note text, and then its grid is the stripped line's first four characters, all glyphs, and its timing is the stripped line's timing part |
| ChartText.Kinds | Assets/Scripts/MusicManager.cs:411-413 | the classification of each line |
| ChartText.BlockEnd | Assets/Scripts/MusicManager.cs:431-445 | the block runs over blank lines and note rows and stops at the first other line, which it leaves to the outer loop |
| ChartText.BlockStopsAtTempo | Assets/Scripts/MusicManager.cs:440-444 | a tempo line ends the block before it |
| ChartText.BlockStopsAtComment | Assets/Scripts/MusicManager.cs:440-444 | a whole-line comment ends the block before it |
| ChartText.BlockRowsShape | Assets/Scripts/MusicManager.cs:446-447 | every row of a block is four wide, and a block opened by a note row has a row |
| ChartText.BlockAt | Assets/Scripts/MusicManager.cs:424-452 | the block a note line opens has at least one row, each four wide |
| ChartText.Segment | Assets/Scripts/MusicManager.cs:411-464 | the outer loop yields well-formed blocks, and positive tempi when the file's tempi are positive |
| ChartText.BlockHasNoTempo | Assets/Scripts/MusicManager.cs:431-445 | the lines of a block carry no tempo |
| ChartText.BlockRowsSplit | Assets/Scripts/MusicManager.cs:446-447 | the rows of a range of lines are the rows of its two halves, in order |
| ChartText.SegmentTempi | Assets/Scripts/MusicManager.cs:411-464 | the tempo items are the values of the tempo lines, in file order |
| ChartText.SegmentRows | Assets/Scripts/MusicManager.cs:411-464 | the block rows and timing codes, concatenated, are those of the note lines in file order: none is dropped and none read twice |
| ChartText.Items | Assets/Scripts/MusicManager.cs:411-464 | the items of a file are well formed, with positive tempi when the file's are; their tempi are the tempo lines' values and their block rows and timing codes, concatenated, are those of the note lines, all in file order |
| Notes.PlainNote | Assets/Scripts/MusicManager.cs:519-525 | the first constructor makes a plain note at the given cell and time, with no finish time |
| Notes.LongNote | Assets/Scripts/MusicManager.cs:527-535 | the second constructor makes a note with the given bar cell, which is long iff neither bar coordinate is -1 |
| Notes.Rotate | Assets/Scripts/MusicManager.cs:584-618 | a negative angle or one whose remainder by 360 is under 90 returns an unchanged copy; 90–179 maps (r,c) to (3−c,r), 180–269 to (3−r,3−c), 270–359 to (c,3−r), for the start and, on a long note only, the bar; times and measure kept; a grid note stays on the grid and long or plain |
| Notes.QuarterTurnsOf | Assets/Scripts/MusicManager.cs:587 | the selector is the angle's remainder by 360 over 90 for non-negative angles, and at most 0 for negative ones |
| Notes.FullTurnPeriodic | Assets/Scripts/MusicManager.cs:587 | for non-negative angles, adding 360 degrees changes nothing |
| Notes.FourQuarterTurns | Assets/Scripts/MusicManager.cs:584-618 | four 90° rotations are the identity on grid notes |
| Notes.TurnsCompose | Assets/Scripts/MusicManager.cs:584-618 | two quarter turns are the 180° case and three are the 270° case |
| Notes.QuarterTurnSwapsAxis | Assets/Scripts/MusicManager.cs:589-596 | a quarter turn makes a same-row long note a same-column one, and the reverse |
| Notes.Remap | Assets/Scripts/MusicManager.cs:572-582 | `Random(row, column)` maps the start cell through the two tables, and a long note's bar as well; a plain note's bar is unchanged; times and measure kept |
| Notes.RemapKeepsShape | Assets/Scripts/MusicManager.cs:572-582 | through two permutations of 0..3 the note stays on the grid and long or plain, and a same-row or same-column long note stays so |
| Notes.FirstLater | Assets/Scripts/MusicManager.cs:656 | `FindIndex(StartTime > t)` is the first later note; every note before it starts no later |
| Notes.InsertByStart | Assets/Scripts/MusicManager.cs:649-666 | insertion adds exactly the new note |
| Notes.InsertByStartPlace | Assets/Scripts/MusicManager.cs:656-665 | the new note follows every note starting no later and precedes the first later one, with the others in their old order |
| Notes.InsertKeepsCell | Assets/Scripts/MusicManager.cs:651-665 | inserting a note of the list's cell keeps the list on one cell |
| Notes.InsertKeepsSorted | Assets/Scripts/MusicManager.cs:649-666 | insertion into a start-ordered list keeps it start-ordered |
| Notes.SortByStart | Assets/Scripts/MusicManager.cs:314 | `OrderBy(StartTime)` returns a start-ordered permutation of its input |
| Buckets.FlattenUntouched | Assets/Scripts/MusicManager.cs:314 | `SelectMany` does not look at lists of keys it does not enumerate |
| Buckets.FlattenReplace | Assets/Scripts/MusicManager.cs:314 | replacing one list changes the concatenation by exactly the old and new lists |
| Buckets.FlattenSameLength | Assets/Scripts/MusicManager.cs:488-491 | replacing a list by one of equal length keeps the total |
| Buckets.FlattenGrow | Assets/Scripts/MusicManager.cs:493-495 | growing one list by a note grows the concatenation by that note |
| Buckets.FlattenNewKey | Assets/Scripts/MusicManager.cs:476-479 | a new key is enumerated last, so its list comes last |
| Timing.Width | Assets/Scripts/MusicManager.cs:676 | a code divides the beat into at least four parts, and at least as many as it has characters |
| Timing.Step | Assets/Scripts/MusicManager.cs:682 | a character advances the clock by a positive time for positive tempo |
| Timing.FullCodeIsOneBeat | Assets/Scripts/MusicManager.cs:674-684 | a code of four or more characters lasts exactly `60/bpm` |
| Timing.ShortCodeIsQuarters | Assets/Scripts/MusicManager.cs:674-684 | a shorter code lasts its length in quarter beats, less than a beat |
| Timing.FullCodesAreBeats | Assets/Scripts/MusicManager.cs:674-684 | full codes add one beat each to `StartOffset` |
| Timing.ReadCode | Assets/Scripts/MusicManager.cs:678-683 | one code moves the clock by its length times the step |
| Timing.ReadCodeTimes | Assets/Scripts/MusicManager.cs:678-683 | after one code the dictionary holds its characters and the old keys; each character has the offset of its last position; untouched keys keep their values |
| Timing.ReadCodes | Assets/Scripts/MusicManager.cs:674-684 | the codes move the clock by their total time |
| Timing.ReadCodesKeys | Assets/Scripts/MusicManager.cs:674-684 | after the codes, the keys are the old keys and the characters that occur; other keys keep their values |
| Timing.TimingMap | Assets/Scripts/MusicManager.cs:670-684 | the measure ends at its start plus the total time of its codes |
| Timing.TimedCharacters | Assets/Scripts/MusicManager.cs:670-684 | exactly the characters of the codes are timed |
| Timing.TimeOfLastReading | Assets/Scripts/MusicManager.cs:678-683 | a repeated character keeps the time of its last reading |
| Timing.TimeOfCharacter | Assets/Scripts/MusicManager.cs:674-684 | a character's time is the start, plus the codes before its last code, plus as many of that code's steps as characters precede it, the time being stored before the advance |
| Timing.AdvanceIsProduct | Assets/Scripts/MusicManager.cs:681-682 | over exact reals, adding the step `k` times moves the clock by `k` times the step |
| Grid.CellPos | Assets/Scripts/MusicManager.cs:706 | a key below 16 is the cell `row * 4 + column` of a grid position |
| Grid.Path | Assets/Scripts/MusicManager.cs:697-764 | the cells an arrow searches are on the grid and never its own cell |
| Grid.PathStraight | Assets/Scripts/MusicManager.cs:697-764 | up and down search the arrow's column, left and right its row, each to the edge |
| Grid.FirstEligible | Assets/Scripts/MusicManager.cs:700-710 | the search skips cells that are claimed or untimed and stops at the first unclaimed timed one; it finds none exactly when there is none |
| Grid.LinkStep | Assets/Scripts/MusicManager.cs:697-764 | an emitted long note starts on an unclaimed timed cell of the arrow's path at that cell's time, has the arrow as its bar, and claims its cell; otherwise nothing changes |
| Grid.LinkStepNearest | Assets/Scripts/MusicManager.cs:697-764 | nothing is emitted exactly when the glyph is no arrow or no cell of its path is eligible; the start is the nearest eligible cell |
| Grid.CountAtAppend | Assets/Scripts/MusicManager.cs:689-780 | counting the notes of one cell distributes over concatenation |
| Grid.LinkPass | Assets/Scripts/MusicManager.cs:690-767 | every note of the arrow pass is a long note made by an arrow |
| Grid.LinkStepCount | Assets/Scripts/MusicManager.cs:704-706 | a step adds one note on the claimed cell and no other |
| Grid.LinkPassClaims | Assets/Scripts/MusicManager.cs:690-767 | claimed cells are timed; each starts exactly one long note and other cells none, so no cell is claimed twice |
| Grid.PlainPass | Assets/Scripts/MusicManager.cs:769-780 | the plain pass puts exactly one plain note on each unclaimed timed cell and none elsewhere |
| Grid.CoverageAt | Assets/Scripts/MusicManager.cs:689-780 | one cell of a grid starts one note if it is timed, none otherwise |
| Grid.GridCoverage | Assets/Scripts/MusicManager.cs:689-780 | every timed cell of a grid yields exactly one note, every other cell none |
| Grid.GridNotes | Assets/Scripts/MusicManager.cs:689-780 | each note of a grid is a long note from an arrow or a plain note, at its cell's time |
| Measure.AddPositionText | Assets/Scripts/MusicManager.cs:639-647 | a row joins the last group, or a new one when the last is full; no row is lost |
| Measure.Positions | Assets/Scripts/MusicManager.cs:639-647 | the groups hold the rows in order, all but the last full, the last holding `(n−1) % 4 + 1` rows |
| Measure.FullGrids | Assets/Scripts/MusicManager.cs:639-647 | every group is a whole grid iff the block has a non-zero multiple of four rows |
| Measure.InsertIntoCell | Assets/Scripts/MusicManager.cs:656-665 | inserting into an existing list adds exactly the note and keeps every list start-ordered |
| Measure.OpenCell | Assets/Scripts/MusicManager.cs:652-655 | a new cell's list is the note alone and comes last in key order |
| Measure.AddToMap | Assets/Scripts/MusicManager.cs:649-666 | `Measure.AddNote` adds exactly the note, keeps the lists start-ordered, and appends a new key only for a new cell |
| Measure.AddAll | Assets/Scripts/MusicManager.cs:649-666 | adding a run of notes adds exactly those notes and keeps the lists start-ordered |
| Measure.FlattenCells | Assets/Scripts/MusicManager.cs:782 | every note of the concatenation is filed under one of the keys |
| Measure.FlattenCellOrdered | Assets/Scripts/MusicManager.cs:782-786 | concatenating start-ordered per-cell lists keeps the notes of each cell in start order |
| Measure.Convert | Assets/Scripts/MusicManager.cs:668-788 | it throws iff no tempo was set or the row count is not a non-zero multiple of four; the next measure starts after the codes' total time at the last tempo; notes of a cell reach the chart in start order |
| Measure.GroupsAreGrids | Assets/Scripts/MusicManager.cs:687-692 | whole groups of four-glyph rows are 4×4 grids |
| Measure.ConcatHolds | Assets/Scripts/MusicManager.cs:639-647 | every row of every group is a row of the block |
| Measure.ConvertNotes | Assets/Scripts/MusicManager.cs:687-786 | the notes handed to the chart are the notes of all grids, reordered |
| Charts.CloseLast | Assets/Scripts/MusicManager.cs:488-491 | closing changes only the last note, whose finish becomes the new start |
| Charts.AddNote | Assets/Scripts/MusicManager.cs:468-499 | the count rises by one and the start time becomes a clap timing; a note on a cell whose last note is an open long note only closes it; otherwise it goes at the end of its cell's list, a new cell's list holding just the note and its key going after all earlier keys; other cells are unchanged |
| Charts.CloseCell | Assets/Scripts/MusicManager.cs:488-491 | closing keeps the keys and the number of stored notes |
| Charts.AppendToCell | Assets/Scripts/MusicManager.cs:492-495 | appending stores exactly the new note |
| Charts.StartTimes | Assets/Scripts/MusicManager.cs:498 | the set holds exactly the notes' start times |
| Charts.SomeLongSplit | Assets/Scripts/MusicManager.cs:470-473 | a run has a long note iff its front has or its last note is long |
| Charts.AddNotes | Assets/Scripts/MusicManager.cs:782-786 | pushing a run of notes raises the count by the run's length |
| Charts.AddNotesLong | Assets/Scripts/MusicManager.cs:470-473 | after a run the chart is long iff it was or a note of the run is |
| Charts.AddNotesClaps | Assets/Scripts/MusicManager.cs:498 | after a run the clap timings are the old ones plus exactly the run's start times |
| Charts.EmptyInv | Assets/Scripts/MusicManager.cs:358-363 | a new chart satisfies the invariant |
| Charts.AddNoteInv | Assets/Scripts/MusicManager.cs:468-499 | `AddNote` keeps the invariant: stored ≤ counted, every stored start clapped, `IsLong` iff a long note is stored |
| Charts.StoreInv | Assets/Scripts/MusicManager.cs:476-495 | storing a note keeps the invariant |
| Charts.StoreClapped | Assets/Scripts/MusicManager.cs:476-498 | a stored note's start is a clap timing |
| Charts.StoreLong | Assets/Scripts/MusicManager.cs:470-473 | `IsLong` still says whether a long note is stored |
| Charts.CloseInv | Assets/Scripts/MusicManager.cs:488-491 | closing a long note keeps the invariant |
| Charts.AddNotesInv | Assets/Scripts/MusicManager.cs:782-786 | a run of `AddNote` keeps the invariant |
| Charts.NoteList | Assets/Scripts/MusicManager.cs:310-317 | `NoteList` is a start-ordered permutation of the stored notes, no longer than the count for a chart in the invariant |
| Charts.StepBlock | Assets/Scripts/MusicManager.cs:424-462 | a block fails iff no tempo was set or its row count is not a non-zero multiple of four; otherwise the measure number rises and the offset moves by the block's time at the last tempo |
| Charts.Step | Assets/Scripts/MusicManager.cs:419-462 | a tempo directive appends its value; a block behaves as in `StepBlock`; the level is kept |
| Charts.StepInv | Assets/Scripts/MusicManager.cs:419-462 | a step keeps the chart invariant |
| Charts.Compile | Assets/Scripts/MusicManager.cs:411-465 | the outer loop keeps the lists well formed and the level |
| Charts.CompileFails | Assets/Scripts/MusicManager.cs:419-462 | the loop fails exactly when some block comes before any tempo or has a row count that is not a multiple of four |
| Charts.ThrowsShift | Assets/Scripts/MusicManager.cs:411-464 | failure of the rest of the file is failure after the first item, with its tempo counted |
| Charts.CompileKeeps | Assets/Scripts/MusicManager.cs:411-464 | the loop keeps the chart invariant |
| Charts.StepTempo | Assets/Scripts/MusicManager.cs:419-423 | a step appends the item's own tempo directive, if any, and nothing else |
| Charts.CompileTempi | Assets/Scripts/MusicManager.cs:411-464 | the tempo list grows by exactly the file's tempo directives, in order |
| Charts.Parse | Assets/Scripts/MusicManager.cs:388-466 | a parsed chart has well-formed lists and the scanned level |
| Charts.ParseFails | Assets/Scripts/MusicManager.cs:419-462 | `Parse` yields no chart exactly when a block comes before any tempo line or has a row count that is not a multiple of four |
| Charts.ParsedChart | Assets/Scripts/MusicManager.cs:388-466 | a parsed chart lists no more notes than it counted, and its tempo list is the file's tempo directives |
| Scorer.Divisor | Assets/Scripts/GameManager.cs:141-147 | `Min(1024, NoteCount)` is between 1 and 1024, and it is the count itself up to 1024 |
| Scorer.ShutterDelta | Assets/Scripts/GameManager.cs:138-149 | Perfect and Great add ⌊2048/m⌋, Good adds ⌊1024/m⌋, anything else subtracts ⌊8192/m⌋ |
| Scorer.Clamp | Assets/Scripts/GameManager.cs:150 | the meter is kept in [0, 1024] and is unchanged inside it |
| Scorer.AddScore | Assets/Scripts/GameManager.cs:117-151 | exactly one tally grows by one, the early or the late one of the rank; combo +1 below Miss, else 0; the meter moves by the rank's delta, clamped to [0, 1024]; the histogram changes only at an index in [0, 120), by 2 for Perfect and 1 otherwise |
| Scorer.AddScoreCountsOne | Assets/Scripts/GameManager.cs:119-127 | each call adds one judgement of its rank and one in total |
| Scorer.Score | Assets/Scripts/GameManager.cs:77-81 | the score is non-negative; it is at most 900000 when the weighted tally is at most ten points a note, and 900000 at exactly ten |
| Scorer.ScaledMean | Assets/Scripts/GameManager.cs:77-81 | `90000 * w / n` lies in [0, 900000] for 0 ≤ w ≤ 10n, and equals 900000 at w = 10n |
| Scorer.ScoreAsWritten | Assets/Scripts/GameManager.cs:77-81 | the 32-bit score is a 32-bit value; while the weighted tally is at most 23860 it is non-negative, and at most 900000 when the tally is at most ten points a note |
| Scorer.ScoreAsWrittenAgrees | Assets/Scripts/GameManager.cs:77-81 | without overflow the 32-bit score equals the exact one |
| Scorer.ScoreAsWrittenOverflows | Assets/Scripts/GameManager.cs:77-81 | 2400 Perfect notes give a negative 32-bit score where the exact one is 900000 |
| Scorer.ShutterScore | Assets/Scripts/GameManager.cs:83 | the shutter score lies in [0, 100000] for a meter in [0, 1024], and is 100000 at 1024 and 0 at 0 |
| Scorer.ShutterScoreMonotone | Assets/Scripts/GameManager.cs:83 | a fuller meter never shows a lower shutter score |
| Scorer.ResetInGame | Assets/Scripts/GameManager.cs:198-206 | combo, meter and tallies 0..3 become 0, tally 4 is kept, the histogram is 120 zeros |
| Scorer.ResetScoresZero | Assets/Scripts/GameManager.cs:198-206 | after the reset the score and the shutter score are 0, whatever tally 4 held |
| Scorer.Play | Assets/Scripts/GameManager.cs:117-151 | after any judgement the meter is in [0, 1024] |
| Scorer.Count | Assets/Scripts/GameManager.cs:119-127 | no more judgements of a rank than judgements |
| Scorer.JudgedBounded | Assets/Scripts/GameManager.cs:119-127 | the judgements of the four judged ranks are at most all judgements |
| Scorer.PlayTallies | Assets/Scripts/GameManager.cs:119-127 | after a play every rank's tally has grown by exactly its judgements |
| Scorer.Streak | Assets/Scripts/GameManager.cs:135 | the run of hits since the last miss is no longer than the play |
| Scorer.ComboIsStreak | Assets/Scripts/GameManager.cs:135 | the combo is the run of hits since the last Miss or worse, added to the old combo if the play has no miss |
| Scorer.ScoreOfPlay | Assets/Scripts/GameManager.cs:77-81 | from a fresh game the score weighs each judgement, and lies in [0, 900000] when no more notes are judged than the chart holds |
| Scorer.PerfectsFill | Assets/Scripts/GameManager.cs:138-150 | a run of Perfects raises the meter by a fixed step each, up to full |
| Scorer.MeterFills | Assets/Scripts/GameManager.cs:141-150 | one Perfect step per note adds up to at least 1024 |
| Scorer.AllPerfectPlay | Assets/Scripts/GameManager.cs:77-83 | every note Perfect from a fresh game scores 900000, a shutter score of 100000 and a combo of every note |
| Scorer.AllPerfectCounts | Assets/Scripts/GameManager.cs:119-127 | an all-Perfect play counts only Perfects |
| Scorer.AllPerfectStreak | Assets/Scripts/GameManager.cs:135 | an all-Perfect play is one unbroken run |
| Sync.EntryMatches | Assets/Scripts/GameManager.cs:471-473 | a written entry starts with its own song's `name:` |
| Sync.LastMatch | Assets/Scripts/GameManager.cs:469-480 | the scan from the end finds the last line starting with `name:` ignoring case, and none exactly when no line does |
| Sync.LastMatchUnique | Assets/Scripts/GameManager.cs:469-480 | a matching line with no match after it is the one the scan finds |
| Sync.ModifyOffset | Assets/Scripts/GameManager.cs:465-484 | no write iff the song's last line already is the entry; otherwise the written lines end the song with the entry, change at most one line and only a matching one, and append when no line matches |
| Sync.ModifyOffsetIdempotent | Assets/Scripts/GameManager.cs:465-484 | saving the same offset again writes nothing |
| Sync.MatchesIgnoresCase | Assets/Scripts/GameManager.cs:469 | a line matches two song names equally when they differ only in letter case |
| Sync.LastMatchIgnoresCase | Assets/Scripts/GameManager.cs:466-479 | the backward search finds the same line for two spellings of one song name |
| Sync.ModifyOffsetReplaces | Assets/Scripts/GameManager.cs:466-484 | when the last line of the song differs from the entry, it is replaced in place and nothing else changes |
| Sync.ModifyOffsetIgnoresCase | Assets/Scripts/GameManager.cs:469-472 | two spellings of a song name that differ only in letter case rewrite the same line, each with its own spelling |

## Left out

- File and Unity I/O: reading the chart file and `File.Exists` in `Parse`, `LoadMusicDir`/`LoadMusic`, and the asynchronous read and write in `ModifyMusicOffset`. The lines read are parameters. `ModifyOffset` returns the lines to write, or no write.
- Floating point: times, tempi and levels are `real`. IEEE rounding, infinities and culture-dependent `double.TryParse` are not modelled. The step `60 / (bpm * length)` in `Convert` is a double division: a tempo of 0 makes it infinite and a negative tempo makes times run backwards, so tempi are required positive.
- `TryParseDoubleInText` reads the first ASCII `-?\d+(\.\d+)?` as an exact rational. `\d` is taken as ASCII digits only.
- `ToLower` and `OrdinalIgnoreCase` fold ASCII letters only. Strings are sequences of code points, not UTF-16 units.
- ChartText.IsBpmText: `StartsWith("bpm")` and `StartsWith("t=")` on the lower-cased line use the current culture's comparison, which skips zero-weight characters such as U+00AD, so `"\u00ADbpm120"` counts as a tempo line there. The model tests an ordinal prefix.
- ChartText.LevelKind: `StartsWith("lev")` is culture-sensitive in the same way; the model tests an ordinal prefix.
- `Chart.MusicBar` and `BpmString` depend on the audio clip's length and on string formatting.
- `Note.Random(List<int> position)` needs `UnityEngine.Random` and is never called.
- `Note.Clone` is a field-by-field copy. With immutable notes it is the note itself, so no member models it separately.
- `MusicBarIndex`, `MusicBarLongIndex`, `Position` and `BarPosition` are display fields.
- UI updates through `GameObject.Find`, coroutines, and `ShutterCombo.cs`.
- The order between equal start times in `NoteList` is the stable order of the per-cell lists. The model fixes that order as key insertion order plus the start-time insertion.
- `NoteList` is cached on first use. The model recomputes it from the stored notes.
- Charts.NoteList: states the bound `|NoteList| <= NoteCount` only for charts that satisfy the invariant. `Charts.ParsedChart` shows that every parsed chart does.
- Scorer.AddScore: requires a chart of at least one note, because the score it displays divides by `NoteCount`. The combo, tallies and histogram do not model 32-bit overflow.
- Scorer.Score: is the exact formula. The 32-bit evaluation is `Scorer.ScoreAsWritten`; see Findings.
- `Mathf.FloorToInt(2048f / m)` and the other two shutter deltas are integer division. For 1 ≤ m ≤ 1024 the single-precision quotient is never within an ulp of the next integer, so both agree.
- The `JudgeState` enum is not part of this model. Ranks 0 to 3 are Perfect, Great, Good and Miss, and rank 4 is accepted because the tallies have five entries.

## Findings

| source | as written | input that shows it | evidently intended | confidence | as-written member | corrected member |
|---|---|---|---|---|---|---|
| Assets/Scripts/GameManager.cs:77-81 | `90_000 * (10 * P + … ) / NoteCount` is evaluated in 32-bit `int`, so the product wraps once the weighted tally passes 23860 | a chart of 2400 notes all judged Perfect: 90000 × 24000 = 2160000000 exceeds 2^31 − 1, and the score comes out −889569 | 900000 for an all-Perfect play of any length, e.g. by computing in `long` | not executed | Scorer.ScoreAsWritten, shown by Scorer.ScoreAsWrittenOverflows | Scorer.Score, with Scorer.AllPerfectPlay and Scorer.ScoreOfPlay |
