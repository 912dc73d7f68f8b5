/**
  The first half of `Measure.Convert` in MusicManager.cs: the timing codes
  of a measure are read character by character, each character standing
  for one subdivision of a beat. A code of `n` characters divides the beat
  into `max(4, n)` parts, so a full code spans exactly one beat and a short
  one less. Every character is mapped to the moment it is read; a character
  read twice keeps the later moment.
*/
module Timing {

  /** `Math.Max(4, timings.Length)`. */
  function Width(code: string): (w: nat)
    ensures w >= 4 && w >= |code|
  {
    if |code| < 4 then 4 else |code|
  }

  /** The time one character of `code` advances the clock at `bpm`. */
  function Step(bpm: real, code: string): (d: real)
    requires bpm > 0.0
    ensures d > 0.0
  {
    60.0 / (bpm * Width(code) as real)
  }


  /** `start` advanced `k` times by `step`. */
  function Advance(start: real, step: real, k: nat): real {
    if k == 0 then start else Advance(start, step, k - 1) + step
  }

  /** Over exact reals, `k` additions of the step make `k` times the step. */
  lemma {:induction false} AdvanceIsProduct(start: real, step: real, k: nat)
    ensures Advance(start, step, k) == start + k as real * step
  {
    if k > 0 {
      AdvanceIsProduct(start, step, k - 1);
      assert (k - 1) as real * step + step == k as real * step;
    }
  }

  lemma {:induction false} AdvanceFrom(start: real, step: real, k: nat)
    ensures Advance(start, step, k) == start + Advance(0.0, step, k)
  {
    if k > 0 {
      AdvanceFrom(start, step, k - 1);
    }
  }

  /** The time a whole code advances the clock. */
  function Span(bpm: real, code: string): real
    requires bpm > 0.0
  {
    Advance(0.0, Step(bpm, code), |code|)
  }

  /** A code of four or more characters lasts one beat, `60 / bpm` seconds. */
  lemma FullCodeIsOneBeat(bpm: real, code: string)
    requires bpm > 0.0 && |code| >= 4
    ensures Span(bpm, code) == 60.0 / bpm
  {
    var n := |code| as real;
    AdvanceIsProduct(0.0, Step(bpm, code), |code|);
    assert Span(bpm, code) == n * (60.0 / (bpm * n));
  }

  /** A shorter code still counts in quarter beats, so it ends early. */
  lemma ShortCodeIsQuarters(bpm: real, code: string)
    requires bpm > 0.0 && |code| < 4
    ensures Span(bpm, code) == |code| as real * (15.0 / bpm)
    ensures Span(bpm, code) < 60.0 / bpm
  {
    AdvanceIsProduct(0.0, Step(bpm, code), |code|);
    assert Step(bpm, code) == 60.0 / (bpm * 4.0);
    assert 60.0 / (bpm * 4.0) == 15.0 / bpm;
  }

  /** Total time of a sequence of codes. */
  function Elapsed(bpm: real, codes: seq<string>): real
    requires bpm > 0.0
  {
    if |codes| == 0 then 0.0
    else Elapsed(bpm, codes[..|codes| - 1]) + Span(bpm, codes[|codes| - 1])
  }

  /** Codes of full width each add a beat. */
  lemma {:induction false} FullCodesAreBeats(bpm: real, codes: seq<string>)
    requires bpm > 0.0
    requires forall k :: 0 <= k < |codes| ==> |codes[k]| >= 4
    ensures Elapsed(bpm, codes) == |codes| as real * (60.0 / bpm)
  {
    if |codes| > 0 {
      FullCodesAreBeats(bpm, codes[..|codes| - 1]);
      FullCodeIsOneBeat(bpm, codes[|codes| - 1]);
    }
  }

  /** `j` is the last position of its character in `s`. */
  predicate LastAt(s: string, j: nat) {
    j < |s| && forall j' :: j < j' < |s| ==> s[j'] != s[j]
  }

  /** The character occurs in one of the codes. */
  predicate Occurs(codes: seq<string>, ch: char) {
    exists r :: 0 <= r < |codes| && ch in codes[r]
  }

  /** The dictionary `timingMap` and the running `StartOffset`. */
  datatype Clock = Clock(times: map<char, real>, offset: real)

  /** The inner loop over the characters of one code: each character is
      stored at the current offset, which then moves on by `step`. */
  function ReadCode(c: Clock, step: real, code: string): (r: Clock)
    ensures r.offset == Advance(c.offset, step, |code|)
    decreases |code|
  {
    if |code| == 0 then c
    else
      var p := ReadCode(c, step, code[..|code| - 1]);
      Clock(p.times[code[|code| - 1] := p.offset], p.offset + step)
  }

  /** After one code the dictionary holds its characters besides the old
      keys; each of them maps to the offset of its last position, and the
      old keys not in the code keep their values. */
  lemma {:induction false} ReadCodeTimes(c: Clock, step: real, code: string)
    ensures forall ch :: ch in ReadCode(c, step, code).times <==> ch in c.times || ch in code
    ensures forall j: nat :: LastAt(code, j) ==> ReadCode(c, step, code).times[code[j]] == Advance(c.offset, step, j)
    ensures forall ch :: ch in c.times && ch !in code ==> ReadCode(c, step, code).times[ch] == c.times[ch]
    decreases |code|
  {
    if |code| > 0 {
      var front := code[..|code| - 1];
      var last := code[|code| - 1];
      ReadCodeTimes(c, step, front);
      assert forall ch :: ch in code <==> ch in front || ch == last;
      forall j: nat | LastAt(code, j)
        ensures ReadCode(c, step, code).times[code[j]] == Advance(c.offset, step, j)
      {
        if j < |code| - 1 {
          assert front[j] == code[j];
          assert LastAt(front, j);
        }
      }
    }
  }

  /** The outer loop over the codes of a measure. */
  function ReadCodes(c: Clock, bpm: real, codes: seq<string>): (r: Clock)
    requires bpm > 0.0
    ensures r.offset == c.offset + Elapsed(bpm, codes)
    decreases |codes|
  {
    if |codes| == 0 then c
    else
      var last := codes[|codes| - 1];
      var p := ReadCodes(c, bpm, codes[..|codes| - 1]);
      AdvanceFrom(p.offset, Step(bpm, last), |last|);
      ReadCode(p, Step(bpm, last), last)
  }

  /** The keys after a measure are the old keys and the characters of its
      codes; a key no code holds keeps its value. */
  lemma {:induction false} ReadCodesKeys(c: Clock, bpm: real, codes: seq<string>)
    requires bpm > 0.0
    ensures forall ch :: ch in ReadCodes(c, bpm, codes).times <==> ch in c.times || Occurs(codes, ch)
    ensures forall ch :: ch in c.times && !Occurs(codes, ch) ==> ReadCodes(c, bpm, codes).times[ch] == c.times[ch]
    decreases |codes|
  {
    if |codes| > 0 {
      var front := codes[..|codes| - 1];
      var last := codes[|codes| - 1];
      var p := ReadCodes(c, bpm, front);
      ReadCodesKeys(c, bpm, front);
      ReadCodeTimes(p, Step(bpm, last), last);
      forall ch
        ensures Occurs(codes, ch) <==> Occurs(front, ch) || ch in last
      {
        if Occurs(codes, ch) {
          var r :| 0 <= r < |codes| && ch in codes[r];
          if r < |codes| - 1 {
            assert ch in front[r];
          }
        }
        if Occurs(front, ch) {
          var r :| 0 <= r < |front| && ch in front[r];
          assert ch in codes[r];
        }
        if ch in last {
          assert ch in codes[|codes| - 1];
        }
      }
    }
  }

  /** The timing dictionary of a measure starting at `start`, and where the
      next measure starts. */
  function TimingMap(bpm: real, start: real, codes: seq<string>): (r: Clock)
    requires bpm > 0.0
    ensures r.offset == start + Elapsed(bpm, codes)
  {
    ReadCodes(Clock(map[], start), bpm, codes)
  }

  /** Exactly the characters of the codes are timed. */
  lemma TimedCharacters(bpm: real, start: real, codes: seq<string>)
    requires bpm > 0.0
    ensures forall ch :: ch in TimingMap(bpm, start, codes).times <==> Occurs(codes, ch)
  {
    ReadCodesKeys(Clock(map[], start), bpm, codes);
  }

  /** A character gets the moment of its last reading: the clock after
      all codes before the last code holding it, advanced by its position in
      that code. */
  lemma {:induction false} TimeOfLastReading(c: Clock, bpm: real, codes: seq<string>, r: nat, j: nat)
    requires bpm > 0.0
    requires r < |codes| && LastAt(codes[r], j)
    requires forall r' :: r < r' < |codes| ==> codes[r][j] !in codes[r']
    ensures codes[r][j] in ReadCodes(c, bpm, codes).times
    ensures ReadCodes(c, bpm, codes).times[codes[r][j]]
            == Advance(ReadCodes(c, bpm, codes[..r]).offset, Step(bpm, codes[r]), j)
    decreases |codes|
  {
    var front := codes[..|codes| - 1];
    var last := codes[|codes| - 1];
    var p := ReadCodes(c, bpm, front);
    assert ReadCodes(c, bpm, codes) == ReadCode(p, Step(bpm, last), last);
    ReadCodeTimes(p, Step(bpm, last), last);
    if r == |codes| - 1 {
      assert front == codes[..r];
    } else {
      var ch := codes[r][j];
      assert front[r] == codes[r];
      assert front[..r] == codes[..r];
      TimeOfLastReading(c, bpm, front, r, j);
      assert ch !in last;
    }
  }

  /** For the dictionary of a measure: the start, plus the time of the codes
      before, plus `j` steps of the character's own code, added one at a
      time as the loop adds them (`AdvanceIsProduct` gives `j * step`). */
  lemma TimeOfCharacter(bpm: real, start: real, codes: seq<string>, r: nat, j: nat)
    requires bpm > 0.0
    requires r < |codes| && LastAt(codes[r], j)
    requires forall r' :: r < r' < |codes| ==> codes[r][j] !in codes[r']
    ensures codes[r][j] in TimingMap(bpm, start, codes).times
    ensures TimingMap(bpm, start, codes).times[codes[r][j]]
            == Advance(start + Elapsed(bpm, codes[..r]), Step(bpm, codes[r]), j)
  {
    TimeOfLastReading(Clock(map[], start), bpm, codes, r, j);
  }
}
