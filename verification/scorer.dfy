/**
  The judgement scorer of GameManager.cs. Every judged note calls
  `AddScore` with its rank (Perfect 0, Great 1, Good 2, Miss 3; the tallies
  have a fifth entry), the measure it fell in and whether it was early. The
  call counts the rank, feeds the per-measure histogram, keeps the combo and
  moves the shutter meter, a value in [0, 1024]. The score is a weighted
  mean of the tallies scaled to 900000.
*/
module Scorer {
  import opened Int32

  const Perfect := 0
  const Great := 1
  const Good := 2
  const Miss := 3
  /** Entries of `scoreEarly` and `scoreLate`. */
  const Ranks := 5
  /** Entries of `CurrentMusicBarScore`. */
  const Bars := 120
  /** The full shutter meter. */
  const Full := 1024

  /** The scoring fields of `GameManager`. */
  datatype Scorer = Scorer(early: seq<int>, late: seq<int>, combo: int, shutter: int, barScore: seq<int>)

  /** Five tallies on each side and a histogram of 120 measures, as the
      fields are created. */
  predicate Sized(s: Scorer) {
    |s.early| == Ranks && |s.late| == Ranks && |s.barScore| == Bars
  }

  /** Early and late judgements of rank `i` together. */
  function Rank(s: Scorer, i: int): int
    requires Sized(s) && 0 <= i < Ranks
  {
    s.early[i] + s.late[i]
  }

  /** Every judgement counted, whatever its rank. */
  function Total(s: Scorer): int
    requires Sized(s)
  {
    Rank(s, 0) + Rank(s, 1) + Rank(s, 2) + Rank(s, 3) + Rank(s, 4)
  }

  /** `Mathf.Min(1024, NoteCount)`. */
  function Divisor(noteCount: int): (m: int)
    requires noteCount >= 1
    ensures 1 <= m <= Full && m <= noteCount
    ensures noteCount <= Full ==> m == noteCount
  {
    if noteCount < Full then noteCount else Full
  }

  /** The change of the shutter meter for one judgement. Both operands of
      the single-precision division are integers below 2^14, so flooring the
      float quotient gives the integer quotient. */
  function ShutterDelta(judge: int, noteCount: int): (d: int)
    requires noteCount >= 1
    ensures judge <= Good ==> d > 0
    ensures judge < Good ==> d * Divisor(noteCount) <= 2048 < (d + 1) * Divisor(noteCount)
    ensures judge == Good ==> d * Divisor(noteCount) <= 1024 < (d + 1) * Divisor(noteCount)
    ensures judge > Good ==> -d * Divisor(noteCount) <= 8192 < (-d + 1) * Divisor(noteCount)
  {
    var m := Divisor(noteCount);
    if judge < Good then
      FloorBounds(2048, m);
      2048 / m
    else if judge == Good then
      FloorBounds(1024, m);
      1024 / m
    else
      FloorBounds(8192, m);
      -(8192 / m)
  }

  /** The quotient of a non-negative `a` by a divisor no larger than `a`
      is positive and brackets `a` between two multiples. */
  lemma FloorBounds(a: int, m: int)
    requires 1 <= m <= a
    ensures a / m >= 1
    ensures (a / m) * m <= a < (a / m + 1) * m
  {
  }

  /** `Mathf.Max(Mathf.Min(1024, x), 0)`. */
  function Clamp(x: int): (r: int)
    ensures 0 <= r <= Full
    ensures 0 <= x <= Full ==> r == x
    ensures x > Full ==> r == Full
    ensures x < 0 ==> r == 0
  {
    if x > Full then Full else if x < 0 then 0 else x
  }

  /** `AddScore(judgeState, musicBarIndex, early)` for a chart of
      `noteCount` notes. The score shown on the way divides by `noteCount`,
      so a judged note implies a non-empty chart. */
  function AddScore(s: Scorer, judge: int, barIndex: int, early: bool, noteCount: int): (r: Scorer)
    requires Sized(s) && 0 <= judge < Ranks && noteCount >= 1
    ensures Sized(r)
    ensures early ==> r.late == s.late && r.early[judge] == s.early[judge] + 1
    ensures !early ==> r.early == s.early && r.late[judge] == s.late[judge] + 1
    ensures forall i :: 0 <= i < Ranks && i != judge ==> r.early[i] == s.early[i] && r.late[i] == s.late[i]
    ensures judge < Miss ==> r.combo == s.combo + 1
    ensures judge >= Miss ==> r.combo == 0
    ensures 0 <= r.shutter <= Full
    ensures r.shutter == Clamp(s.shutter + ShutterDelta(judge, noteCount))
    ensures 0 <= barIndex < Bars ==> r.barScore[barIndex] == s.barScore[barIndex] + (if judge == Perfect then 2 else 1)
    ensures forall b :: 0 <= b < Bars && b != barIndex ==> r.barScore[b] == s.barScore[b]
  {
    var early' := if early then s.early[judge := s.early[judge] + 1] else s.early;
    var late' := if early then s.late else s.late[judge := s.late[judge] + 1];
    var bars := if 0 <= barIndex < Bars
                then s.barScore[barIndex := s.barScore[barIndex] + (if judge == Perfect then 2 else 1)]
                else s.barScore;
    var combo := if judge < Miss then s.combo + 1 else 0;
    Scorer(early', late', combo, Clamp(s.shutter + ShutterDelta(judge, noteCount)), bars)
  }

  /** Each call counts exactly one judgement. */
  lemma AddScoreCountsOne(s: Scorer, judge: int, barIndex: int, early: bool, noteCount: int)
    requires Sized(s) && 0 <= judge < Ranks && noteCount >= 1
    ensures Rank(AddScore(s, judge, barIndex, early, noteCount), judge) == Rank(s, judge) + 1
    ensures Total(AddScore(s, judge, barIndex, early, noteCount)) == Total(s) + 1
  {
  }

  /** `10 * Perfect + 7 * Great + 4 * Good + Miss`; the fifth rank has no
      weight. */
  function Weighted(s: Scorer): int
    requires Sized(s)
  {
    10 * Rank(s, Perfect) + 7 * Rank(s, Great) + 4 * Rank(s, Good) + Rank(s, Miss)
  }

  /** `Score`: the weighted tally over ten points a note, scaled to
      900000, with the quotient truncated as C# does. */
  function Score(s: Scorer, noteCount: int): (r: int)
    requires Sized(s) && noteCount >= 1
    ensures 0 <= Weighted(s) ==> 0 <= r
    ensures 0 <= Weighted(s) <= 10 * noteCount ==> r <= 900000
    ensures Weighted(s) == 10 * noteCount ==> r == 900000
  {
    ScaledMean(Weighted(s), noteCount);
    TruncDiv(90000 * Weighted(s), noteCount)
  }

  lemma CancelFactor(q: int, c: int, n: int)
    requires n >= 1
    ensures q * n <= c * n ==> q <= c
    ensures q * n < c * n ==> q < c
  {
    assert q * n - c * n == (q - c) * n;
  }

  /** `90000 * w / n` for a weighted tally `w` of at most ten points a
      note. */
  lemma ScaledMean(w: int, n: int)
    requires n >= 1
    ensures 0 <= w ==> 0 <= TruncDiv(90000 * w, n)
    ensures 0 <= w <= 10 * n ==> TruncDiv(90000 * w, n) <= 900000
    ensures w == 10 * n ==> TruncDiv(90000 * w, n) == 900000
  {
    if 0 <= w {
      var a := 90000 * w;
      var q := TruncDiv(a, n);
      assert q * n <= a < q * n + n;
      CancelFactor(0, q + 1, n);
      if w <= 10 * n {
        CancelFactor(q, 900000, n);
      }
      if w == 10 * n {
        CancelFactor(900000, q + 1, n);
      }
    }
  }

  /** While the product stays in range, neither wrap changes anything. */
  lemma ProductFits(s: Scorer, noteCount: int)
    requires Sized(s) && noteCount >= 1
    requires 0 <= 90000 * Weighted(s) <= MaxValue
    ensures TruncDiv(Wrap(90000 * Wrap(Weighted(s))), noteCount) == Score(s, noteCount)
  {
    assert 0 <= Weighted(s) <= MaxValue;
  }

  /** `Score` as the 32-bit expression evaluates it: the product wraps
      once the weighted tally passes 23860. */
  function ScoreAsWritten(s: Scorer, noteCount: int): (r: int)
    requires Sized(s) && noteCount >= 1
    ensures MinValue <= r <= MaxValue
    ensures 0 <= Weighted(s) <= 23860 ==> 0 <= r
    ensures 0 <= Weighted(s) <= 10 * noteCount && Weighted(s) <= 23860 ==> r <= 900000
  {
    var product := Wrap(90000 * Wrap(Weighted(s)));
    TruncDivInRange(product, noteCount);
    if 0 <= Weighted(s) <= 23860 then
      ProductFits(s, noteCount);
      TruncDiv(product, noteCount)
    else
      TruncDiv(product, noteCount)
  }

  /** Below the wrap-around the two agree. */
  lemma ScoreAsWrittenAgrees(s: Scorer, noteCount: int)
    requires Sized(s) && noteCount >= 1
    requires 0 <= 90000 * Weighted(s) <= MaxValue
    ensures ScoreAsWritten(s, noteCount) == Score(s, noteCount)
  {
    ProductFits(s, noteCount);
  }

  /** A chart of 2400 notes, all Perfect: the product 2160000000 passes
      the 32-bit range and the score comes out negative. */
  lemma ScoreAsWrittenOverflows()
    ensures var s := Scorer([0, 0, 0, 0, 0], [2400, 0, 0, 0, 0], 2400, Full, seq(Bars, _ => 0));
            Sized(s) && ScoreAsWritten(s, 2400) < 0 && Score(s, 2400) == 900000
  {
    var s := Scorer([0, 0, 0, 0, 0], [2400, 0, 0, 0, 0], 2400, Full, seq(Bars, _ => 0));
    assert Weighted(s) == 24000;
    assert Wrap(90000 * 24000) == 2160000000 - Modulus;
  }

  /** `ShutterScore`: the meter scaled to 100000. */
  function ShutterScore(shutter: int): (r: int)
    ensures 0 <= shutter <= Full ==> 0 <= r <= 100000
    ensures shutter == Full ==> r == 100000
    ensures shutter == 0 ==> r == 0
  {
    TruncDiv(shutter * 100000, Full)
  }

  /** A fuller meter never shows a lower shutter score. */
  lemma ShutterScoreMonotone(a: int, b: int)
    requires 0 <= a <= b
    ensures ShutterScore(a) <= ShutterScore(b)
  {
    assert a * 100000 <= b * 100000;
  }

  /** The reset of `OnSceneLoaded` when the game scene loads: combo, meter
      and the tallies of the four judged ranks go to zero (the fifth is left
      as it was) and the histogram becomes 120 zeros. */
  function ResetInGame(s: Scorer): (r: Scorer)
    requires |s.early| == Ranks && |s.late| == Ranks
    ensures Sized(r)
    ensures r.combo == 0 && r.shutter == 0
    ensures forall i :: 0 <= i < Ranks ==> r.early[i] == (if i <= Miss then 0 else s.early[i])
    ensures forall i :: 0 <= i < Ranks ==> r.late[i] == (if i <= Miss then 0 else s.late[i])
    ensures forall b :: 0 <= b < Bars ==> r.barScore[b] == 0
  {
    Scorer([0, 0, 0, 0, s.early[4]], [0, 0, 0, 0, s.late[4]], 0, 0, seq(Bars, _ => 0))
  }

  /** Whatever the fifth tally held, a fresh game scores zero. */
  lemma ResetScoresZero(s: Scorer, noteCount: int)
    requires |s.early| == Ranks && |s.late| == Ranks && noteCount >= 1
    ensures Score(ResetInGame(s), noteCount) == 0
    ensures ShutterScore(ResetInGame(s).shutter) == 0
  {
    assert Weighted(ResetInGame(s)) == 0;
  }

  /** One judged note: its rank, its measure and whether it was early. */
  datatype Judgement = Judgement(judge: int, barIndex: int, early: bool)

  predicate Judges(js: seq<Judgement>) {
    forall i :: 0 <= i < |js| ==> 0 <= js[i].judge < Ranks
  }

  /** A play: `AddScore` for each judgement in turn. */
  function Play(s: Scorer, js: seq<Judgement>, noteCount: int): (r: Scorer)
    requires Sized(s) && Judges(js) && noteCount >= 1
    ensures Sized(r)
    ensures 0 < |js| ==> 0 <= r.shutter <= Full
    decreases |js|
  {
    if |js| == 0 then s
    else
      var j := js[|js| - 1];
      AddScore(Play(s, js[..|js| - 1], noteCount), j.judge, j.barIndex, j.early, noteCount)
  }

  /** Judgements of rank `i`. */
  function Count(js: seq<Judgement>, i: int): (c: nat)
    ensures c <= |js|
  {
    if |js| == 0 then 0
    else Count(js[..|js| - 1], i) + (if js[|js| - 1].judge == i then 1 else 0)
  }

  /** Judgements of the four judged ranks. */
  function Judged(js: seq<Judgement>): nat {
    Count(js, Perfect) + Count(js, Great) + Count(js, Good) + Count(js, Miss)
  }

  lemma {:induction false} JudgedBounded(js: seq<Judgement>)
    ensures Judged(js) <= |js|
  {
    if |js| > 0 {
      JudgedBounded(js[..|js| - 1]);
    }
  }

  /** After a play every rank has gained exactly its judgements. */
  lemma {:induction false} PlayTallies(s: Scorer, js: seq<Judgement>, noteCount: int)
    requires Sized(s) && Judges(js) && noteCount >= 1
    ensures forall i :: 0 <= i < Ranks ==> Rank(Play(s, js, noteCount), i) == Rank(s, i) + Count(js, i)
    decreases |js|
  {
    if |js| > 0 {
      PlayTallies(s, js[..|js| - 1], noteCount);
    }
  }

  /** Judgements since the last Miss or worse, counted from the end. */
  function Streak(js: seq<Judgement>): (n: nat)
    ensures n <= |js|
  {
    if |js| == 0 || js[|js| - 1].judge >= Miss then 0
    else Streak(js[..|js| - 1]) + 1
  }

  /** The combo is the run of hits since the last miss, added to the old
      combo when the whole play is that run. */
  lemma {:induction false} ComboIsStreak(s: Scorer, js: seq<Judgement>, noteCount: int)
    requires Sized(s) && Judges(js) && noteCount >= 1
    ensures Play(s, js, noteCount).combo == (if Streak(js) == |js| then s.combo + |js| else Streak(js))
    decreases |js|
  {
    if |js| > 0 {
      ComboIsStreak(s, js[..|js| - 1], noteCount);
    }
  }

  /** The score of a play from a fresh game: its weighted judgements over
      the chart, between 0 and 900000 when no more notes are judged than
      the chart holds. */
  lemma ScoreOfPlay(s: Scorer, js: seq<Judgement>, noteCount: int)
    requires |s.early| == Ranks && |s.late| == Ranks
    requires Judges(js) && 1 <= noteCount && |js| <= noteCount
    ensures Weighted(Play(ResetInGame(s), js, noteCount))
            == 10 * Count(js, Perfect) + 7 * Count(js, Great) + 4 * Count(js, Good) + Count(js, Miss)
    ensures 0 <= Score(Play(ResetInGame(s), js, noteCount), noteCount) <= 900000
  {
    PlayTallies(ResetInGame(s), js, noteCount);
    JudgedBounded(js);
  }

  predicate AllPerfect(js: seq<Judgement>) {
    forall i :: 0 <= i < |js| ==> js[i].judge == Perfect
  }

  /** A run of Perfects fills the meter by a fixed step, up to full. */
  lemma {:induction false} PerfectsFill(s: Scorer, js: seq<Judgement>, noteCount: int)
    requires Sized(s) && AllPerfect(js) && noteCount >= 1 && 0 <= s.shutter <= Full
    ensures Judges(js)
    ensures Play(s, js, noteCount).shutter
            == (if s.shutter + |js| * ShutterDelta(Perfect, noteCount) > Full then Full
                else s.shutter + |js| * ShutterDelta(Perfect, noteCount))
    decreases |js|
  {
    if |js| > 0 {
      var d := ShutterDelta(Perfect, noteCount);
      PerfectsFill(s, js[..|js| - 1], noteCount);
      assert (|js| - 1) * d + d == |js| * d;
    }
  }

  /** One Perfect per note always reaches a full meter. */
  lemma MeterFills(noteCount: int)
    requires noteCount >= 1
    ensures noteCount * ShutterDelta(Perfect, noteCount) >= Full
  {
    var m := Divisor(noteCount);
    var d := ShutterDelta(Perfect, noteCount);
    if noteCount <= Full {
      assert m == noteCount;
      assert 2048 < (d + 1) * m;
      assert noteCount * d > 2048 - noteCount;
    } else {
      assert d == 2;
    }
  }

  /** Every note Perfect from a fresh game: score 900000, a full shutter
      score, and a combo of every note. */
  lemma AllPerfectPlay(s: Scorer, js: seq<Judgement>, noteCount: int)
    requires |s.early| == Ranks && |s.late| == Ranks
    requires AllPerfect(js) && |js| == noteCount >= 1
    ensures Judges(js)
    ensures Score(Play(ResetInGame(s), js, noteCount), noteCount) == 900000
    ensures ShutterScore(Play(ResetInGame(s), js, noteCount).shutter) == 100000
    ensures Play(ResetInGame(s), js, noteCount).combo == noteCount
  {
    var z := ResetInGame(s);
    PerfectsFill(z, js, noteCount);
    MeterFills(noteCount);
    PlayTallies(z, js, noteCount);
    AllPerfectCounts(js);
    AllPerfectStreak(js);
    ComboIsStreak(z, js, noteCount);
  }

  lemma {:induction false} AllPerfectCounts(js: seq<Judgement>)
    requires AllPerfect(js)
    ensures Count(js, Perfect) == |js|
    ensures Count(js, Great) == 0 && Count(js, Good) == 0 && Count(js, Miss) == 0
  {
    if |js| > 0 {
      AllPerfectCounts(js[..|js| - 1]);
    }
  }

  lemma {:induction false} AllPerfectStreak(js: seq<Judgement>)
    requires AllPerfect(js)
    ensures Streak(js) == |js|
  {
    if |js| > 0 {
      AllPerfectStreak(js[..|js| - 1]);
    }
  }
}
