/**
  The handful of .NET string operations the chart reader relies on, written
  out character by character: `Trim`, `Replace(" ", "")`, `IndexOf("//")`,
  lower-casing, prefix tests and the `-?\d+(\.\d+)?` number scan that
  `Chart.TryParseDoubleInText` performs before `double.TryParse`.
*/
module Text {
  import opened Wrappers

  /** `char.IsWhiteSpace`: the Unicode space separators plus the line and
      paragraph separators and the C0/C1 control characters .NET counts. */
  predicate IsWhiteSpace(c: char) {
    || ('\U{0009}' <= c <= '\U{000D}')
    || c == ' ' || c == '\U{0085}' || c == '\U{00A0}' || c == '\U{1680}'
    || ('\U{2000}' <= c <= '\U{200A}')
    || c == '\U{2028}' || c == '\U{2029}' || c == '\U{202F}' || c == '\U{205F}'
    || c == '\U{3000}'
  }

  predicate AllWhiteSpace(s: string) {
    forall i :: 0 <= i < |s| ==> IsWhiteSpace(s[i])
  }

  /** Neither end of `s` is white space. */
  predicate Trimmed(s: string) {
    |s| == 0 || (!IsWhiteSpace(s[0]) && !IsWhiteSpace(s[|s| - 1]))
  }

  /** `TrimStart()`: the longest suffix that does not start with white space. */
  function TrimStart(s: string): (r: string)
    ensures |r| <= |s| && r == s[|s| - |r|..]
    ensures AllWhiteSpace(s[..|s| - |r|])
    ensures |r| == 0 || !IsWhiteSpace(r[0])
  {
    if |s| > 0 && IsWhiteSpace(s[0]) then TrimStart(s[1..]) else s
  }

  /** `TrimEnd()`: the longest prefix that does not end with white space. */
  function TrimEnd(s: string): (r: string)
    ensures |r| <= |s| && r == s[..|r|]
    ensures AllWhiteSpace(s[|r|..])
    ensures |r| == 0 || !IsWhiteSpace(r[|r| - 1])
  {
    if |s| > 0 && IsWhiteSpace(s[|s| - 1]) then
      var r := TrimEnd(s[..|s| - 1]);
      WhiteTail(s, |r|);
      r
    else s
  }

  /** White space after `m` in all but the last character, and a white
      last character, make white space after `m`. */
  lemma WhiteTail(s: string, m: nat)
    requires m < |s| && AllWhiteSpace(s[..|s| - 1][m..]) && IsWhiteSpace(s[|s| - 1])
    ensures AllWhiteSpace(s[m..])
  {
    forall i | 0 <= i < |s[m..]|
      ensures IsWhiteSpace(s[m..][i])
    {
      if i < |s| - 1 - m {
        assert s[m..][i] == s[..|s| - 1][m..][i];
      }
    }
  }

  /** `r` stands at `i` in `s` with only white space before and after it. */
  predicate TrimWindow(s: string, r: string, i: int) {
    && 0 <= i <= |s| - |r|
    && r == s[i..i + |r|]
    && AllWhiteSpace(s[..i])
    && AllWhiteSpace(s[i + |r|..])
  }

  /** Stripping a white-space prefix and then a white-space suffix leaves
      a window of the text. */
  lemma StripWindow(s: string, t: string, r: string)
    requires |t| <= |s| && t == s[|s| - |t|..] && AllWhiteSpace(s[..|s| - |t|])
    requires |r| <= |t| && r == t[..|r|] && AllWhiteSpace(t[|r|..])
    ensures TrimWindow(s, r, |s| - |t|)
  {
    assert s[|s| - |t| + |r|..] == t[|r|..];
  }

  /** `Trim()`: white space removed from both ends, and only from the ends:
      `s` is the result with white space before and after it. */
  function Trim(s: string): (r: string)
    ensures Trimmed(r)
    ensures |r| <= |s|
    ensures exists i :: TrimWindow(s, r, i)
    ensures Trimmed(s) ==> r == s
  {
    var t := TrimStart(s);
    var r := TrimEnd(t);
    assert |r| > 0 ==> r[0] == t[0];
    StripWindow(s, t, r);
    r
  }

  /** `Replace(" ", "")`: every U+0020 dropped, every other character kept
      in order. */
  function RemoveSpaces(s: string): (r: string)
    ensures |r| <= |s|
    ensures forall i :: 0 <= i < |r| ==> r[i] != ' '
    ensures multiset(r) == multiset(s)[' ' := 0]
  {
    if |s| == 0 then []
    else
      assert s == [s[0]] + s[1..];
      (if s[0] == ' ' then [] else [s[0]]) + RemoveSpaces(s[1..])
  }

  /** Dropping spaces from a trimmed text leaves it trimmed: its first and
      last characters are not spaces and stay where they are. */
  lemma SpacesKeepTrimmed(s: string)
    ensures Trimmed(s) ==> Trimmed(RemoveSpaces(s))
  {
    if |s| > 1 && Trimmed(s) {
      assert IsWhiteSpace(' ');
      var mid := s[1..|s| - 1];
      assert s == [s[0]] + mid + [s[|s| - 1]];
      RemoveSpacesAppend([s[0]] + mid, [s[|s| - 1]]);
      RemoveSpacesAppend([s[0]], mid);
      assert RemoveSpaces([s[0]]) == [s[0]];
      assert RemoveSpaces([s[|s| - 1]]) == [s[|s| - 1]];
    } else if |s| == 1 && Trimmed(s) {
      assert IsWhiteSpace(' ');
      assert RemoveSpaces(s) == s;
    }
  }

  /** A `//` starts at index `i`. */
  predicate CommentAt(s: string, i: int) {
    0 <= i && i + 1 < |s| && s[i] == '/' && s[i + 1] == '/'
  }

  /** `IndexOf("//", StringComparison.Ordinal)` searched from `from`. */
  function CommentIndex(s: string, from: nat): (r: Option<nat>)
    requires from <= |s|
    ensures r.Some? ==> from <= r.value && CommentAt(s, r.value)
    ensures r.Some? ==> forall j :: from <= j < r.value ==> !CommentAt(s, j)
    ensures r.None? <==> forall j :: from <= j < |s| ==> !CommentAt(s, j)
    decreases |s| - from
  {
    if from == |s| then None
    else if CommentAt(s, from) then Some(from)
    else CommentIndex(s, from + 1)
  }

  /** `IndexOf(c)` searched from `from`: the first position holding `c`. */
  function IndexOfChar(s: string, c: char, from: nat): (r: Option<nat>)
    requires from <= |s|
    ensures r.Some? ==> from <= r.value < |s| && s[r.value] == c
    ensures r.Some? ==> forall j :: from <= j < r.value ==> s[j] != c
    ensures r.None? <==> forall j :: from <= j < |s| ==> s[j] != c
    decreases |s| - from
  {
    if from == |s| then None
    else if s[from] == c then Some(from)
    else IndexOfChar(s, c, from + 1)
  }

  /** `s[i + 1..e]` is the second field of `s` split at `sep`: `i` is the
      first separator, and `e` the second one or the end of the text. */
  predicate SecondFieldAt(s: string, sep: char, i: int, e: int) {
    && 0 <= i < e <= |s|
    && s[i] == sep
    && (forall j :: 0 <= j < i ==> s[j] != sep)
    && (forall j :: i < j < e ==> s[j] != sep)
    && (e == |s| || s[e] == sep)
  }

  /** `Split(sep)[1]`: the field between the first and the second separator
      (or the end), `None` when the split yields a single field. */
  function SecondField(s: string, sep: char): (r: Option<string>)
    ensures r.None? <==> forall j :: 0 <= j < |s| ==> s[j] != sep
    ensures r.Some? ==> exists i, e :: SecondFieldAt(s, sep, i, e) && r.value == s[i + 1..e]
  {
    match IndexOfChar(s, sep, 0)
    case None => None
    case Some(i) =>
      var rest := s[i + 1..];
      match IndexOfChar(rest, sep, 0)
      case None =>
        assert SecondFieldAt(s, sep, i, |s|);
        Some(rest)
      case Some(j) =>
        assert forall k :: i < k < i + 1 + j ==> s[k] == rest[k - i - 1];
        assert SecondFieldAt(s, sep, i, i + 1 + j);
        assert rest[..j] == s[i + 1..i + 1 + j];
        Some(rest[..j])
  }

  lemma TailOfAppend(a: string, b: string)
    requires |a| > 0
    ensures (a + b)[0] == a[0] && (a + b)[1..] == a[1..] + b
  { }

  /** `Replace(" ", "")` distributes over concatenation. */
  lemma {:induction false} RemoveSpacesAppend(a: string, b: string)
    ensures RemoveSpaces(a + b) == RemoveSpaces(a) + RemoveSpaces(b)
    decreases |a|
  {
    if |a| > 0 {
      var head := if a[0] == ' ' then [] else [a[0]];
      TailOfAppend(a, b);
      RemoveSpacesAppend(a[1..], b);
      assert RemoveSpaces(a + b) == head + RemoveSpaces(a[1..] + b);
      assert RemoveSpaces(a) == head + RemoveSpaces(a[1..]);
    } else {
      assert a + b == b;
    }
  }

  /** Lower-casing of one character; only the ASCII letters change. */
  function LowerChar(c: char): (r: char)
    ensures 'A' <= c <= 'Z' ==> 'a' <= r <= 'z' && r as int - c as int == 32
    ensures !('A' <= c <= 'Z') ==> r == c
  {
    if 'A' <= c <= 'Z' then (c as int + 32) as char else c
  }

  /** `ToLower()`, character by character. */
  function Lower(s: string): (r: string)
    ensures |r| == |s|
    ensures forall i :: 0 <= i < |s| ==> r[i] == LowerChar(s[i])
  {
    seq(|s|, i requires 0 <= i < |s| => LowerChar(s[i]))
  }

  /** `StartsWith(prefix, StringComparison.OrdinalIgnoreCase)`. */
  predicate StartsWithIgnoreCase(s: string, prefix: string) {
    |prefix| <= |s| && forall i :: 0 <= i < |prefix| ==> LowerChar(s[i]) == LowerChar(prefix[i])
  }

  /** Against a prefix already in lower case, testing the lower-cased text
      is the case-insensitive prefix test. */
  lemma LowerPrefix(s: string, p: string)
    requires forall i :: 0 <= i < |p| ==> LowerChar(p[i]) == p[i]
    ensures p <= Lower(s) <==> StartsWithIgnoreCase(s, p)
  {
    if |p| <= |s| {
      assert p <= Lower(s) <==> forall i :: 0 <= i < |p| ==> p[i] == Lower(s)[i];
    }
  }

  predicate IsDigit(c: char) {
    '0' <= c <= '9'
  }

  predicate AllDigits(s: string) {
    forall i :: 0 <= i < |s| ==> IsDigit(s[i])
  }

  /** The value of a run of decimal digits, most significant first. */
  function DigitsValue(ds: string): nat
    requires AllDigits(ds)
  {
    if |ds| == 0 then 0
    else DigitsValue(ds[..|ds| - 1]) * 10 + (ds[|ds| - 1] as int - '0' as int)
  }

  /** Length of the run of digits that starts at `p`. */
  function DigitRun(s: string, p: nat): (n: nat)
    requires p <= |s|
    ensures p + n <= |s|
    ensures AllDigits(s[p..p + n])
    ensures p + n == |s| || !IsDigit(s[p + n])
    decreases |s| - p
  {
    if p < |s| && IsDigit(s[p]) then
      var m := DigitRun(s, p + 1);
      assert s[p..p + 1 + m] == [s[p]] + s[p + 1..p + 1 + m];
      1 + m
    else 0
  }

  /** The pattern `-?\d+(\.\d+)?` can match starting at `p`. */
  predicate NumberStartsAt(s: string, p: int) {
    0 <= p < |s| && (IsDigit(s[p]) || (s[p] == '-' && p + 1 < |s| && IsDigit(s[p + 1])))
  }

  /** The fraction after the digits ending at `e`: taken only when a digit
      follows the point. */
  function FractionAt(s: string, e: nat): real
    requires e <= |s|
  {
    if e + 1 < |s| && s[e] == '.' && IsDigit(s[e + 1]) then
      Fraction(s[e + 1..e + 1 + DigitRun(s, e + 1)])
    else 0.0
  }

  /** The digits after a decimal point, read as a fraction: `0.d₁d₂…` is
      `(d₁ + 0.d₂…) / 10`. */
  function Fraction(ds: string): real
    requires AllDigits(ds)
  {
    if |ds| == 0 then 0.0
    else ((ds[0] as int - '0' as int) as real + Fraction(ds[1..])) / 10.0
  }

  /** The value of the greedy match of `-?\d+(\.\d+)?` at `p`. */
  function NumberAt(s: string, p: nat): real
    requires NumberStartsAt(s, p)
  {
    if s[p] == '-' then -Magnitude(s, p + 1) else Magnitude(s, p)
  }

  /** The digits at `q` and the fraction after them, if any. */
  function Magnitude(s: string, q: nat): real
    requires q <= |s|
  {
    var n := DigitRun(s, q);
    DigitsValue(s[q..q + n]) as real + FractionAt(s, q + n)
  }

  /** The leftmost number at or after `p`. */
  function NumberFrom(s: string, p: nat): (r: Option<real>)
    requires p <= |s|
    ensures r.None? <==> forall q :: p <= q < |s| ==> !NumberStartsAt(s, q)
    decreases |s| - p
  {
    if p == |s| then None
    else if NumberStartsAt(s, p) then Some(NumberAt(s, p))
    else NumberFrom(s, p + 1)
  }

  /** `TryParseDoubleInText`: the first decimal number written anywhere in
      `text`, or `None` when there is none (the C# method then reports
      failure and yields 0). */
  function NumberInText(text: string): (r: Option<real>)
    ensures r.None? <==> forall q :: 0 <= q < |text| ==> !NumberStartsAt(text, q)
  {
    NumberFrom(text, 0)
  }

  /** The decimal rendering of a natural number, most significant digit first. */
  function Decimal(n: nat): (d: string)
    ensures |d| >= 1 && AllDigits(d)
  {
    if n < 10 then [('0' as int + n) as char]
    else Decimal(n / 10) + [('0' as int + n % 10) as char]
  }

  /** Reading back a rendered number gives the number. */
  lemma {:induction false} DecimalValue(n: nat)
    ensures DigitsValue(Decimal(n)) == n
  {
    if n >= 10 {
      var d := Decimal(n);
      assert d[..|d| - 1] == Decimal(n / 10);
      DecimalValue(n / 10);
    }
  }

  /** A digit run spans exactly the digits written at its start. */
  lemma {:induction false} DigitRunOver(pre: string, ds: string, post: string)
    requires AllDigits(ds)
    requires |post| == 0 || !IsDigit(post[0])
    ensures DigitRun(pre + ds + post, |pre|) == |ds|
    decreases |ds|
  {
    var s := pre + ds + post;
    if |ds| > 0 {
      assert s == (pre + ds[..1]) + ds[1..] + post;
      DigitRunOver(pre + ds[..1], ds[1..], post);
    }
  }

  /** The scan skips any prefix holding neither a digit nor a minus sign. */
  lemma {:induction false} NumberSkipsPrefix(s: string, p: nat, k: nat)
    requires p + k <= |s|
    requires forall i :: p <= i < p + k ==> !IsDigit(s[i]) && s[i] != '-'
    ensures NumberFrom(s, p) == NumberFrom(s, p + k)
    decreases k
  {
    if k > 0 {
      assert !NumberStartsAt(s, p);
      assert NumberFrom(s, p) == NumberFrom(s, p + 1);
      NumberSkipsPrefix(s, p + 1, k - 1);
    }
  }

  /** Digits not followed by a point have no fraction. */
  lemma NoFraction(s: string, e: nat)
    requires e == |s| || (e < |s| && s[e] != '.')
    ensures FractionAt(s, e) == 0.0
  {
  }

  /** The value read at `p` when the digits after the optional sign are
      `d` and no fraction follows them. */
  lemma NumberAtWhole(s: string, p: nat, q: nat, d: string)
    requires NumberStartsAt(s, p) && q == (if s[p] == '-' then p + 1 else p)
    requires AllDigits(d) && DigitRun(s, q) == |d| && s[q..q + |d|] == d
    requires q + |d| == |s| || s[q + |d|] != '.'
    ensures NumberAt(s, p) == if s[p] == '-' then -(DigitsValue(d) as real) else DigitsValue(d) as real
  {
    WholeMagnitude(s, q, d);
  }

  /** Digits `d` at `q` with no fraction after them have their own value. */
  lemma WholeMagnitude(s: string, q: nat, d: string)
    requires q <= |s| && AllDigits(d) && DigitRun(s, q) == |d| && s[q..q + |d|] == d
    requires q + |d| == |s| || s[q + |d|] != '.'
    ensures Magnitude(s, q) == DigitsValue(d) as real
  {
    NoFraction(s, q + |d|);
  }

  /** The value read at the start of a written number is that number. */
  lemma NumberAtDecimal(pre: string, negative: bool, n: nat, post: string)
    requires |post| == 0 || (!IsDigit(post[0]) && post[0] != '.')
    ensures var s := pre + (if negative then "-" else "") + Decimal(n) + post;
            NumberStartsAt(s, |pre|)
            && NumberAt(s, |pre|) == if negative then -(n as real) else n as real
  {
    var sign := if negative then "-" else "";
    var d := Decimal(n);
    var s := pre + sign + d + post;
    var q := |pre| + |sign|;
    assert s[q] == d[0];
    assert s[|pre|] == (if negative then '-' else d[0]);
    assert s == (pre + sign) + d + post;
    DigitRunOver(pre + sign, d, post);
    assert s[q..q + |d|] == d;
    DecimalValue(n);
    assert q + |d| < |s| ==> s[q + |d|] == post[0];
    NumberAtWhole(s, |pre|, q, d);
  }

  /** Round trip: a number written after a prefix without digits or minus
      signs, and not followed by a digit or a point, is the number the scan
      finds. */
  lemma NumberInDecimalText(pre: string, negative: bool, n: nat, post: string)
    requires forall i :: 0 <= i < |pre| ==> !IsDigit(pre[i]) && pre[i] != '-'
    requires |post| == 0 || (!IsDigit(post[0]) && post[0] != '.')
    ensures NumberInText(pre + (if negative then "-" else "") + Decimal(n) + post)
            == Some(if negative then -(n as real) else n as real)
  {
    var s := pre + (if negative then "-" else "") + Decimal(n) + post;
    forall i | 0 <= i < |pre|
      ensures !IsDigit(s[i]) && s[i] != '-'
    {
      assert s[i] == pre[i];
    }
    NumberSkipsPrefix(s, 0, |pre|);
    NumberAtDecimal(pre, negative, n, post);
  }
}
