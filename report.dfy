/**
 * The small rules behind the monitor's report and chart
 * (scripts/monitor_transfer_count.py): `summarize_error` shortens an
 * exception to one line, `calc_change_ratio` and `format_change` describe the
 * change between two counts, `find_same_period_last_year` picks the row a
 * year before the latest, and `plot_series` thins the x-axis ticks of a long
 * series.
 */
module Report {
  import opened Wrappers
  import opened Text
  import opened Period

  // ---------------------------------------------------------------------------
  // summarize_error

  const UnknownError := "未知錯誤"
  const MaxErrorLength := 300

  /** The index of the first line that does not strip to nothing, or `|lines|` when every line does. */
  function FirstNonBlank(lines: seq<string>): (i: nat)
    ensures i <= |lines|
    ensures i < |lines| ==> !IsBlank(lines[i])
    ensures forall j :: 0 <= j < i ==> IsBlank(lines[j])
    decreases |lines|
  {
    if lines == [] then 0
    else if !IsBlank(lines[0]) then 0
    else
      var i := 1 + FirstNonBlank(lines[1..]);
      assert forall j :: 1 <= j < |lines| ==> lines[j] == lines[1..][j - 1];
      i
  }

  /** Every line break of `splitlines()` is also white space for `strip()`. */
  lemma {:induction false} LineBreakIsSpace(c: char)
    requires IsLineBreak(c)
    ensures IsSpace(c)
  {
  }

  /** A text with a character that is not white space has a line that is not blank. */
  lemma {:induction false} NonBlankHasLine(s: string, w: nat)
    requires w < |s| && !IsSpace(s[w])
    ensures exists i :: 0 <= i < |SplitLines(s)| && !IsBlank(SplitLines(s)[i])
  {
    var i := NonBlankLine(s, w);
  }

  /** The index of a line that is not blank, for a text with a character that is not white space. */
  lemma {:induction false} NonBlankLine(s: string, w: nat) returns (i: nat)
    requires w < |s| && !IsSpace(s[w])
    ensures i < |SplitLines(s)| && !IsBlank(SplitLines(s)[i])
    decreases |s|
  {
    var k := LineEnd(s, 0);
    if w < k || k == |s| {
      i := 0;
      FirstLineHolds(s, w);
    } else {
      var t := s[k + BreakWidth(s, k)..];
      LaterCharacter(s, w);
      var j := NonBlankLine(t, w - (|s| - |t|));
      i := j + 1;
      LaterLine(s, t, j);
    }
  }

  /** A character before the first break is in the first line. */
  lemma {:induction false} FirstLineHolds(s: string, w: nat)
    requires w < |s| && !IsSpace(s[w]) && (w < LineEnd(s, 0) || LineEnd(s, 0) == |s|)
    ensures 0 < |SplitLines(s)| && !IsBlank(SplitLines(s)[0])
  {
    SplitLinesHead(s);
    assert SplitLines(s)[0][w] == s[w];
  }

  /** A character that is not white space after the first break lies past the whole break. */
  lemma {:induction false} LaterCharacter(s: string, w: nat)
    requires w < |s| && !IsSpace(s[w]) && LineEnd(s, 0) <= w && LineEnd(s, 0) < |s|
    ensures var k := LineEnd(s, 0);
            && k + BreakWidth(s, k) <= w
            && s[k + BreakWidth(s, k)..][w - (k + BreakWidth(s, k))] == s[w]
  {
    LineBreakIsSpace(s[LineEnd(s, 0)]);
  }

  /** Line `j` after the first break is line `j + 1` of the whole text. */
  lemma {:induction false} LaterLine(s: string, t: string, j: nat)
    requires s != [] && LineEnd(s, 0) < |s| && t == s[LineEnd(s, 0) + BreakWidth(s, LineEnd(s, 0))..]
    requires j < |SplitLines(t)| && !IsBlank(SplitLines(t)[j])
    ensures j + 1 < |SplitLines(s)| && !IsBlank(SplitLines(s)[j + 1])
  {
    SplitLinesHead(s);
    var lines := SplitLines(s);
    assert lines[j + 1] == lines[1..][j];
  }

  /**
   * `summarize_error`: `未知錯誤` for a message that strips to nothing,
   * otherwise the first non-blank line of the stripped message, itself
   * stripped and cut to 300 characters. The fallback to the whole text is
   * never taken (see `NonBlankHasLine`).
   */
  function SummarizeError(message: string): (r: string)
    ensures |r| <= MaxErrorLength
    ensures IsBlank(message) ==> r == UnknownError
    ensures !IsBlank(message) ==>
              var lines := SplitLines(Strip(message));
              exists i :: 0 <= i < |lines| && !IsBlank(lines[i]) && (forall j :: 0 <= j < i ==> IsBlank(lines[j]))
                && r == Take(Strip(lines[i]), MaxErrorLength)
    ensures !IsBlank(message) ==> r != [] && !IsSpace(r[0])
  {
    var text := Strip(message);
    BlankIffStripsEmpty(message);
    if text == [] then UnknownError
    else
      var lines := SplitLines(text);
      NonBlankHasLine(text, 0);
      var i := FirstNonBlank(lines);
      var first := if i < |lines| then BlankIffStripsEmpty(lines[i]); Strip(lines[i]) else text;
      Take(first, MaxErrorLength)
  }

  // ---------------------------------------------------------------------------
  // calc_change_ratio and format_change

  function Abs(n: int): nat {
    if n < 0 then -n else n
  }

  /**
   * `calc_change_ratio`: the change in percent of the previous count, or None
   * when there is no previous count or it is 0. Computed exactly, where the
   * source divides floating-point numbers.
   */
  function ChangeRatio(current: int, previous: Option<int>): (r: Option<real>)
    ensures r.None? <==> previous.None? || previous.value == 0
    ensures r.Some? ==> r.value * previous.value as real == ((current - previous.value) * 100) as real
  {
    if previous.None? || previous.value == 0 then None
    else Some((current - previous.value) as real / previous.value as real * 100.0)
  }

  /** The ratio is positive when the count moved away from 0 in the direction of its sign, and 0 exactly when it did not move. */
  lemma {:induction false} RatioSign(current: int, previous: int)
    requires previous != 0
    ensures var ratio := ChangeRatio(current, Some(previous)).value;
            && (ratio == 0.0 <==> current == previous)
            && (ratio > 0.0 <==> current != previous && (current > previous) == (previous > 0))
            && (ratio < 0.0 <==> current != previous && (current > previous) != (previous > 0))
  {
    var ratio := ChangeRatio(current, Some(previous)).value;
    ProductSign(ratio, previous as real);
  }

  lemma {:induction false} ProductSign(x: real, y: real)
    ensures x * y > 0.0 <==> (x > 0.0 && y > 0.0) || (x < 0.0 && y < 0.0)
    ensures x * y == 0.0 <==> x == 0.0 || y == 0.0
  {
  }

  /** `a / b` rounded to the nearest integer, ties to the even one, as `{:.2f}` rounds. */
  function RoundHalfEven(a: nat, b: nat): (q: nat)
    requires b > 0
    ensures 2 * (q * b - a) <= b && 2 * (a - q * b) <= b
    ensures 2 * (q * b - a) == b || 2 * (a - q * b) == b ==> q % 2 == 0
  {
    var q, m := a / b, a % b;
    DivMod(a, b);
    if 2 * m < b || (2 * m == b && q % 2 == 0) then q else q + 1
  }

  lemma {:induction false} DivMod(a: nat, b: nat)
    requires b > 0
    ensures a == (a / b) * b + a % b && 0 <= a % b < b
    ensures ((a / b) + 1) * b == (a / b) * b + b
  {
  }

  /** `{:.2f}` of a non-negative number given in hundredths: the whole part, a point and two digits. */
  function Fixed2(n: nat): (r: string)
    ensures |r| >= 4 && r[|r| - 3] == '.'
    ensures AllDigits(r[..|r| - 3]) && AllDigits(r[|r| - 2..])
    ensures DigitsValue(r[..|r| - 3]) * 100 + DigitsValue(r[|r| - 2..]) == n
    ensures r[0] == '0' ==> n < 100 && r[1] == '.'
  {
    var whole, cents := NatToString(n / 100), Pad2(n % 100);
    var r := whole + "." + cents;
    assert r[..|r| - 3] == whole && r[|r| - 2..] == cents;
    assert n < 100 ==> whole == [DigitChar(0)];
    r
  }

  /**
   * The hundredths of `|delta / previous * 100|`, rounded. The minus sign of
   * `{:.2f}` is a separate matter (`PercentNegative`).
   */
  function PercentCents(delta: int, previous: int): nat
    requires previous != 0
  {
    RoundHalfEven(Abs(delta) * 10000, Abs(previous))
  }

  /**
   * Whether `{ratio:.2f}` starts with a minus sign: the ratio is negative, or
   * it is the IEEE negative zero that `0 / previous` yields for a negative
   * previous count.
   */
  predicate PercentNegative(delta: int, previous: int) {
    (previous < 0) != (delta < 0)
  }

  /** `{ratio:.2f}` for the exact ratio of `delta` to `previous`. */
  function PercentText(delta: int, previous: int): string
    requires previous != 0
  {
    (if PercentNegative(delta, previous) then "-" else "") + Fixed2(PercentCents(delta, previous))
  }

  const NotEnoughData := "資料不足"
  const CountUnit := " 棟"

  /** `"+" if delta >= 0 else ""`. */
  function SignPrefix(delta: int): string {
    if delta >= 0 then "+" else ""
  }

  /** `f"{sign}{delta:,} 棟"`: the difference signed either way, with its unit. */
  function CountText(delta: int): (r: string)
    ensures r != [] && r[|r| - 1] == '棟'
    ensures r[0] == '+' <==> delta >= 0
    ensures r[0] == '-' <==> delta < 0
    ensures |r| >= 3 && r[|r| - 2..] == CountUnit
    ensures var digits := RemoveChar(r[1..|r| - 2], ',');
            AllDigits(digits) && DigitsValue(digits) == Abs(delta)
  {
    var g := FormatGrouped(delta);
    var r := SignPrefix(delta) + g + CountUnit;
    assert r[1..|r| - 2] == if delta < 0 then g[1..] else g;
    r
  }

  /** Between its sign and its unit, the count text has the comma layout of `{delta:,}` and no leading zero. */
  lemma {:induction false} CountTextCommas(delta: int)
    ensures var r := CountText(delta);
            var digits := r[1..|r| - 2];
            digits != [] && (digits[0] == '0' ==> delta == 0) && CommasEveryThree(digits)
  {
    FormatGroupedCommas(delta);
    var g := FormatGrouped(delta);
    var r := CountText(delta);
    assert r == SignPrefix(delta) + g + CountUnit;
    assert r[1..|r| - 2] == if delta < 0 then g[1..] else g;
  }

  /**
   * `format_change`: `資料不足` without a previous count; otherwise the signed,
   * comma-grouped difference with its unit, followed by the signed percentage
   * in parentheses when the previous count is not 0. The `+` leads whenever
   * the difference is not negative, also in front of a negative percentage.
   */
  function FormatChange(current: int, previous: Option<int>): (r: string)
    ensures r != []
    ensures previous.None? ==> r == NotEnoughData
    ensures previous.Some? ==> (r[0] == '+' <==> current >= previous.value)
    ensures previous.Some? ==> (r[0] == '-' <==> current < previous.value)
    ensures previous.Some? ==> (r[|r| - 1] == ')' <==> previous.value != 0)
    ensures previous.Some? ==>
              var delta := current - previous.value;
              var count := CountText(delta);
              && |count| <= |r| && r[..|count|] == count
              && (previous.value == 0 ==> r == count)
              && (previous.value != 0 ==> r[|count|..] == " (" + SignPrefix(delta) + PercentText(delta, previous.value) + "%)")
  {
    match previous
    case None => NotEnoughData
    case Some(p) =>
      var delta := current - p;
      var count := CountText(delta);
      if ChangeRatio(current, previous).None? then count
      else
        var r := count + (" (" + SignPrefix(delta) + PercentText(delta, p) + "%)");
        assert r[0] == count[0];
        r
  }

  /** The percentage shows a minus sign exactly when the ratio is negative, or 0 over a negative previous count. */
  lemma {:induction false} PercentSign(current: int, previous: int)
    requires previous != 0
    ensures var ratio := ChangeRatio(current, Some(previous)).value;
            PercentText(current - previous, previous)[0] == '-' <==> ratio < 0.0 || (ratio == 0.0 && previous < 0)
  {
    RatioSign(current, previous);
    var n := PercentCents(current - previous, previous);
    assert IsDigit(Fixed2(n)[0]) by {
      assert Fixed2(n)[0] == Fixed2(n)[..|Fixed2(n)| - 3][0];
    }
  }

  /**
   * The printed hundredths are within half a hundredth of the magnitude of
   * the exact percentage: of the `ratio` that `ChangeRatio`'s contract pins
   * down by `ratio * previous == 100 * (current - previous)`.
   */
  lemma {:induction false} PercentNearest(current: int, previous: int, ratio: real)
    requires previous != 0 && ratio * previous as real == ((current - previous) * 100) as real
    ensures var size := if ratio < 0.0 then -ratio else ratio;
            -0.5 <= PercentCents(current - previous, previous) as real - size * 100.0 <= 0.5
  {
    var delta := current - previous;
    NearestFor(ratio, PercentCents(delta, previous), Abs(delta) * 10000, Abs(previous), delta, previous);
  }

  lemma {:induction false} NearestFor(ratio: real, q: nat, a: nat, b: nat, delta: int, previous: int)
    requires b == Abs(previous) && a == Abs(delta) * 10000 && b > 0
    requires ratio * previous as real == (delta * 100) as real
    requires 2 * (q * b - a) <= b && 2 * (a - q * b) <= b
    ensures var size := if ratio < 0.0 then -ratio else ratio;
            -0.5 <= q as real - size * 100.0 <= 0.5
  {
    var size := if ratio < 0.0 then -ratio else ratio;
    var qr, ar, br := q as real, a as real, b as real;
    assert 2.0 * (qr * br - ar) <= br && 2.0 * (ar - qr * br) <= br by {
      NearestReal(q, a, b);
    }
    assert size * br * 100.0 == ar by {
      Magnitude(ratio, previous, delta);
    }
    Scaled(qr, ar, br, size);
  }

  /** `r * p == 100 d` carries over to the magnitudes. */
  lemma {:induction false} Magnitude(r: real, p: int, d: int)
    requires r * p as real == (d * 100) as real
    ensures (if r < 0.0 then -r else r) * Abs(p) as real * 100.0 == (Abs(d) * 10000) as real
  {
    var size := if r < 0.0 then -r else r;
    ProductSign(r, p as real);
    assert size * Abs(p) as real == (Abs(d) * 100) as real by {
      if (r < 0.0) == (p < 0) {
        assert size * Abs(p) as real == r * p as real;
      } else {
        assert size * Abs(p) as real == -(r * p as real);
      }
    }
  }

  /** `RoundHalfEven`'s bound read over the reals. */
  lemma {:induction false} NearestReal(q: nat, a: nat, b: nat)
    requires 2 * (q * b - a) <= b && 2 * (a - q * b) <= b
    ensures 2.0 * (q as real * b as real - a as real) <= b as real
    ensures 2.0 * (a as real - q as real * b as real) <= b as real
  {
    CastProduct(q, b);
    var g := q * b - a;
    assert (2 * g) as real == 2.0 * g as real;
    assert (-2 * g) as real == -2.0 * g as real;
  }

  lemma {:induction false} CastProduct(q: int, b: int)
    ensures (q * b) as real == q as real * b as real
  {
  }

  /** From `|q b - a| <= b / 2` and `100 s b == a` to `|q - 100 s| <= 1/2`. */
  lemma {:induction false} Scaled(q: real, a: real, b: real, s: real)
    requires b > 0.0
    requires 2.0 * (q * b - a) <= b && 2.0 * (a - q * b) <= b
    requires s * b * 100.0 == a
    ensures -0.5 <= q - s * 100.0 <= 0.5
  {
    var e := q - s * 100.0;
    assert e * b == q * b - a;
    BelowOne(2.0 * e, b);
    BelowOne(-2.0 * e, b);
  }

  lemma {:induction false} BelowOne(x: real, b: real)
    requires b > 0.0 && x * b <= b
    ensures x <= 1.0
  {
  }

  // ---------------------------------------------------------------------------
  // find_same_period_last_year

  /** A row of the same month one year before `latest`. */
  predicate SamePeriodLastYear<V>(p: Point<V>, latest: YearMonth) {
    p.date.year == latest.year - 1 && p.date.month == latest.month
  }

  /** The last of the first `n` rows that is the same period one year before `latest`. */
  function LastSamePeriod<V>(series: seq<Point<V>>, latest: YearMonth, n: nat): (r: Option<nat>)
    requires n <= |series|
    ensures r.Some? ==> r.value < n && SamePeriodLastYear(series[r.value], latest)
    ensures r.Some? ==> forall j :: r.value < j < n ==> !SamePeriodLastYear(series[j], latest)
    ensures r.None? <==> forall j :: 0 <= j < n ==> !SamePeriodLastYear(series[j], latest)
    decreases n
  {
    if n == 0 then None
    else if SamePeriodLastYear(series[n - 1], latest) then Some(n - 1)
    else LastSamePeriod(series, latest, n - 1)
  }

  /**
   * `find_same_period_last_year`: the index of the last row whose month is
   * the latest row's month one year earlier, or None. The series is never
   * empty here: `build_taiwan_series` raises before returning an empty one.
   */
  function FindSamePeriodLastYear<V>(series: seq<Point<V>>): (r: Option<nat>)
    requires series != []
    ensures var latest := series[|series| - 1].date;
            && (r.Some? ==> r.value < |series| - 1 && SamePeriodLastYear(series[r.value], latest))
            && (r.Some? ==> forall j :: r.value < j < |series| ==> !SamePeriodLastYear(series[j], latest))
            && (r.None? <==> forall j :: 0 <= j < |series| ==> !SamePeriodLastYear(series[j], latest))
  {
    var latest := series[|series| - 1].date;
    LastSamePeriod(series, latest, |series|)
  }

  // ---------------------------------------------------------------------------
  // x-axis ticks in plot_series

  function Max(a: int, b: int): int {
    if a < b then b else a
  }

  /** `range(start, n, step)` for `start >= 0`. */
  function Multiples(n: nat, step: nat, start: nat): (r: seq<int>)
    requires step > 0
    ensures forall j :: 0 <= j < |r| ==> r[j] == start + j * step && r[j] < n
    ensures start + |r| * step >= n
    decreases n - start
  {
    if start >= n then []
    else
      var rest := Multiples(n, step, start + step);
      var r := [start] + rest;
      forall j | 1 <= j < |r|
        ensures r[j] == start + j * step
      {
        MulPred(j, step);
      }
      MulPred(|r|, step);
      r
  }

  lemma {:induction false} MulPred(j: int, step: int)
    ensures (j - 1) * step + step == j * step
  {
  }

  /** The distance between two ticks: a twelfth of a long series, 1 otherwise. */
  function TickStride(n: nat): (step: nat)
    ensures step >= 1
  {
    if n > 24 then Max(1, n / 12) else 1
  }

  /** The tick positions of `plot_series`: every `max(1, n // 12)`-th point when there are more than 24, every point otherwise. */
  function TickIndices(n: nat): seq<int> {
    if n > 24 then Multiples(n, Max(1, n / 12), 0) else seq(n, i => i)
  }

  /** The ticks are the multiples of the stride below `n`, in increasing order. */
  lemma {:induction false} TickPositions(n: nat)
    ensures forall k :: 0 <= k < |TickIndices(n)| ==> TickIndices(n)[k] == k * TickStride(n)
    ensures forall k :: 0 <= k < |TickIndices(n)| ==> 0 <= TickIndices(n)[k] < n
    ensures n > 0 ==> |TickIndices(n)| > 0 && TickIndices(n)[0] == 0
  {
  }

  /** A position is a tick exactly when it is a point of the series and a multiple of the stride. */
  lemma {:induction false} TickMembership(n: nat, i: int)
    ensures i in TickIndices(n) <==> 0 <= i < n && i % TickStride(n) == 0
  {
    var t, step := TickIndices(n), TickStride(n);
    TickPositions(n);
    if 0 <= i < n && i % step == 0 {
      var k := i / step;
      assert k * step == i;
      TickCount(n);
      if k >= |t| {
        MulMono(|t|, k, step);
        assert false;
      }
      assert t[k] == i;
    }
    if i in t {
      var k :| 0 <= k < |t| && t[k] == i;
      MulMod(k, step);
    }
  }

  lemma {:induction false} MulMod(k: nat, step: nat)
    requires step > 0
    ensures (k * step) % step == 0
  {
    var x := k * step;
    var q, r := x / step, x % step;
    assert x == q * step + r;
    assert (k - q) * step == r;
    MulRange(k - q, step);
  }

  lemma {:induction false} MulRange(m: int, d: nat)
    requires d > 0 && 0 <= m * d < d
    ensures m == 0
  {
  }

  lemma {:induction false} MulMono(a: nat, b: nat, step: nat)
    requires a <= b
    ensures a * step <= b * step
  {
  }

  /**
   * A series of more than 24 points gets between 12 and 18 ticks; a shorter
   * one gets one per point.
   */
  lemma {:induction false} TickCount(n: nat)
    ensures n <= 24 ==> |TickIndices(n)| == n
    ensures n > 24 ==> 12 <= |TickIndices(n)| <= 18
    ensures |TickIndices(n)| * TickStride(n) >= n
  {
    if n > 24 {
      var t, step := TickIndices(n), n / 12;
      var c := |t|;
      assert 12 * step <= n < 12 * step + 12;
      assert c * step >= n;
      assert (c - 1) * step < n by {
        assert t[c - 1] == (c - 1) * step;
      }
      if c < 12 {
        MulMono(c, 11, step);
        assert false;
      }
      if c > 18 {
        MulMono(18, c - 1, step);
        assert false;
      }
    }
  }
}
