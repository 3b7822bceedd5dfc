/**
 * Period labels of the building-transfer dataset (`parse_period` in
 * scripts/monitor_transfer_count.py). A raw label is a quarter such as `97Q1`
 * or `113季4`, or a month such as `113年5月`, `2024/05`, `113M5`, `202405` or
 * `11305`. Years below 1911 are Minguo years and are moved to the Gregorian
 * calendar by adding 1911. A recognised label is normalised to `YYYYQn` or
 * `YYYY-MM`.
 */
module Period {
  import opened Wrappers
  import opened Text

  /** The first day of a month, as `datetime(year, month, 1)` gives it. */
  datatype YearMonth = YearMonth(year: int, month: int)

  datatype ParseResult =
    | Parsed(date: YearMonth, periodLabel: string)
      /** No pattern matched: the source returns `(None, text)`. */
    | Unparsed(text: string)
      /** A pattern matched but the quarter or month is out of range, so `datetime` raises. */
    | InvalidDate(text: string)

  const MinguoOffset := 1911

  /** `str(raw).strip().replace(" ", "")`. */
  function Normalize(raw: string): string {
    RemoveChar(Strip(raw), ' ')
  }

  /** `year + 1911 if year < 1911 else year`. */
  function ToGregorian(y: nat): nat {
    if y < MinguoOffset then y + MinguoOffset else y
  }

  predicate IsQuarterMark(c: char) {
    c == 'Q' || c == 'q' || c == '季'
  }

  /** The regular expression `^(\d{2,4})[Qq季](\d)$`, giving the year and the quarter digit. */
  function MatchQuarter(t: string): Option<(nat, nat)> {
    if 4 <= |t| <= 6 && AllDigits(t[..|t| - 2]) && IsQuarterMark(t[|t| - 2]) && IsDigit(t[|t| - 1])
    then Some((DigitsValue(t[..|t| - 2]), DigitValue(t[|t| - 1])))
    else None
  }

  /** The length of the run of digits that starts `s`. */
  function LeadingDigits(s: string): (k: nat)
    ensures k <= |s| && AllDigits(s[..k])
    ensures k < |s| ==> !IsDigit(s[k])
    decreases |s|
  {
    if s != [] && IsDigit(s[0]) then
      var k := 1 + LeadingDigits(s[1..]);
      assert s[..k] == [s[0]] + s[1..][..k - 1];
      k
    else 0
  }

  /** The separator between year and month in the first three month patterns. */
  datatype Separator = YearChar | SlashOrDash | LetterM

  /** `年`, `[/-]` and `M`; the month patterns are matched ignoring case, so `m` counts too. */
  predicate IsSeparator(kind: Separator, c: char) {
    match kind
    case YearChar => c == '年'
    case SlashOrDash => c == '/' || c == '-'
    case LetterM => c == 'M' || c == 'm'
  }

  /** What follows the month digits: `月` after `年`, nothing otherwise. */
  function Suffix(kind: Separator): string {
    if kind == YearChar then "月" else ""
  }

  /** `^(\d{2,4})<sep>(\d{1,2})<suffix>$`, giving the year and the month. */
  function MatchSplit(t: string, kind: Separator): Option<(nat, nat)> {
    var suffix := Suffix(kind);
    if |t| < |suffix| || t[|t| - |suffix|..] != suffix then None
    else
      var body := t[..|t| - |suffix|];
      var k := LeadingDigits(body);
      if 2 <= k <= 4 && k < |body| && IsSeparator(kind, body[k])
         && 1 <= |body| - k - 1 <= 2 && AllDigits(body[k + 1..])
      then Some((DigitsValue(body[..k]), DigitsValue(body[k + 1..])))
      else None
  }

  /** `^(\d{w})(\d{2})$` for a year of width `w`. */
  function MatchCompact(t: string, w: nat): Option<(nat, nat)> {
    if |t| == w + 2 && AllDigits(t) then Some((DigitsValue(t[..w]), DigitsValue(t[w..]))) else None
  }

  /** The five month patterns, tried in the order the source lists them. */
  function MatchMonthly(t: string): Option<(nat, nat)> {
    var p1 := MatchSplit(t, YearChar);
    if p1.Some? then p1 else
    var p2 := MatchSplit(t, SlashOrDash);
    if p2.Some? then p2 else
    var p3 := MatchSplit(t, LetterM);
    if p3.Some? then p3 else
    var p4 := MatchCompact(t, 4);
    if p4.Some? then p4 else
    MatchCompact(t, 3)
  }

  /** `f"{year}Q{quarter}"`. */
  function QuarterLabel(y: nat, q: nat): string {
    NatToString(y) + "Q" + NatToString(q)
  }

  /** `f"{year}-{month:02d}"`. */
  function MonthLabel(y: nat, m: nat): string
    requires m < 100
  {
    NatToString(y) + "-" + Pad2(m)
  }

  /** The outcome once the quarter pattern has matched `t` with year `y` and quarter `q`. */
  function QuarterResult(y: nat, q: nat, t: string): ParseResult {
    var g := ToGregorian(y);
    if 1 <= q <= 4 then Parsed(YearMonth(g, (q - 1) * 3 + 1), QuarterLabel(g, q)) else InvalidDate(t)
  }

  /** The outcome once a month pattern has matched `t` with year `y` and month `m`. */
  function MonthResult(y: nat, m: nat, t: string): ParseResult {
    var g := ToGregorian(y);
    if 1 <= m <= 12 then Parsed(YearMonth(g, m), MonthLabel(g, m)) else InvalidDate(t)
  }

  /** The quarter pattern, then the month patterns in order, on normalised text `t`. */
  function Classify(t: string): (r: ParseResult)
    ensures r.Parsed? ==> MinguoOffset <= r.date.year <= 9999 && 1 <= r.date.month <= 12
    ensures !r.Parsed? ==> r.text == t
  {
    match MatchQuarter(t)
    case Some((y, q)) =>
      assert y < Pow10(4) by { DigitsBound(t[..|t| - 2]); }
      QuarterResult(y, q, t)
    case None =>
      match MatchMonthly(t)
      case Some((y, m)) =>
        assert y < 10000 by { MonthlyYearBound(t); }
        MonthResult(y, m, t)
      case None => Unparsed(t)
  }

  /** `parse_period` with the `pd.to_datetime` fallback taken as "no match". */
  function ParsePeriod(raw: string): (r: ParseResult)
    ensures r.Parsed? ==> MinguoOffset <= r.date.year <= 9999 && 1 <= r.date.month <= 12
    ensures !r.Parsed? ==> r.text == Normalize(raw)
  {
    Classify(Normalize(raw))
  }

  lemma {:induction false} DigitsBound(s: string)
    requires AllDigits(s)
    ensures DigitsValue(s) < Pow10(|s|)
    decreases |s|
  {
    if s != [] {
      DigitsBound(s[..|s| - 1]);
    }
  }

  lemma {:induction false} MonthlyYearBound(t: string)
    requires MatchMonthly(t).Some?
    ensures MatchMonthly(t).value.0 < 10000
  {
    forall kind: Separator | MatchSplit(t, kind).Some?
      ensures MatchSplit(t, kind).value.0 < 10000
    {
      var body := t[..|t| - |Suffix(kind)|];
      var k := LeadingDigits(body);
      DigitsBound(body[..k]);
      PowMonotone(k, 4);
    }
    if MatchCompact(t, 4).Some? {
      DigitsBound(t[..4]);
    }
    if MatchCompact(t, 3).Some? {
      DigitsBound(t[..3]);
    }
  }

  lemma {:induction false} PowMonotone(a: nat, b: nat)
    requires a <= b
    ensures Pow10(a) <= Pow10(b)
    decreases b
  {
    if a < b {
      PowMonotone(a, b - 1);
    }
  }

  // ---------------------------------------------------------------------------
  // What each accepted shape parses to

  /** A string without white space is its own normal form. */
  lemma {:induction false} NormalizeNoSpace(s: string)
    requires NoSpace(s)
    ensures Normalize(s) == s
  {
    RemoveAbsentChar(s, ' ');
  }

  /** The leading digit run of `ys + [sep] + rest` ends at the separator. */
  lemma {:induction false} LeadingDigitsAt(ys: string, sep: char, rest: string)
    requires AllDigits(ys) && !IsDigit(sep)
    ensures LeadingDigits(ys + [sep] + rest) == |ys|
  {
    var s := ys + [sep] + rest;
    assert s[|ys|] == sep;
    assert forall i :: 0 <= i < |ys| ==> s[i] == ys[i];
  }

  /**
   * A quarter label: two to four digits, then `Q`, `q` or `季`, then one digit.
   * Quarter q starts in month (q - 1) * 3 + 1; a digit outside 1..4 makes
   * `datetime` raise.
   */
  lemma {:induction false} QuarterForm(raw: string, ys: string, mark: char, d: char)
    requires Normalize(raw) == ys + [mark] + [d]
    requires 2 <= |ys| <= 4 && AllDigits(ys) && IsQuarterMark(mark) && IsDigit(d)
    ensures ParsePeriod(raw) == QuarterResult(DigitsValue(ys), DigitValue(d), Normalize(raw))
  {
    var t := Normalize(raw);
    assert t[..|t| - 2] == ys;
    assert MatchQuarter(t) == Some((DigitsValue(ys), DigitValue(d)));
  }

  /** The separator pattern of `kind` reads year and month off `ys + [sep] + ms + suffix`. */
  lemma {:induction false} SplitMatches(ys: string, kind: Separator, sep: char, ms: string)
    requires 2 <= |ys| <= 4 && AllDigits(ys) && IsSeparator(kind, sep)
    requires 1 <= |ms| <= 2 && AllDigits(ms)
    ensures MatchSplit(ys + [sep] + ms + Suffix(kind), kind) == Some((DigitsValue(ys), DigitsValue(ms)))
  {
    var body := ys + [sep] + ms;
    var t := body + Suffix(kind);
    assert t[|t| - |Suffix(kind)|..] == Suffix(kind);
    assert t[..|t| - |Suffix(kind)|] == body;
    SplitBody(ys, kind, sep, ms);
  }

  /** The pieces `MatchSplit` cuts out of `ys + [sep] + ms` once the suffix is gone. */
  lemma {:induction false} SplitBody(ys: string, kind: Separator, sep: char, ms: string)
    requires 2 <= |ys| <= 4 && AllDigits(ys) && IsSeparator(kind, sep)
    requires 1 <= |ms| <= 2 && AllDigits(ms)
    ensures var body := ys + [sep] + ms;
            && LeadingDigits(body) == |ys| && body[|ys|] == sep
            && body[..|ys|] == ys && body[|ys| + 1..] == ms
  {
    assert !IsDigit(sep);
    LeadingDigitsAt(ys, sep, ms);
    var body := ys + [sep] + ms;
    assert body[..|ys|] == ys && body[|ys| + 1..] == ms;
  }

  /** Text ending in a digit matches neither the `年...月` pattern nor, unless it has a quarter mark, the quarter one. */
  lemma {:induction false} EndsInDigit(t: string)
    requires t != [] && IsDigit(t[|t| - 1])
    ensures MatchSplit(t, YearChar) == None
  {
    assert t[|t| - 1..] == [t[|t| - 1]];
  }

  /** A separator label with no quarter mark before its last character is not a quarter label. */
  lemma {:induction false} SplitNotQuarter(ys: string, kind: Separator, sep: char, ms: string)
    requires 2 <= |ys| <= 4 && AllDigits(ys) && IsSeparator(kind, sep)
    requires 1 <= |ms| <= 2 && AllDigits(ms)
    ensures MatchQuarter(ys + [sep] + ms + Suffix(kind)) == None
  {
    var t := ys + [sep] + ms + Suffix(kind);
    if kind != YearChar {
      assert t == ys + [sep] + ms;
      assert t[|t| - 2] == if |ms| == 2 then ms[0] else sep;
    } else {
      assert t[|t| - 1] == '月';
    }
  }

  /**
   * A month label with a separator: two to four digits, then `年`, `/`, `-`,
   * `M` or `m`, then one or two digits, then `月` after `年`. No earlier
   * pattern matches such a label.
   */
  predicate SplitShape(t: string, ys: string, kind: Separator, sep: char, ms: string) {
    && t == ys + [sep] + ms + Suffix(kind)
    && 2 <= |ys| <= 4 && AllDigits(ys) && IsSeparator(kind, sep)
    && 1 <= |ms| <= 2 && AllDigits(ms)
  }

  lemma {:induction false} SplitForm(raw: string, ys: string, kind: Separator, sep: char, ms: string)
    requires SplitShape(Normalize(raw), ys, kind, sep, ms)
    ensures ParsePeriod(raw) == MonthResult(DigitsValue(ys), DigitsValue(ms), Normalize(raw))
  {
    var t := Normalize(raw);
    SplitNotQuarter(ys, kind, sep, ms);
    SplitMatches(ys, kind, sep, ms);
    if kind != YearChar {
      assert t == ys + [sep] + ms;
      assert t[|t| - 1] == ms[|ms| - 1];
      EndsInDigit(t);
    }
    if kind == LetterM {
      SplitMatches(ys, kind, sep, ms);
      LeadingDigitsAt(ys, sep, ms);
      assert t[..|t| - |Suffix(SlashOrDash)|] == t;
      assert MatchSplit(t, SlashOrDash) == None;
    }
    assert MatchMonthly(t) == Some((DigitsValue(ys), DigitsValue(ms)));
  }

  /** Text made only of digits matches none of the separator patterns. */
  lemma {:induction false} DigitsOnlyNoSplit(ds: string, kind: Separator)
    requires ds != [] && AllDigits(ds)
    ensures MatchSplit(ds, kind) == None
  {
    if kind == YearChar {
      EndsInDigit(ds);
    } else {
      assert ds[..|ds| - |Suffix(kind)|] == ds;
    }
  }

  /**
   * A compact month label: six digits read as four for the year and two for
   * the month, or five digits read as three and two.
   */
  lemma {:induction false} CompactForm(raw: string, ds: string)
    requires Normalize(raw) == ds && AllDigits(ds) && (|ds| == 6 || |ds| == 5)
    ensures var w := |ds| - 2;
            ParsePeriod(raw) == MonthResult(DigitsValue(ds[..w]), DigitsValue(ds[w..]), ds)
  {
    assert MatchQuarter(ds) == None by {
      assert IsDigit(ds[|ds| - 2]);
    }
    DigitsOnlyNoSplit(ds, YearChar);
    DigitsOnlyNoSplit(ds, SlashOrDash);
    DigitsOnlyNoSplit(ds, LetterM);
  }

  /** A separated month pattern that matches gives the pieces of a `SplitShape`. */
  lemma {:induction false} SplitMatchShape(t: string, kind: Separator)
    requires MatchSplit(t, kind).Some?
    ensures exists ys, sep, ms :: SplitShape(t, ys, kind, sep, ms)
  {
    var suffix := Suffix(kind);
    var body := t[..|t| - |suffix|];
    var k := LeadingDigits(body);
    var ys, sep, ms := body[..k], body[k], body[k + 1..];
    assert body == ys + [sep] + ms;
    assert t == body + suffix;
    assert SplitShape(t, ys, kind, sep, ms);
  }

  /**
   * The converse of `QuarterForm`, `SplitForm` and `CompactForm`: a text that
   * is not left unparsed has one of the quarter, separated or compact shapes.
   */
  lemma {:induction false} ClassifyShapes(t: string)
    requires !Classify(t).Unparsed?
    ensures || (4 <= |t| <= 6 && AllDigits(t[..|t| - 2]) && IsQuarterMark(t[|t| - 2]) && IsDigit(t[|t| - 1]))
            || (exists ys, kind, sep, ms :: SplitShape(t, ys, kind, sep, ms))
            || (AllDigits(t) && (|t| == 6 || |t| == 5))
  {
    if MatchQuarter(t).None? {
      if MatchSplit(t, YearChar).Some? {
        SplitMatchShape(t, YearChar);
      } else if MatchSplit(t, SlashOrDash).Some? {
        SplitMatchShape(t, SlashOrDash);
      } else if MatchSplit(t, LetterM).Some? {
        SplitMatchShape(t, LetterM);
      }
    }
  }

  // ---------------------------------------------------------------------------
  // Properties of the normalised label

  lemma {:induction false} NoSpaceAppend(a: string, b: string)
    requires NoSpace(a) && NoSpace(b)
    ensures NoSpace(a + b)
  {
    assert forall i :: 0 <= i < |a + b| ==> (a + b)[i] == if i < |a| then a[i] else b[i - |a|];
  }

  /** A digit string has no white space in it. */
  lemma {:induction false} DigitsNoSpace(s: string)
    requires AllDigits(s)
    ensures NoSpace(s)
  {
  }

  /** `YYYYQn` for a Gregorian year and a quarter 1..4 parses to itself. */
  lemma {:induction false} QuarterLabelParses(g: nat, q: nat)
    requires MinguoOffset <= g <= 9999 && 1 <= q <= 4
    ensures ParsePeriod(QuarterLabel(g, q)) == Parsed(YearMonth(g, (q - 1) * 3 + 1), QuarterLabel(g, q))
  {
    QuarterLabelShape(g, q);
    QuarterForm(QuarterLabel(g, q), NatToString(g), 'Q', DigitChar(q));
  }

  lemma {:induction false} QuarterLabelShape(g: nat, q: nat)
    requires MinguoOffset <= g <= 9999 && 1 <= q <= 4
    ensures |NatToString(g)| == 4 && DigitValue(DigitChar(q)) == q
    ensures Normalize(QuarterLabel(g, q)) == NatToString(g) + ['Q'] + [DigitChar(q)]
  {
    var ys := NatToString(g);
    var d := DigitChar(q);
    var l := QuarterLabel(g, q);
    FourDigits(g);
    assert l == ys + ['Q'] + [d];
    DigitsNoSpace(ys);
    NoSpaceAppend(ys, ['Q']);
    NoSpaceAppend(ys + ['Q'], [d]);
    NormalizeNoSpace(l);
  }

  /** `YYYY-MM` for a Gregorian year and a month 1..12 parses to itself. */
  lemma {:induction false} MonthLabelParses(g: nat, m: nat)
    requires MinguoOffset <= g <= 9999 && 1 <= m <= 12
    ensures ParsePeriod(MonthLabel(g, m)) == Parsed(YearMonth(g, m), MonthLabel(g, m))
  {
    FourDigits(g);
    DashLabelParses(MonthLabel(g, m), NatToString(g), Pad2(m), g, m);
  }

  /** The same, with the year's and the month's digits as plain strings. */
  lemma DashLabelParses(l: string, ys: string, mm: string, g: nat, m: nat)
    requires |ys| == 4 && AllDigits(ys) && DigitsValue(ys) == g && MinguoOffset <= g
    requires |mm| == 2 && AllDigits(mm) && DigitsValue(mm) == m && 1 <= m <= 12
    requires l == ys + "-" + mm && MonthLabel(g, m) == l
    ensures ParsePeriod(l) == Parsed(YearMonth(g, m), l)
  {
    DigitsNoSpace(ys);
    DigitsNoSpace(mm);
    NoSpaceAppend(ys, ['-']);
    NoSpaceAppend(ys + ['-'], mm);
    NormalizeNoSpace(l);
    assert l == ys + ['-'] + mm + Suffix(SlashOrDash);
    SplitForm(l, ys, SlashOrDash, '-', mm);
  }

  /** What a parsed result looks like: `YYYYQn` for the quarter that starts its month, or `YYYY-MM`. */
  predicate NormalLabel(r: ParseResult) {
    && r.Parsed? && MinguoOffset <= r.date.year <= 9999 && 1 <= r.date.month <= 12
    && (|| (r.date.month in {1, 4, 7, 10} && r.periodLabel == QuarterLabel(r.date.year, QuarterOf(r.date.month)))
        || r.periodLabel == MonthLabel(r.date.year, r.date.month))
  }

  /** The quarter whose first month is `m`. */
  function QuarterOf(m: int): (q: nat)
    requires m in {1, 4, 7, 10}
    ensures 1 <= q <= 4 && (q - 1) * 3 + 1 == m
  {
    if m == 1 then 1 else if m == 4 then 2 else if m == 7 then 3 else 4
  }

  lemma {:induction false} ParsedLabelForm(t: string)
    requires Classify(t).Parsed?
    ensures NormalLabel(Classify(t))
  {
  }

  /** A result of that shape is what its own label parses to. */
  lemma {:induction false} NormalLabelParses(r: ParseResult)
    requires NormalLabel(r)
    ensures ParsePeriod(r.periodLabel) == r
  {
    var g, m := r.date.year, r.date.month;
    if m in {1, 4, 7, 10} && r.periodLabel == QuarterLabel(g, QuarterOf(m)) {
      QuarterResultParses(r, g, QuarterOf(m));
    } else {
      MonthLabelParses(g, m);
    }
  }

  lemma {:induction false} QuarterResultParses(r: ParseResult, g: nat, q: nat)
    requires r.Parsed? && r.date.year == g && MinguoOffset <= g <= 9999
    requires 1 <= q <= 4 && r.date.month == (q - 1) * 3 + 1 && r.periodLabel == QuarterLabel(g, q)
    ensures ParsePeriod(r.periodLabel) == r
  {
    QuarterLabelParses(g, q);
  }

  /** A normalised label parses back to the same date and the same label. */
  lemma {:induction false} LabelIsFixedPoint(raw: string)
    requires ParsePeriod(raw).Parsed?
    ensures ParsePeriod(ParsePeriod(raw).periodLabel) == ParsePeriod(raw)
  {
    ParsedLabelForm(Normalize(raw));
    NormalLabelParses(ParsePeriod(raw));
  }

  /** A quarter label is normalised to the first month of its quarter. */
  lemma {:induction false} QuarterStartsQuarter(raw: string)
    requires ParsePeriod(raw).Parsed? && MatchQuarter(Normalize(raw)).Some?
    ensures ParsePeriod(raw).date.month in {1, 4, 7, 10}
  {
  }

  // ---------------------------------------------------------------------------
  // Dropping rows whose period does not parse

  /** A row of the series: its month, its normalised label and its value. */
  datatype Point<V> = Point(date: YearMonth, periodLabel: string, value: V)

  /**
   * `working.dropna(subset=["parsed_dt"])` in `build_taiwan_series`, over
   * rows whose labels are already parsed: rows without a date are dropped,
   * and a row whose date is invalid has already made the step raise (None).
   */
  function KeepParsed<V>(parses: seq<(ParseResult, V)>): (r: Option<seq<Point<V>>>)
    ensures r.Some? ==> |r.value| <= |parses|
    decreases |parses|
  {
    if parses == [] then Some([])
    else
      var head := parses[0].0;
      var tail := KeepParsed(parses[1..]);
      if head.InvalidDate? || tail.None? then None
      else if head.Parsed? then Some([Point(head.date, head.periodLabel, parses[0].1)] + tail.value)
      else tail
  }

  /** The step succeeds exactly when no row has an out-of-range quarter or month. */
  lemma {:induction false} KeepParsedDefined<V>(parses: seq<(ParseResult, V)>)
    ensures KeepParsed(parses).Some? <==> forall i :: 0 <= i < |parses| ==> !parses[i].0.InvalidDate?
    decreases |parses|
  {
    if parses != [] {
      KeepParsedDefined(parses[1..]);
      assert forall i :: 1 <= i < |parses| ==> parses[i] == parses[1..][i - 1];
    }
  }

  /** Every kept point comes from a row whose label parsed to its date and label. */
  lemma {:induction false} KeepParsedSound<V>(parses: seq<(ParseResult, V)>, k: nat)
    requires KeepParsed(parses).Some? && k < |KeepParsed(parses).value|
    ensures var p := KeepParsed(parses).value[k];
            exists i :: 0 <= i < |parses| && parses[i] == (Parsed(p.date, p.periodLabel), p.value)
    decreases |parses|
  {
    var head := parses[0].0;
    if head.Parsed? && k == 0 {
      assert parses[0] == (Parsed(head.date, head.periodLabel), parses[0].1);
    } else {
      var k' := if head.Parsed? then k - 1 else k;
      KeepParsedSound(parses[1..], k');
      var p := KeepParsed(parses[1..]).value[k'];
      var i :| 0 <= i < |parses[1..]| && parses[1..][i] == (Parsed(p.date, p.periodLabel), p.value);
      assert parses[i + 1] == parses[1..][i];
    }
  }

  /** Every row whose label parsed is kept, with its date, its label and its value. */
  lemma {:induction false} KeepParsedComplete<V>(parses: seq<(ParseResult, V)>, i: nat)
    requires KeepParsed(parses).Some? && i < |parses| && parses[i].0.Parsed?
    ensures Point(parses[i].0.date, parses[i].0.periodLabel, parses[i].1) in KeepParsed(parses).value
    decreases |parses|
  {
    if i > 0 {
      assert parses[i] == parses[1..][i - 1];
      KeepParsedComplete(parses[1..], i - 1);
    }
  }

  /** Kept points keep the order of their rows. */
  lemma {:induction false} KeepParsedOrder<V>(parses: seq<(ParseResult, V)>, more: seq<(ParseResult, V)>)
    requires KeepParsed(parses + more).Some?
    ensures KeepParsed(parses).Some? && KeepParsed(more).Some?
    ensures KeepParsed(parses + more).value == KeepParsed(parses).value + KeepParsed(more).value
    decreases |parses|
  {
    if parses == [] {
      assert parses + more == more;
    } else {
      assert (parses + more)[0] == parses[0];
      assert (parses + more)[1..] == parses[1..] + more;
      KeepParsedOrder(parses[1..], more);
    }
  }

  /** `parse_period` applied to every row's label, then the rows without a date dropped. */
  function ParsedPoints<V>(rows: seq<(string, V)>): Option<seq<Point<V>>> {
    KeepParsed(ParseAll(rows))
  }

  /** `df[period_col].map(parse_period)`, each result beside its row's value. */
  function ParseAll<V>(rows: seq<(string, V)>): (parses: seq<(ParseResult, V)>)
    ensures |parses| == |rows|
    ensures forall i :: 0 <= i < |rows| ==> parses[i] == (ParsePeriod(rows[i].0), rows[i].1)
    decreases |rows|
  {
    if rows == [] then [] else [(ParsePeriod(rows[0].0), rows[0].1)] + ParseAll(rows[1..])
  }
}
