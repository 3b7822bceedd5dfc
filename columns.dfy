/**
 * Column roles of a downloaded table (`detect_period_column` and
 * `detect_region_column` in scripts/monitor_transfer_count.py): the first
 * column whose lower-cased name contains one of a fixed list of keywords.
 */
module Columns {
  import opened Wrappers
  import opened Text

  const PeriodKeywords: seq<string> := ["期別", "年月", "月份", "日期", "時間", "month", "date", "year"]
  const RegionKeywords: seq<string> := ["縣市", "區域", "城市", "地區", "region", "city"]

  /** `any(keyword in str(col).lower() for keyword in keywords)`. */
  predicate HasKeyword(col: string, keywords: seq<string>) {
    exists j :: 0 <= j < |keywords| && Contains(Lower(col), keywords[j])
  }

  /** The index of the first column that names a keyword, or `|columns|` when none does. */
  function FirstWithKeyword(columns: seq<string>, keywords: seq<string>): (i: nat)
    ensures i <= |columns|
    ensures i < |columns| ==> HasKeyword(columns[i], keywords)
    ensures forall j :: 0 <= j < i ==> !HasKeyword(columns[j], keywords)
    decreases |columns|
  {
    if columns == [] then 0
    else if HasKeyword(columns[0], keywords) then 0
    else
      var i := 1 + FirstWithKeyword(columns[1..], keywords);
      assert forall j :: 1 <= j < |columns| ==> columns[j] == columns[1..][j - 1];
      i
  }

  /**
   * `detect_period_column`: the first column naming a period keyword,
   * otherwise the first column; `columns[0]` raises on an empty list.
   */
  function DetectPeriodColumn(columns: seq<string>): (r: Result<string>)
    ensures columns == [] ==> r.Err?
    ensures (exists i :: 0 <= i < |columns| && HasKeyword(columns[i], PeriodKeywords)) ==>
              exists i :: 0 <= i < |columns| && r == Ok(columns[i]) && HasKeyword(columns[i], PeriodKeywords)
                && forall j :: 0 <= j < i ==> !HasKeyword(columns[j], PeriodKeywords)
    ensures columns != [] && (forall j :: 0 <= j < |columns| ==> !HasKeyword(columns[j], PeriodKeywords)) ==>
              r == Ok(columns[0])
  {
    var i := FirstWithKeyword(columns, PeriodKeywords);
    if i < |columns| then Ok(columns[i])
    else if columns == [] then Err("IndexError: list index out of range")
    else Ok(columns[0])
  }

  /** `detect_region_column`: the first column naming a region keyword, otherwise None. */
  function DetectRegionColumn(columns: seq<string>): (r: Option<string>)
    ensures r.None? <==> forall j :: 0 <= j < |columns| ==> !HasKeyword(columns[j], RegionKeywords)
    ensures r.Some? ==> exists i :: 0 <= i < |columns| && columns[i] == r.value && HasKeyword(r.value, RegionKeywords)
                          && forall j :: 0 <= j < i ==> !HasKeyword(columns[j], RegionKeywords)
  {
    var i := FirstWithKeyword(columns, RegionKeywords);
    if i < |columns| then Some(columns[i]) else None
  }

  /**
   * The match ignores ASCII case: two column names that differ only in the
   * case of ASCII letters name the same keywords.
   */
  lemma {:induction false} KeywordCase(col: string, other: string, keywords: seq<string>)
    requires |col| == |other|
    requires forall i :: 0 <= i < |col| ==> LowerChar(col[i]) == LowerChar(other[i])
    ensures HasKeyword(col, keywords) <==> HasKeyword(other, keywords)
  {
    assert Lower(col) == Lower(other);
  }

  /** Lower-casing a column name first changes none of its keyword matches. */
  lemma {:induction false} KeywordLower(col: string, keywords: seq<string>)
    ensures HasKeyword(Lower(col), keywords) <==> HasKeyword(col, keywords)
  {
    KeywordCase(Lower(col), col, keywords);
  }
}
