/**
 * Merging a new download into the stored table (`merge_or_replace_source`
 * in scripts/monitor_transfer_count.py). A table is a sequence of rows over a
 * list of column names; a row maps each column name to its cell. When the
 * stored and the new table have the same column set, the two are stacked and
 * only the last row of each (period[, region]) key is kept, as
 * `drop_duplicates(subset=key_columns, keep="last")` does.
 */
module Merge {
  import opened Wrappers
  import opened Columns

  /** A row: column name to cell text. */
  type Row = map<string, string>

  datatype Table = Table(columns: seq<string>, rows: seq<Row>)

  /** A cell; a column the row lacks reads as empty (pandas' NaN compares equal to NaN here). */
  function Cell(row: Row, col: string): string {
    if col in row then row[col] else ""
  }

  /** The values of the key columns, in order. */
  function KeyOf(row: Row, keyCols: seq<string>): (k: seq<string>)
    ensures |k| == |keyCols|
    decreases |keyCols|
  {
    if keyCols == [] then [] else [Cell(row, keyCols[0])] + KeyOf(row, keyCols[1..])
  }

  function KeySet(rows: seq<Row>, keyCols: seq<string>): (ks: set<seq<string>>)
    ensures forall i :: 0 <= i < |rows| ==> KeyOf(rows[i], keyCols) in ks
    ensures forall k :: k in ks ==> exists i :: 0 <= i < |rows| && KeyOf(rows[i], keyCols) == k
    decreases |rows|
  {
    if rows == [] then {}
    else
      var rest := KeySet(rows[1..], keyCols);
      assert forall i :: 1 <= i < |rows| ==> rows[i] == rows[1..][i - 1];
      {KeyOf(rows[0], keyCols)} + rest
  }

  /** No later row has the same key as row `i`. */
  predicate IsLast(rows: seq<Row>, keyCols: seq<string>, i: nat)
    requires i < |rows|
  {
    forall j :: i < j < |rows| ==> KeyOf(rows[j], keyCols) != KeyOf(rows[i], keyCols)
  }

  /** `keep="last"`, the specification: a row stays when no later row shares its key. */
  function KeepLast(rows: seq<Row>, keyCols: seq<string>): seq<Row>
    decreases |rows|
  {
    if rows == [] then []
    else if KeyOf(rows[0], keyCols) in KeySet(rows[1..], keyCols) then KeepLast(rows[1..], keyCols)
    else [rows[0]] + KeepLast(rows[1..], keyCols)
  }

  /** `drop_duplicates(subset=key_cols, keep="last")`, walking the rows from the end. */
  method DropDuplicatesKeepLast(rows: seq<Row>, keyCols: seq<string>) returns (kept: seq<Row>)
    ensures kept == KeepLast(rows, keyCols)
  {
    kept := [];
    var seen: set<seq<string>> := {};
    var i := |rows|;
    while i > 0
      invariant 0 <= i <= |rows|
      invariant kept == KeepLast(rows[i..], keyCols)
      invariant seen == KeySet(rows[i..], keyCols)
    {
      i := i - 1;
      assert rows[i..][1..] == rows[i + 1..];
      var key := KeyOf(rows[i], keyCols);
      if key !in seen {
        kept := [rows[i]] + kept;
      }
      seen := seen + {key};
    }
    assert rows[0..] == rows;
  }

  // ---------------------------------------------------------------------------
  // What keep-last promises

  /** No two kept rows share a key. */
  lemma {:induction false} KeepLastUniqueKeys(rows: seq<Row>, keyCols: seq<string>)
    ensures forall a, b :: 0 <= a < b < |KeepLast(rows, keyCols)| ==>
              KeyOf(KeepLast(rows, keyCols)[a], keyCols) != KeyOf(KeepLast(rows, keyCols)[b], keyCols)
    decreases |rows|
  {
    if rows != [] {
      var rest := KeepLast(rows[1..], keyCols);
      KeepLastUniqueKeys(rows[1..], keyCols);
      if KeyOf(rows[0], keyCols) !in KeySet(rows[1..], keyCols) {
        var kept := [rows[0]] + rest;
        forall a, b | 0 <= a < b < |kept|
          ensures KeyOf(kept[a], keyCols) != KeyOf(kept[b], keyCols)
        {
          assert kept[b] == rest[b - 1];
          if a == 0 {
            assert kept[0] == rows[0];
            KeptKeyOccurs(rows[1..], keyCols, b - 1);
          } else {
            assert kept[a] == rest[a - 1];
            assert KeyOf(rest[a - 1], keyCols) != KeyOf(rest[b - 1], keyCols);
          }
        }
      }
    }
  }

  /** The key of a kept row is a key of the input. */
  lemma {:induction false} KeptKeyOccurs(rows: seq<Row>, keyCols: seq<string>, k: nat)
    requires k < |KeepLast(rows, keyCols)|
    ensures KeyOf(KeepLast(rows, keyCols)[k], keyCols) in KeySet(rows, keyCols)
  {
    KeepLastKeys(rows, keyCols);
  }

  /** Every key of the input survives, and no other key appears. */
  lemma {:induction false} KeepLastKeys(rows: seq<Row>, keyCols: seq<string>)
    ensures KeySet(KeepLast(rows, keyCols), keyCols) == KeySet(rows, keyCols)
    decreases |rows|
  {
    if rows != [] {
      KeepLastKeys(rows[1..], keyCols);
      var rest := KeepLast(rows[1..], keyCols);
      if KeyOf(rows[0], keyCols) !in KeySet(rows[1..], keyCols) {
        assert ([rows[0]] + rest)[1..] == rest;
      }
    }
  }

  /** A row that is the last of its key is kept. */
  lemma {:induction false} KeepLastKeepsLast(rows: seq<Row>, keyCols: seq<string>, i: nat)
    requires i < |rows| && IsLast(rows, keyCols, i)
    ensures rows[i] in KeepLast(rows, keyCols)
    decreases |rows|
  {
    if i > 0 {
      var tail := rows[1..];
      assert tail[i - 1] == rows[i];
      assert IsLast(tail, keyCols, i - 1) by {
        assert forall j :: i - 1 < j < |tail| ==> tail[j] == rows[j + 1];
      }
      KeepLastKeepsLast(tail, keyCols, i - 1);
    }
  }

  /** Every kept row is an input row that is the last of its key. */
  lemma {:induction false} KeepLastKeepsOnlyLast(rows: seq<Row>, keyCols: seq<string>, k: nat)
    requires k < |KeepLast(rows, keyCols)|
    ensures exists i :: 0 <= i < |rows| && rows[i] == KeepLast(rows, keyCols)[k] && IsLast(rows, keyCols, i)
    decreases |rows|
  {
    var tail := rows[1..];
    var first := KeyOf(rows[0], keyCols) !in KeySet(tail, keyCols);
    if first && k == 0 {
      HeadIsLast(rows, keyCols);
      assert rows[0] == KeepLast(rows, keyCols)[0];
    } else {
      var k' := if first then k - 1 else k;
      assert KeepLast(rows, keyCols)[k] == KeepLast(tail, keyCols)[k'];
      KeepLastKeepsOnlyLast(tail, keyCols, k');
      var i :| 0 <= i < |tail| && tail[i] == KeepLast(tail, keyCols)[k'] && IsLast(tail, keyCols, i);
      TailIsLast(rows, keyCols, i);
      assert rows[i + 1] == KeepLast(rows, keyCols)[k];
    }
  }

  /** The first row is the last of its key when no later row has that key. */
  lemma {:induction false} HeadIsLast(rows: seq<Row>, keyCols: seq<string>)
    requires rows != [] && KeyOf(rows[0], keyCols) !in KeySet(rows[1..], keyCols)
    ensures IsLast(rows, keyCols, 0)
  {
    assert forall j :: 0 < j < |rows| ==> rows[j] == rows[1..][j - 1];
  }

  /** A row that is the last of its key in `rows[1..]` is the last of its key in `rows`. */
  lemma {:induction false} TailIsLast(rows: seq<Row>, keyCols: seq<string>, i: nat)
    requires i + 1 < |rows| && IsLast(rows[1..], keyCols, i)
    ensures rows[i + 1] == rows[1..][i] && IsLast(rows, keyCols, i + 1)
  {
    assert forall j :: i + 1 < j < |rows| ==> rows[j] == rows[1..][j - 1];
  }

  /** `a` is `b` with some rows left out, the rest in their order. */
  predicate Subsequence(a: seq<Row>, b: seq<Row>)
    decreases |b|
  {
    a == [] || (b != [] && ((a[0] == b[0] && Subsequence(a[1..], b[1..])) || Subsequence(a, b[1..])))
  }

  /** Keep-last keeps the rows in their original relative order. */
  lemma {:induction false} KeepLastOrder(rows: seq<Row>, keyCols: seq<string>)
    ensures Subsequence(KeepLast(rows, keyCols), rows)
    decreases |rows|
  {
    if rows != [] {
      KeepLastOrder(rows[1..], keyCols);
      var rest := KeepLast(rows[1..], keyCols);
      if KeyOf(rows[0], keyCols) !in KeySet(rows[1..], keyCols) {
        assert ([rows[0]] + rest)[1..] == rest;
      }
    }
  }

  // ---------------------------------------------------------------------------
  // The merge

  /** `[period_col]`, then `region_col` when one is found. */
  function KeyColumns(columns: seq<string>): (r: Result<seq<string>>)
    ensures r.Ok? <==> columns != []
    ensures r.Ok? ==> |r.value| == (if DetectRegionColumn(columns).Some? then 2 else 1)
    ensures r.Ok? ==> DetectPeriodColumn(columns).Ok? && r.value[0] == DetectPeriodColumn(columns).value
    ensures r.Ok? && |r.value| == 2 ==> r.value[1] == DetectRegionColumn(columns).value
  {
    match DetectPeriodColumn(columns)
    case Err(e) => Err(e)
    case Ok(p) =>
      match DetectRegionColumn(columns)
      case Some(reg) => Ok([p, reg])
      case None => Ok([p])
  }

  /** The specification of `merge_or_replace_source`, from the stored table (if any) and the new one. */
  function Merged(stored: Option<Table>, latest: Table): Result<Table> {
    if stored.None? || (set c | c in stored.value.columns) != (set c | c in latest.columns) then Ok(latest)
    else
      match KeyColumns(stored.value.columns)
      case Err(e) => Err(e)
      case Ok(keyCols) => Ok(Table(stored.value.columns, KeepLast(stored.value.rows + latest.rows, keyCols)))
  }

  /**
   * `merge_or_replace_source` once both files are read: no stored file, or
   * a different column set, means the new table replaces the stored outright;
   * otherwise the two are stacked and deduplicated on the key columns.
   */
  method MergeOrReplace(stored: Option<Table>, latest: Table) returns (r: Result<Table>)
    ensures r == Merged(stored, latest)
  {
    if stored.None? {
      return Ok(latest);
    }
    var st := stored.value;
    if (set c | c in st.columns) != (set c | c in latest.columns) {
      return Ok(latest);
    }
    var keyCols := KeyColumns(st.columns);
    if keyCols.Err? {
      return Err(keyCols.message);
    }
    var rows := DropDuplicatesKeepLast(st.rows + latest.rows, keyCols.value);
    return Ok(Table(st.columns, rows));
  }

  /** A different column set replaces the stored table by the new one. */
  lemma {:induction false} ReplaceOnNewColumns(stored: Table, latest: Table)
    requires (set c | c in stored.columns) != (set c | c in latest.columns)
    ensures Merged(Some(stored), latest) == Ok(latest)
  {
  }

  /** The newest row of each key in the download is the one the merge keeps. */
  lemma {:induction false} NewRowsWin(stored: Table, latest: Table, keyCols: seq<string>, i: nat)
    requires i < |latest.rows| && IsLast(latest.rows, keyCols, i)
    ensures latest.rows[i] in KeepLast(stored.rows + latest.rows, keyCols)
  {
    var all := stored.rows + latest.rows;
    assert all[|stored.rows| + i] == latest.rows[i];
    assert forall j :: |stored.rows| + i < j < |all| ==> all[j] == latest.rows[j - |stored.rows|];
    assert IsLast(all, keyCols, |stored.rows| + i);
    KeepLastKeepsLast(all, keyCols, |stored.rows| + i);
  }

  /** After a merge on the same columns, no two rows share a key and every key of either table is present. */
  lemma {:induction false} MergedKeys(stored: Table, latest: Table)
    requires (set c | c in stored.columns) == (set c | c in latest.columns) && stored.columns != []
    ensures Merged(Some(stored), latest).Ok?
    ensures var keyCols := KeyColumns(stored.columns).value;
            var rows := Merged(Some(stored), latest).value.rows;
            && KeySet(rows, keyCols) == KeySet(stored.rows + latest.rows, keyCols)
            && forall a, b :: 0 <= a < b < |rows| ==> KeyOf(rows[a], keyCols) != KeyOf(rows[b], keyCols)
  {
    var keyCols := KeyColumns(stored.columns).value;
    KeepLastKeys(stored.rows + latest.rows, keyCols);
    KeepLastUniqueKeys(stored.rows + latest.rows, keyCols);
  }
}
