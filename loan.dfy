/**
 * The housing-loan default-rate script (scripts/fetch_and_plot.py): choosing
 * the CSV link by its title, generating sample data when the download fails,
 * mapping the columns to their roles, normalising city names in place and
 * keeping the rows of the six special municipalities.
 */
module LoanDefault {
  import opened Wrappers
  import opened Text
  import opened Period
  import opened Merge

  // ---------------------------------------------------------------------------
  // The CSV link

  const TargetTitle := "本季購置住宅貸款違約率"

  /** An `<a>` element found on the page: its raw `href` and its raw `title`. */
  datatype Anchor = Anchor(href: string, title: string)

  /**
   * The loop over the links: the first anchor whose unescaped title contains
   * the target title, with its unescaped `href`. `html.unescape` is the
   * parameter `unescape`; joining the `href` to the page address is not part
   * of this model.
   */
  method FindCsvLink(links: seq<Anchor>, unescape: string -> string) returns (found: Option<(nat, string)>)
    ensures found.Some? ==> found.value.0 < |links| && Contains(unescape(links[found.value.0].title), TargetTitle)
    ensures found.Some? ==> found.value.1 == unescape(links[found.value.0].href)
    ensures found.Some? ==> forall j :: 0 <= j < found.value.0 ==> !Contains(unescape(links[j].title), TargetTitle)
    ensures found.None? <==> forall j :: 0 <= j < |links| ==> !Contains(unescape(links[j].title), TargetTitle)
  {
    var i := 0;
    while i < |links|
      invariant 0 <= i <= |links|
      invariant forall j :: 0 <= j < i ==> !Contains(unescape(links[j].title), TargetTitle)
    {
      var title := unescape(links[i].title);
      if Contains(title, TargetTitle) {
        return Some((i, unescape(links[i].href)));
      }
      i := i + 1;
    }
    return None;
  }

  // ---------------------------------------------------------------------------
  // Sample data

  /** The six special municipalities, as the sample generator and the filter both list them. */
  const SixCities: seq<string> := ["臺北市", "新北市", "桃園市", "臺中市", "臺南市", "高雄市"]

  lemma {:induction false} DivModOf(i: nat, c: nat, j: nat)
    requires j < c
    ensures (i * c + j) / c == i && (i * c + j) % c == j
  {
    var k := i * c + j;
    var q, r := k / c, k % c;
    assert k == q * c + r;
    assert (i - q) * c == r - j;
    BoundedMultiple(i - q, c, r - j);
  }

  /** A multiple of `c` strictly between `-c` and `c` is 0. */
  lemma {:induction false} BoundedMultiple(m: int, c: int, x: int)
    requires c > 0 && m * c == x && -c < x < c
    ensures m == 0
  {
    if m >= 1 {
      MulAtLeast(m, c);
    } else if m <= -1 {
      MulAtLeast(-m, c);
    }
  }

  lemma {:induction false} MulAtLeast(m: int, c: int)
    requires m >= 1 && c >= 0
    ensures m * c >= c
  {
  }

  /**
   * The sample quarters, `108Q1` to `113Q4`: two nested loops over the
   * Minguo years 108..113 and the quarters 1..4, year-major.
   */
  method SampleQuarters() returns (quarters: seq<string>)
    ensures |quarters| == 24
    ensures forall k :: 0 <= k < 24 ==> quarters[k] == QuarterLabel(108 + k / 4, k % 4 + 1)
  {
    quarters := [];
    for y := 108 to 114
      invariant |quarters| == (y - 108) * 4
      invariant forall k :: 0 <= k < |quarters| ==> quarters[k] == QuarterLabel(108 + k / 4, k % 4 + 1)
    {
      for q := 1 to 5
        invariant |quarters| == (y - 108) * 4 + (q - 1)
        invariant forall k :: 0 <= k < |quarters| ==> quarters[k] == QuarterLabel(108 + k / 4, k % 4 + 1)
      {
        DivModOf(y - 108, 4, q - 1);
        quarters := quarters + [QuarterLabel(y, q)];
      }
    }
  }

  /** A row of the sample table: quarter, city, and the rate text with its `%`. */
  datatype SampleRow = SampleRow(quarter: string, city: string, rate: string)

  /** The rows of `data` are the ones for the first `|data|` (quarter, city) pairs and draws. */
  predicate SampleLayout(data: seq<SampleRow>, quarters: seq<string>, cities: seq<string>, draws: seq<string>) {
    forall k :: 0 <= k < |data| ==>
      && 0 < |cities| && k / |cities| < |quarters| && k < |draws|
      && data[k] == SampleRow(quarters[k / |cities|], cities[k % |cities|], draws[k] + "%")
  }

  /**
   * The sample rows: one per (quarter, city) pair, quarter-major. The random
   * rates are the parameter `draws`, consumed in order, each already printed
   * as text.
   */
  method SampleRows(quarters: seq<string>, cities: seq<string>, draws: seq<string>) returns (data: seq<SampleRow>)
    requires |draws| == |quarters| * |cities|
    ensures |data| == |quarters| * |cities|
    ensures forall k :: 0 <= k < |data| ==>
              data[k] == SampleRow(quarters[k / |cities|], cities[k % |cities|], draws[k] + "%")
  {
    var c := |cities|;
    data := [];
    for i := 0 to |quarters|
      invariant |data| == i * c
      invariant SampleLayout(data, quarters, cities, draws)
    {
      for j := 0 to c
        invariant |data| == i * c + j
        invariant SampleLayout(data, quarters, cities, draws)
      {
        SampleStep(data, quarters, cities, draws, i, j);
        data := data + [SampleRow(quarters[i], cities[j], draws[i * c + j] + "%")];
      }
      assert i * c + c == (i + 1) * c;
    }
  }

  /**
   * The script's sample: its 24 quarters times the six cities, 144 rows,
   * quarter-major, with the drawn rates in order.
   */
  method SampleData(draws: seq<string>) returns (data: seq<SampleRow>)
    requires |draws| == 144
    ensures |data| == 144
    ensures forall k :: 0 <= k < 144 ==>
              data[k] == SampleRow(QuarterLabel(108 + k / 6 / 4, k / 6 % 4 + 1), SixCities[k % 6], draws[k] + "%")
  {
    var quarters := SampleQuarters();
    data := SampleRows(quarters, SixCities, draws);
  }

  /** One more row keeps the layout. */
  lemma {:induction false} SampleStep(data: seq<SampleRow>, quarters: seq<string>, cities: seq<string>, draws: seq<string>, i: nat, j: nat)
    requires |draws| == |quarters| * |cities| && SampleLayout(data, quarters, cities, draws)
    requires i < |quarters| && j < |cities| && |data| == i * |cities| + j
    ensures i * |cities| + j < |draws|
    ensures SampleLayout(data + [SampleRow(quarters[i], cities[j], draws[i * |cities| + j] + "%")], quarters, cities, draws)
  {
    var c := |cities|;
    DivModOf(i, c, j);
    MulMono(i + 1, |quarters|, c);
    var more := data + [SampleRow(quarters[i], cities[j], draws[i * c + j] + "%")];
    assert forall k :: 0 <= k < |data| ==> more[k] == data[k];
  }

  lemma {:induction false} MulMono(a: nat, b: nat, c: nat)
    requires a <= b
    ensures a * c <= b * c
  {
  }

  /** Every (quarter, city) pair has exactly the row at `i * |cities| + j`. */
  lemma {:induction false} SamplePair(quarters: seq<string>, cities: seq<string>, draws: seq<string>, data: seq<SampleRow>, i: nat, j: nat)
    requires |draws| == |quarters| * |cities| && |data| == |quarters| * |cities|
    requires forall k :: 0 <= k < |data| ==>
               data[k] == SampleRow(quarters[k / |cities|], cities[k % |cities|], draws[k] + "%")
    requires i < |quarters| && j < |cities|
    ensures i * |cities| + j < |data|
    ensures data[i * |cities| + j].quarter == quarters[i] && data[i * |cities| + j].city == cities[j]
  {
    DivModOf(i, |cities|, j);
    MulMono(i + 1, |quarters|, |cities|);
  }

  // ---------------------------------------------------------------------------
  // Column roles

  datatype Role = Time | Region | Rate

  /** The `if`/`elif` chain of the column loop: the one role a column name gets, if any. */
  function RoleOf(col: string): Option<Role> {
    if Contains(col, "季") || Contains(col, "Year") then Some(Time)
    else if Contains(col, "縣市") || Contains(col, "City") then Some(Region)
    else if Contains(col, "率") || Contains(col, "Rate") then Some(Rate)
    else None
  }

  /** The last of the first `n` columns that gets `role`. */
  function LastWithRole(columns: seq<string>, role: Role, n: nat): (r: Option<nat>)
    requires n <= |columns|
    ensures r.Some? ==> r.value < n && RoleOf(columns[r.value]) == Some(role)
    ensures r.Some? ==> forall j :: r.value < j < n ==> RoleOf(columns[j]) != Some(role)
    ensures r.None? <==> forall j :: 0 <= j < n ==> RoleOf(columns[j]) != Some(role)
    decreases n
  {
    if n == 0 then None
    else if RoleOf(columns[n - 1]) == Some(role) then Some(n - 1)
    else LastWithRole(columns, role, n - 1)
  }

  function NameAt(columns: seq<string>, k: Option<nat>): Option<string>
    requires k.Some? ==> k.value < |columns|
  {
    if k.Some? then Some(columns[k.value]) else None
  }

  datatype Roles = Roles(time: string, region: string, rate: string)

  /**
   * The mapping the script settles on: the last column of each role when all
   * three roles are filled, otherwise columns 0, 1 and 2 (which raises when
   * there are fewer than three).
   */
  function MappedColumns(columns: seq<string>): Result<Roles> {
    var t := LastWithRole(columns, Time, |columns|);
    var g := LastWithRole(columns, Region, |columns|);
    var a := LastWithRole(columns, Rate, |columns|);
    if t.Some? && g.Some? && a.Some? then Ok(Roles(columns[t.value], columns[g.value], columns[a.value]))
    else if |columns| < 3 then Err("IndexError: index out of bounds")
    else Ok(Roles(columns[0], columns[1], columns[2]))
  }

  /** The column loop and the fallback by index. */
  method MapColumns(columns: seq<string>) returns (r: Result<Roles>)
    ensures r == MappedColumns(columns)
  {
    var time, region, rate: Option<string> := None, None, None;
    for i := 0 to |columns|
      invariant time == NameAt(columns, LastWithRole(columns, Time, i))
      invariant region == NameAt(columns, LastWithRole(columns, Region, i))
      invariant rate == NameAt(columns, LastWithRole(columns, Rate, i))
    {
      var col := columns[i];
      if Contains(col, "季") || Contains(col, "Year") {
        time := Some(col);
      } else if Contains(col, "縣市") || Contains(col, "City") {
        region := Some(col);
      } else if Contains(col, "率") || Contains(col, "Rate") {
        rate := Some(col);
      }
    }
    if time.Some? && region.Some? && rate.Some? {
      return Ok(Roles(time.value, region.value, rate.value));
    }
    if |columns| < 3 {
      return Err("IndexError: index out of bounds");
    }
    return Ok(Roles(columns[0], columns[1], columns[2]));
  }

  /**
   * When every role is found, each mapped column is the last column of its
   * role, so the three are different columns.
   */
  lemma {:induction false} RolesFound(columns: seq<string>)
    requires forall role :: LastWithRole(columns, role, |columns|).Some?
    ensures MappedColumns(columns).Ok?
    ensures var m := MappedColumns(columns).value;
            && RoleOf(m.time) == Some(Time) && RoleOf(m.region) == Some(Region) && RoleOf(m.rate) == Some(Rate)
            && m.time != m.region && m.region != m.rate && m.time != m.rate
    ensures forall role :: var k := LastWithRole(columns, role, |columns|).value;
              forall j :: k < j < |columns| ==> RoleOf(columns[j]) != Some(role)
  {
    assert LastWithRole(columns, Time, |columns|).Some?;
    assert LastWithRole(columns, Region, |columns|).Some?;
    assert LastWithRole(columns, Rate, |columns|).Some?;
  }

  /** A missing role sends all three to columns 0, 1 and 2, or fails on fewer than three columns. */
  lemma {:induction false} RolesFallback(columns: seq<string>, role: Role)
    requires LastWithRole(columns, role, |columns|).None?
    ensures |columns| < 3 <==> MappedColumns(columns).Err?
    ensures |columns| >= 3 ==> MappedColumns(columns) == Ok(Roles(columns[0], columns[1], columns[2]))
  {
  }

  // ---------------------------------------------------------------------------
  // City names

  /** `normalized_cities`: the short forms of three city names. */
  const CityAliases: map<string, string> := map["台北市" := "臺北市", "台中市" := "臺中市", "台南市" := "臺南市"]

  /** `Series.replace(normalized_cities)` on one cell. */
  function NormalCity(name: string): string {
    if name in CityAliases then CityAliases[name] else name
  }

  /** A normalised name is a six-city name exactly when the name was one, or was one of the short forms. */
  lemma {:induction false} NormalCityInSix(name: string)
    ensures NormalCity(name) in SixCities <==> name in SixCities || name in CityAliases
    ensures name !in CityAliases ==> NormalCity(name) == name
    ensures NormalCity(NormalCity(name)) == NormalCity(name)
  {
    assert forall a :: a in CityAliases ==> CityAliases[a] in SixCities && CityAliases[a] !in CityAliases;
  }

  /** The row with its region cell normalised. */
  function WithCity(row: Row, col: string): Row {
    if col in row then row[col := NormalCity(row[col])] else row
  }

  function NormalizedRows(rows: seq<Row>, col: string): (r: seq<Row>)
    ensures |r| == |rows| && forall i :: 0 <= i < |rows| ==> r[i] == WithCity(rows[i], col)
  {
    seq(|rows|, i requires 0 <= i < |rows| => WithCity(rows[i], col))
  }

  /** `df[region_col] = df[region_col].replace(normalized_cities)`, on the table's rows in place. */
  method NormalizeRegions(table: array<Row>, col: string)
    modifies table
    ensures table[..] == NormalizedRows(old(table[..]), col)
  {
    for i := 0 to table.Length
      invariant forall j :: 0 <= j < i ==> table[j] == WithCity(old(table[j]), col)
      invariant forall j :: i <= j < table.Length ==> table[j] == old(table[j])
    {
      table[i] := WithCity(table[i], col);
    }
  }

  /** `df[df[region_col].isin(six_cities)]`. */
  function SixCityRows(rows: seq<Row>, col: string): (r: seq<Row>)
    ensures |r| <= |rows|
    decreases |rows|
  {
    if rows == [] then []
    else
      var rest := SixCityRows(rows[1..], col);
      if Cell(rows[0], col) in SixCities then [rows[0]] + rest else rest
  }

  /** The filter keeps exactly the rows in one of the six cities. */
  lemma {:induction false} SixCityRowsKeeps(rows: seq<Row>, col: string)
    ensures var r := SixCityRows(rows, col);
            && (forall x :: x in r ==> x in rows && Cell(x, col) in SixCities)
            && (forall i :: 0 <= i < |rows| && Cell(rows[i], col) in SixCities ==> rows[i] in r)
            && (r == [] <==> forall i :: 0 <= i < |rows| ==> Cell(rows[i], col) !in SixCities)
    decreases |rows|
  {
    if rows != [] {
      SixCityRowsKeeps(rows[1..], col);
      assert forall i :: 1 <= i < |rows| ==> rows[i] == rows[1..][i - 1];
    }
  }

  /** The filter keeps the rows in their order. */
  lemma {:induction false} SixCityOrder(rows: seq<Row>, col: string)
    ensures Subsequence(SixCityRows(rows, col), rows)
    decreases |rows|
  {
    if rows != [] {
      SixCityOrder(rows[1..], col);
      var rest := SixCityRows(rows[1..], col);
      if Cell(rows[0], col) in SixCities {
        assert ([rows[0]] + rest)[1..] == rest;
      }
    }
  }

  /** `str.replace('%', '')` on the rate cell of each kept row. */
  function CleanRates(rows: seq<Row>, col: string): (r: seq<Row>)
    ensures |r| == |rows|
    ensures forall i :: 0 <= i < |rows| ==> r[i] == rows[i][col := RemoveChar(Cell(rows[i], col), '%')]
  {
    seq(|rows|, i requires 0 <= i < |rows| => rows[i][col := RemoveChar(Cell(rows[i], col), '%')])
  }

  /** How the table ends up before plotting. */
  datatype Prepared =
    | ColumnsMissing(message: string)
      /** No row is in one of the six cities: the script stops here. */
    | NoSixCityRows
    | Ready(roles: Roles, rows: seq<Row>)

  /** The specification of the steps from the column mapping to the cleaned rates. */
  function PreparedTable(columns: seq<string>, rows: seq<Row>): Prepared {
    match MappedColumns(columns)
    case Err(m) => ColumnsMissing(m)
    case Ok(roles) =>
      var kept := SixCityRows(NormalizedRows(rows, roles.region), roles.region);
      if kept == [] then NoSixCityRows else Ready(roles, CleanRates(kept, roles.rate))
  }

  /**
   * The script from the mapped columns to the table it plots: the region
   * column is normalised in the table itself, then the six-city rows are
   * selected and their rate cells cleaned.
   */
  method PrepareTable(columns: seq<string>, table: array<Row>) returns (outcome: Prepared)
    modifies table
    ensures outcome == PreparedTable(columns, old(table[..]))
    ensures MappedColumns(columns).Ok? ==> table[..] == NormalizedRows(old(table[..]), MappedColumns(columns).value.region)
    ensures MappedColumns(columns).Err? ==> table[..] == old(table[..])
  {
    var roles := MapColumns(columns);
    if roles.Err? {
      return ColumnsMissing(roles.message);
    }
    NormalizeRegions(table, roles.value.region);
    var kept := SixCityRows(table[..], roles.value.region);
    if kept == [] {
      return NoSixCityRows;
    }
    return Ready(roles.value, CleanRates(kept, roles.value.rate));
  }

  /**
   * The script stops exactly when no row names one of the six cities, either
   * in full or in its short form.
   */
  lemma {:induction false} StopsWithoutSixCities(columns: seq<string>, rows: seq<Row>)
    requires MappedColumns(columns).Ok?
    ensures var col := MappedColumns(columns).value.region;
            PreparedTable(columns, rows) == NoSixCityRows <==>
              forall i :: 0 <= i < |rows| ==> Cell(rows[i], col) !in SixCities && Cell(rows[i], col) !in CityAliases
  {
    var col := MappedColumns(columns).value.region;
    var normal := NormalizedRows(rows, col);
    forall i | 0 <= i < |rows|
      ensures Cell(normal[i], col) in SixCities <==> Cell(rows[i], col) in SixCities || Cell(rows[i], col) in CityAliases
    {
      NormalCityInSix(Cell(rows[i], col));
    }
    SixCityRowsKeeps(normal, col);
  }

  /** Every row that reaches the plot is in one of the six cities and has a rate without `%`. */
  lemma {:induction false} ReadyRows(columns: seq<string>, rows: seq<Row>)
    requires PreparedTable(columns, rows).Ready?
    ensures var p := PreparedTable(columns, rows);
            && p.rows != []
            && (forall x :: x in p.rows ==> Cell(x, p.roles.region) in SixCities)
            && (forall x :: x in p.rows ==> '%' !in Cell(x, p.roles.rate))
  {
    var p := PreparedTable(columns, rows);
    var roles := MappedColumns(columns).value;
    var kept := SixCityRows(NormalizedRows(rows, roles.region), roles.region);
    SixCityRowsKeeps(NormalizedRows(rows, roles.region), roles.region);
    forall x | x in p.rows
      ensures Cell(x, roles.region) in SixCities
      ensures '%' !in Cell(x, roles.rate)
    {
      var i :| 0 <= i < |p.rows| && p.rows[i] == x;
      var cell := Cell(kept[i], roles.rate);
      assert x == kept[i][roles.rate := RemoveChar(cell, '%')];
      assert kept[i] in kept;
      RemovedCharAbsent(cell, '%');
      if roles.region == roles.rate {
        NoPercentInCities(cell);
        RemoveAbsentChar(cell, '%');
      }
    }
  }

  lemma {:induction false} NoPercentInCities(name: string)
    requires name in SixCities
    ensures forall i :: 0 <= i < |name| ==> name[i] != '%'
  {
  }

  lemma {:induction false} RemovedCharAbsent(s: string, c: char)
    ensures c !in RemoveChar(s, c)
    decreases |s|
  {
    if s != [] {
      RemovedCharAbsent(s[1..], c);
    }
  }

  // ---------------------------------------------------------------------------
  // The sample table read back

  /** The header the sample CSV is written with. */
  const SampleColumns: seq<string> := ["季別", "縣市別", "購置住宅貸款違約率"]

  /** A sample row as a row of the table read back from the sample CSV. */
  function AsRow(r: SampleRow): Row {
    map[SampleColumns[0] := r.quarter, SampleColumns[1] := r.city, SampleColumns[2] := r.rate]
  }

  function AsRows(data: seq<SampleRow>): (rows: seq<Row>)
    ensures |rows| == |data| && forall k :: 0 <= k < |data| ==> rows[k] == AsRow(data[k])
  {
    seq(|data|, k requires 0 <= k < |data| => AsRow(data[k]))
  }

  /** The sample header is mapped by name: quarter, city and rate, in that order. */
  lemma {:induction false} SampleColumnsMapped()
    ensures MappedColumns(SampleColumns) == Ok(Roles(SampleColumns[0], SampleColumns[1], SampleColumns[2]))
  {
    var quarter, city, rate := SampleColumns[0], SampleColumns[1], SampleColumns[2];
    TimeAt(quarter, 0);
    RegionAt(city, 0);
    RateAt(rate, 8);
    MappedByName(SampleColumns);
  }

  /** Three columns of the three roles in order are mapped by name. */
  lemma {:induction false} MappedByName(columns: seq<string>)
    requires |columns| == 3
    requires RoleOf(columns[0]) == Some(Time) && RoleOf(columns[1]) == Some(Region) && RoleOf(columns[2]) == Some(Rate)
    ensures MappedColumns(columns) == Ok(Roles(columns[0], columns[1], columns[2]))
  {
    assert LastWithRole(columns, Time, 3) == Some(0);
    assert LastWithRole(columns, Region, 3) == Some(1);
    assert LastWithRole(columns, Rate, 3) == Some(2);
  }

  lemma {:induction false} TimeAt(col: string, k: nat)
    requires k < |col| && col[k] == '季'
    ensures RoleOf(col) == Some(Time)
  {
    ContainsAt(col, "季", k);
  }

  lemma {:induction false} RegionAt(col: string, k: nat)
    requires k + 1 < |col| && col[k] == '縣' && col[k + 1] == '市'
    requires forall i :: 0 <= i < |col| ==> col[i] != '季' && col[i] != 'Y'
    ensures RoleOf(col) == Some(Region)
  {
    NotContainsFirst(col, "季");
    NotContainsFirst(col, "Year");
    ContainsAt(col, "縣市", k);
  }

  lemma {:induction false} RateAt(col: string, k: nat)
    requires k < |col| && col[k] == '率'
    requires forall i :: 0 <= i < |col| ==> col[i] != '季' && col[i] != 'Y' && col[i] != '縣' && col[i] != 'C'
    ensures RoleOf(col) == Some(Rate)
  {
    NotContainsFirst(col, "季");
    NotContainsFirst(col, "Year");
    NotContainsFirst(col, "縣市");
    NotContainsFirst(col, "City");
    ContainsAt(col, "率", k);
  }

  /** A filter that every row passes keeps the rows as they are. */
  lemma {:induction false} AllSixCities(rows: seq<Row>, col: string)
    requires forall i :: 0 <= i < |rows| ==> Cell(rows[i], col) in SixCities
    ensures SixCityRows(rows, col) == rows
    decreases |rows|
  {
    if rows != [] {
      var tail := rows[1..];
      forall i | 0 <= i < |tail|
        ensures Cell(tail[i], col) in SixCities
      {
        assert tail[i] == rows[i + 1];
      }
      AllSixCities(tail, col);
      assert Cell(rows[0], col) in SixCities;
      assert rows == [rows[0]] + tail;
    }
  }

  /** When every row is already in one of the six cities, they all reach the plot. */
  lemma {:induction false} AllRowsReady(columns: seq<string>, rows: seq<Row>)
    requires MappedColumns(columns).Ok? && rows != []
    requires forall i :: 0 <= i < |rows| ==> Cell(rows[i], MappedColumns(columns).value.region) in SixCities
    ensures PreparedTable(columns, rows) == Ready(MappedColumns(columns).value, CleanRates(rows, MappedColumns(columns).value.rate))
  {
    var col := MappedColumns(columns).value.region;
    var normal := NormalizedRows(rows, col);
    forall i | 0 <= i < |rows|
      ensures normal[i] == rows[i]
    {
      NormalCityInSix(Cell(rows[i], col));
      assert Cell(rows[i], col) !in CityAliases;
    }
    assert normal == rows;
    AllSixCities(rows, col);
  }

  /**
   * Sample data, whose cities are the six, never makes the script stop: every
   * row reaches the plot.
   */
  lemma {:induction false} SampleSurvives(data: seq<SampleRow>)
    requires data != [] && forall k :: 0 <= k < |data| ==> data[k].city in SixCities
    ensures PreparedTable(SampleColumns, AsRows(data)).Ready?
    ensures |PreparedTable(SampleColumns, AsRows(data)).rows| == |data|
  {
    SampleColumnsMapped();
    var rows := AsRows(data);
    forall i | 0 <= i < |rows|
      ensures Cell(rows[i], SampleColumns[1]) in SixCities
    {
      assert Cell(rows[i], SampleColumns[1]) == data[i].city;
    }
    AllRowsReady(SampleColumns, rows);
  }
}
