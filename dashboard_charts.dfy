/** The data shaping inside the dashboard component: the nine count series
    of the region chart, the omzet value and volume parsers, the integer
    formatters of the chart labels and tooltips, and the year-by-month
    quantity table. Rendering, chart options and the percentages are not
    modelled. */
module DashboardCharts {
  import opened Wrappers
  import opened JsString
  import opened JsNumber
  import opened StringHelper

  /** One region of the dashboard response; every counter arrives as text. */
  datatype DashboardRow = DashboardRow(
    region_id: string,
    region_name: string,
    total_outlet: string,
    total_registered_user: string,
    total_visit_user: string,
    total_active_outlet: string,
    customer_count_repeat_order: string,
    total_order_user: string,
    total_repeat_order_user: string,
    total_invoice_user: string,
    total_complete_customer: string)

  /** The nine counters, one per chart series. */
  datatype Counter =
    | Toko | Install | Kelengkapan | Aktif | Visit | TokoRepeat | Pesanan | RepeatOrder | Invoice

  /** The order of the series in the chart. */
  const SeriesOrder: seq<Counter> :=
    [Toko, Install, Kelengkapan, Aktif, Visit, TokoRepeat, Pesanan, RepeatOrder, Invoice]

  /** The field of a row that a counter reads. */
  function CounterField(row: DashboardRow, c: Counter): string
  {
    match c
    case Toko => row.total_outlet
    case Install => row.total_registered_user
    case Kelengkapan => row.total_complete_customer
    case Aktif => row.total_active_outlet
    case Visit => row.total_visit_user
    case TokoRepeat => row.customer_count_repeat_order
    case Pesanan => row.total_order_user
    case RepeatOrder => row.total_repeat_order_user
    case Invoice => row.total_invoice_user
  }

  /** The legend name of a series. */
  function SeriesName(c: Counter): string
  {
    match c
    case Toko => "Total Toko"
    case Install => "Total Toko Install"
    case Kelengkapan => "Total Kelengkapan Data"
    case Aktif => "Total Aktif Outlet"
    case Visit => "Total Visit"
    case TokoRepeat => "Total Toko Repeat Order"
    case Pesanan => "Total Pesanan Toko"
    case RepeatOrder => "Total Repeat Order"
    case Invoice => "Total Invoice"
  }

  /** `dashboardData.map(item => parseInt(item.<field>) || 0)`. */
  function CountSeries(rows: seq<DashboardRow>, c: Counter): (xs: seq<int>)
    ensures |xs| == |rows|
  {
    seq(|rows|, i requires 0 <= i < |rows| => ParseIntOrZero(CounterField(rows[i], c), Auto))
  }

  /** Entry i of a series belongs to row i: the series of two lists of rows
      in a row is the first series followed by the second. */
  lemma CountSeriesAppend(a: seq<DashboardRow>, b: seq<DashboardRow>, c: Counter)
    ensures CountSeries(a + b, c) == CountSeries(a, c) + CountSeries(b, c)
  {
    assert forall i :: 0 <= i < |b| ==> (a + b)[|a| + i] == b[i];
  }

  /** A counter holding the text of an integer is that integer; one holding
      no digit at all counts as 0. */
  lemma CountSeriesEntry(rows: seq<DashboardRow>, c: Counter, i: nat, n: int)
    requires i < |rows|
    ensures CounterField(rows[i], c) == IntToString(n) ==> CountSeries(rows, c)[i] == n
    ensures NoLeadingInteger(CounterField(rows[i], c)) ==> CountSeries(rows, c)[i] == 0
  {
    var f := CounterField(rows[i], c);
    if f == IntToString(n) {
      ParseIntOfIntToString(n, Auto);
    }
    if NoLeadingInteger(f) {
      ParseIntNoLeadingDigit(f, Auto);
    }
  }

  /** The chart's series: a name and its data, in chart order. */
  function ChartSeries(rows: seq<DashboardRow>): (series: seq<(string, seq<int>)>)
    ensures |series| == 9
    ensures forall k :: 0 <= k < 9 ==> |series[k].1| == |rows|
  {
    seq(9, k requires 0 <= k < 9 => (SeriesName(SeriesOrder[k]), CountSeries(rows, SeriesOrder[k])))
  }

  /** The series names, in order. */
  lemma ChartSeriesNames(rows: seq<DashboardRow>)
    ensures seq(9, k requires 0 <= k < 9 => ChartSeries(rows)[k].0)
         == ["Total Toko", "Total Toko Install", "Total Kelengkapan Data", "Total Aktif Outlet",
             "Total Visit", "Total Toko Repeat Order", "Total Pesanan Toko", "Total Repeat Order",
             "Total Invoice"]
  {
  }

  /** The fields of a row in the order the chart shows them. */
  function FieldsInChartOrder(row: DashboardRow): seq<string>
  {
    [row.total_outlet, row.total_registered_user, row.total_complete_customer,
     row.total_active_outlet, row.total_visit_user, row.customer_count_repeat_order,
     row.total_order_user, row.total_repeat_order_user, row.total_invoice_user]
  }

  /** Series k holds, for every row, the parsed k-th field in chart order. */
  lemma ChartSeriesFields(rows: seq<DashboardRow>, i: nat, k: nat)
    requires i < |rows| && k < 9
    ensures ChartSeries(rows)[k].1[i] == ParseIntOrZero(FieldsInChartOrder(rows[i])[k], Auto)
  {
    assert ChartSeries(rows)[k].1 == CountSeries(rows, SeriesOrder[k]);
    assert CounterField(rows[i], SeriesOrder[k]) == FieldsInChartOrder(rows[i])[k];
  }

  /** `parseInt(total_outlet) || 1`: the divisor of the percentage in the
      first four tooltips is never zero. */
  function PercentBase(row: DashboardRow): (d: int)
    ensures d != 0
    ensures ParseIntOrZero(row.total_outlet, Auto) != 0 ==> d == ParseIntOrZero(row.total_outlet, Auto)
  {
    var v := ParseIntOrZero(row.total_outlet, Auto);
    if v == 0 then 1 else v
  }

  // The integer formatters.

  /** `val.toString().replace(/\B(?=(\d{3})+(?!\d))/g, '.')`. */
  function FormatCount(val: int): string
  {
    GroupThousands(IntToString(val))
  }

  /** The count formatter prints what `strPrice` prints, without its prefix. */
  lemma FormatCountIsStrPrice(val: int)
    ensures StrPrice(NumberArg(Int(val))) == "Rp " + FormatCount(val)
  {
  }

  /** The count formatter prints the sign and the grouped digits. */
  lemma FormatCountGroups(val: int)
    ensures FormatCount(val) == (if val < 0 then "-" else "") + Group(DecimalString(if val < 0 then -val else val))
  {
    GroupThousandsOfInt(val);
  }

  /** The value tooltip: `Rp. ` and the grouped digits. */
  function ValueTooltip(val: int): (r: string)
    ensures |r| >= 5 && r[..4] == "Rp. "
  {
    "Rp. " + FormatCount(val)
  }

  // The omzet parsers.

  /** One region group of the omzet response. */
  datatype OmzetRow = OmzetRow(
    region_group_id: string,
    region_group_name: string,
    total_quantity: string,
    total_omzet: string)

  /** `parseInt(s.replace('Rp. ', '').replace(/\./g, ''), 10) || 0`. */
  function ParseOmzetValue(s: string): int
  {
    ParseIntOrZero(RemoveChar(ReplaceFirst(s, "Rp. ", ""), '.'), Ten)
  }

  /** `parseInt(s.replace(/\./g, ''), 10) || 0`. */
  function ParseVolume(s: string): int
  {
    ParseIntOrZero(RemoveChar(s, '.'), Ten)
  }

  /** The value parser reads back what the value tooltip prints. */
  lemma ParseOmzetValueOfTooltip(n: int)
    ensures ParseOmzetValue(ValueTooltip(n)) == n
  {
    ReplaceFirstAtStart("Rp. ", FormatCount(n), "");
    assert "" + FormatCount(n) == FormatCount(n);
    GroupThousandsRemoved(n);
    ParseIntOfIntToString(n, Ten);
  }

  /** The volume parser reads back what the count formatter prints. */
  lemma ParseVolumeOfFormatted(n: int)
    ensures ParseVolume(FormatCount(n)) == n
  {
    GroupThousandsRemoved(n);
    ParseIntOfIntToString(n, Ten);
  }

  /** Both parsers give 0 when, once their replacements are made, no integer
      leads the text: `x5` and `abc5` parse as 0 like any text without a digit. */
  lemma ParsersWithoutLeadingInteger(s: string)
    ensures NoLeadingInteger(RemoveChar(s, '.')) ==> ParseVolume(s) == 0
    ensures NoLeadingInteger(RemoveChar(ReplaceFirst(s, "Rp. ", ""), '.')) ==> ParseOmzetValue(s) == 0
  {
    if NoLeadingInteger(RemoveChar(s, '.')) {
      ParseIntNoLeadingDigit(RemoveChar(s, '.'), Ten);
    }
    if NoLeadingInteger(RemoveChar(ReplaceFirst(s, "Rp. ", ""), '.')) {
      ParseIntNoLeadingDigit(RemoveChar(ReplaceFirst(s, "Rp. ", ""), '.'), Ten);
    }
  }

  /** The value parser strips `Rp. ` with its dot: an amount written `Rp `
      without the dot, as strPrice writes it, keeps its `R` in front and
      parses as 0. */
  lemma ParseOmzetValueOfRpSpace(t: string)
    requires 'R' !in t
    ensures ParseOmzetValue("Rp " + t) == 0
  {
    var s := "Rp " + t;
    forall j
      ensures !OccursAt(s, "Rp. ", j)
    {
      RpSpaceLacksRpDot(t, j);
    }
    ReplaceFirstAbsent(s, "Rp. ", "");
    RemoveCharAppend("Rp ", t, '.');
    RemoveCharAbsent("Rp ", '.');
    var r := RemoveChar(s, '.');
    assert r == "Rp " + RemoveChar(t, '.');
    assert r[0] == 'R';
    assert SkipWhiteSpace(r, 0) == 0;
    ParseIntNoLeadingDigit(r, Ten);
  }

  /** `Rp. ` occurs nowhere in `Rp ` followed by a text without `R`. */
  lemma RpSpaceLacksRpDot(t: string, j: int)
    requires 'R' !in t
    ensures !OccursAt("Rp " + t, "Rp. ", j)
  {
    var s := "Rp " + t;
    if 0 <= j && j + 4 <= |s| {
      var w := s[j..j + 4];
      if j == 0 {
        assert w[2] == ' ';
      } else if j < 3 {
        assert w[0] == s[j];
      } else {
        assert w[0] == t[j - 3];
      }
    }
  }

  /** So the value parser does not read back what strPrice prints. */
  lemma ParseOmzetValueOfStrPrice(n: int)
    ensures ParseOmzetValue(StrPrice(NumberArg(Int(n)))) == 0
  {
    var r := StrPrice(NumberArg(Int(n)));
    StrPriceAmountLacksR(n);
    assert r == "Rp " + r[3..];
    ParseOmzetValueOfRpSpace(r[3..]);
  }

  /** A text with no digit at all parses as 0, in both parsers. */
  lemma ParsersWithoutDigits(s: string)
    requires forall k :: 0 <= k < |s| ==> !IsDigit(s[k])
    ensures ParseVolume(s) == 0 && ParseOmzetValue(s) == 0
  {
    RemoveCharKeepsNonDigits(s);
    ParseIntWithoutDigits(RemoveChar(s, '.'), Ten);
    var t := ReplaceFirst(s, "Rp. ", "");
    assert forall k :: 0 <= k < |t| ==> !IsDigit(t[k]) by {
      match IndexOfFrom(s, "Rp. ", 0)
      case None =>
      case Some(j) =>
        assert forall k :: 0 <= k < |t| ==> t[k] == if k < j then s[k] else s[k + 4];
    }
    RemoveCharKeepsNonDigits(t);
    ParseIntWithoutDigits(RemoveChar(t, '.'), Ten);
  }

  /** Removing dots adds no digit. */
  lemma {:induction false} RemoveCharKeepsNonDigits(s: string)
    requires forall k :: 0 <= k < |s| ==> !IsDigit(s[k])
    ensures forall k :: 0 <= k < |RemoveChar(s, '.')| ==> !IsDigit(RemoveChar(s, '.')[k])
  {
    if |s| > 0 {
      RemoveCharKeepsNonDigits(s[1..]);
      var r, t := RemoveChar(s, '.'), RemoveChar(s[1..], '.');
      var m: string := if s[0] == '.' then "" else [s[0]];
      assert r == m + t;
      assert forall k :: 0 <= k < |r| ==> r[k] == if k < |m| then m[k] else t[k - |m|];
    }
  }

  /** The value series: one entry per row. */
  function OmzetValues(rows: seq<OmzetRow>): (xs: seq<int>)
    ensures |xs| == |rows|
  {
    seq(|rows|, i requires 0 <= i < |rows| => ParseOmzetValue(rows[i].total_omzet))
  }

  /** The volume series: one entry per row. */
  function OmzetVolumes(rows: seq<OmzetRow>): (xs: seq<int>)
    ensures |xs| == |rows|
  {
    seq(|rows|, i requires 0 <= i < |rows| => ParseVolume(rows[i].total_quantity))
  }

  /** Rows whose amounts are printed the way the tooltips print them give
      back the printed numbers. */
  lemma OmzetSeriesOfPrinted(rows: seq<OmzetRow>, values: seq<int>, volumes: seq<int>)
    requires |values| == |rows| && |volumes| == |rows|
    requires forall i :: 0 <= i < |rows| ==> rows[i].total_omzet == ValueTooltip(values[i])
    requires forall i :: 0 <= i < |rows| ==> rows[i].total_quantity == FormatCount(volumes[i])
    ensures OmzetValues(rows) == values && OmzetVolumes(rows) == volumes
  {
    forall i | 0 <= i < |rows|
      ensures OmzetValues(rows)[i] == values[i] && OmzetVolumes(rows)[i] == volumes[i]
    {
      ParseOmzetValueOfTooltip(values[i]);
      ParseVolumeOfFormatted(volumes[i]);
    }
  }

  // The year-by-month quantity table.

  /** One month of the per-month omzet response. */
  datatype MonthRow = MonthRow(
    id: string,
    transaction_year: string,
    transaction_month: string,
    transaction_month_name: string,
    total_quantity: string,
    total_omzet: string)

  /** The table's columns, January to December. */
  const Months: seq<string> :=
    ["january", "february", "march", "april", "may", "june",
     "july", "august", "september", "october", "november", "december"]

  /** A row lands in a month's column exactly when its month name is that
      column's name up to case: `January`, `JANUARY` and `january` all land in
      `january`, because every column name is already lower case. */
  lemma MonthColumnIgnoresCase(r: MonthRow, k: nat)
    requires k < 12
    ensures EntryFor(r, r.transaction_year, Months[k])
        <==> ToLower(r.transaction_month_name) == ToLower(Months[k])
  {
    var m := Months[k];
    assert forall i :: 0 <= i < |m| ==> 'a' <= m[i] <= 'z';
    ToLowerOfLowerCase(m);
  }

  /** `Array.from(new Set(xs))`: each value once, in order of first appearance. */
  function Distinct(xs: seq<string>): (d: seq<string>)
    ensures forall x :: x in d <==> x in xs
    ensures forall i, j :: 0 <= i < j < |d| ==> d[i] != d[j]
  {
    if |xs| == 0 then []
    else
      var p := Distinct(xs[..|xs| - 1]);
      var last := xs[|xs| - 1];
      assert forall x :: x in xs <==> x in xs[..|xs| - 1] || x == last by {
        assert xs == xs[..|xs| - 1] + [last];
      }
      if last in p then p else p + [last]
  }

  /** The first position of a value. */
  function FirstIndex(xs: seq<string>, x: string): (i: nat)
    requires x in xs
    ensures i < |xs| && xs[i] == x
    ensures forall j :: 0 <= j < i ==> xs[j] != x
  {
    if xs[0] == x then 0
    else
      var i := FirstIndex(xs[1..], x);
      assert forall j :: 1 <= j <= i ==> xs[j] == xs[1..][j - 1];
      i + 1
  }

  /** A value found in a prefix is first found at the same place in the whole. */
  lemma FirstIndexOfPrefix(xs: seq<string>, n: nat, x: string)
    requires n <= |xs| && x in xs[..n]
    ensures FirstIndex(xs, x) == FirstIndex(xs[..n], x)
  {
    var i, k := FirstIndex(xs, x), FirstIndex(xs[..n], x);
    assert xs[k] == x;
    assert forall j :: 0 <= j < k ==> xs[j] == xs[..n][j];
  }

  /** Whether the values of `d`, all found in `xs`, come in the order of
      their first appearance in `xs`. */
  predicate InFirstOrder(xs: seq<string>, d: seq<string>)
    requires forall k :: 0 <= k < |d| ==> d[k] in xs
  {
    forall i, j :: 0 <= i < j < |d| ==> FirstIndex(xs, d[i]) < FirstIndex(xs, d[j])
  }

  /** Order of first appearance in a prefix carries over to the whole, and
      a value new in the last place comes after all the others. */
  lemma FirstOrderGrows(xs: seq<string>, p: seq<string>)
    requires |xs| > 0
    requires forall k :: 0 <= k < |p| ==> p[k] in xs[..|xs| - 1]
    requires InFirstOrder(xs[..|xs| - 1], p)
    ensures forall k :: 0 <= k < |p| ==> p[k] in xs
    ensures InFirstOrder(xs, p)
    ensures xs[|xs| - 1] !in xs[..|xs| - 1] ==> InFirstOrder(xs, p + [xs[|xs| - 1]])
  {
    var n := |xs| - 1;
    assert xs == xs[..n] + [xs[n]];
    forall k | 0 <= k < |p|
      ensures p[k] in xs && FirstIndex(xs, p[k]) == FirstIndex(xs[..n], p[k])
    {
      FirstIndexOfPrefix(xs, n, p[k]);
    }
    if xs[n] !in xs[..n] {
      var d := p + [xs[n]];
      assert FirstIndex(xs, xs[n]) == n;
      forall i, j | 0 <= i < j < |d| ensures FirstIndex(xs, d[i]) < FirstIndex(xs, d[j]) {
        assert d[i] == p[i];
        if j < |p| {
          assert d[j] == p[j];
        } else {
          assert FirstIndex(xs[..n], p[i]) < n;
        }
      }
    }
  }

  /** Distinct lists the values in the order they first appear. */
  lemma {:induction false} DistinctInFirstAppearanceOrder(xs: seq<string>)
    ensures forall k :: 0 <= k < |Distinct(xs)| ==> Distinct(xs)[k] in xs
    ensures InFirstOrder(xs, Distinct(xs))
  {
    if |xs| > 0 {
      var n := |xs| - 1;
      DistinctInFirstAppearanceOrder(xs[..n]);
      FirstOrderGrows(xs, Distinct(xs[..n]));
    }
  }

  /** The years of the rows, in row order. */
  function Years(rows: seq<MonthRow>): (ys: seq<string>)
    ensures |ys| == |rows| && forall i :: 0 <= i < |rows| ==> ys[i] == rows[i].transaction_year
  {
    seq(|rows|, i requires 0 <= i < |rows| => rows[i].transaction_year)
  }

  /** Whether a row is an entry of `year` for the column `month`. */
  predicate EntryFor(r: MonthRow, year: string, month: string)
  {
    r.transaction_year == year && ToLower(r.transaction_month_name) == month
  }

  /** The last entry of `year` for `month`, if any. */
  function LastEntry(rows: seq<MonthRow>, year: string, month: string): (r: Option<nat>)
    ensures r.None? ==> forall i :: 0 <= i < |rows| ==> !EntryFor(rows[i], year, month)
    ensures r.Some? ==> r.value < |rows| && EntryFor(rows[r.value], year, month)
                        && forall i :: r.value < i < |rows| ==> !EntryFor(rows[i], year, month)
  {
    if |rows| == 0 then None
    else if EntryFor(rows[|rows| - 1], year, month) then Some(|rows| - 1)
    else LastEntry(rows[..|rows| - 1], year, month)
  }

  /** What the table shows for `year` and `month`: the quantity of the last
      entry, or `-` when there is none or its quantity is ''. */
  function Cell(rows: seq<MonthRow>, year: string, month: string): string
  {
    match LastEntry(rows, year, month)
    case None => "-"
    case Some(i) => if rows[i].total_quantity == "" then "-" else rows[i].total_quantity
  }

  /** Whether a dictionary holds, for each month name, the quantity of the
      last entry of `year` among `rows`. */
  ghost predicate HoldsLastEntries(m: map<string, string>, rows: seq<MonthRow>, year: string)
  {
    && (forall month :: month in m <==> LastEntry(rows, year, month).Some?)
    && (forall month :: month in m ==> m[month] == rows[LastEntry(rows, year, month).value].total_quantity)
  }

  /** The `yearData` dictionary: every entry of `year`, in order, writes its
      quantity under its lower-cased month name, so the last entry wins. */
  method YearData(rows: seq<MonthRow>, year: string) returns (m: map<string, string>)
    ensures HoldsLastEntries(m, rows, year)
  {
    m := map[];
    for i := 0 to |rows|
      invariant HoldsLastEntries(m, rows[..i], year)
    {
      var item := rows[i];
      assert rows[..i + 1][..i] == rows[..i];
      if item.transaction_year == year {
        m := m[ToLower(item.transaction_month_name) := item.total_quantity];
      }
    }
    assert rows[..|rows|] == rows;
  }

  /** `yearData[month] || '-'`. */
  function Display(m: map<string, string>, month: string): string
  {
    if month in m && m[month] != "" then m[month] else "-"
  }

  /** A row of the table: the year and its twelve cells. */
  datatype TableRow = TableRow(year: string, cells: seq<string>)

  /** The body of the table: one row per distinct year in order of first
      appearance, each with twelve cells from January to December. */
  method MonthTable(rows: seq<MonthRow>) returns (table: seq<TableRow>)
    ensures |table| == |Distinct(Years(rows))|
    ensures forall k :: 0 <= k < |table| ==> table[k].year == Distinct(Years(rows))[k]
    ensures forall k :: 0 <= k < |table| ==> |table[k].cells| == 12
    ensures forall k, j :: 0 <= k < |table| && 0 <= j < 12 ==>
              table[k].cells[j] == Cell(rows, table[k].year, Months[j])
  {
    var years := Distinct(Years(rows));
    table := [];
    for k := 0 to |years|
      invariant |table| == k
      invariant forall q :: 0 <= q < k ==> table[q].year == years[q]
      invariant forall q :: 0 <= q < k ==> |table[q].cells| == 12
      invariant forall q, j :: 0 <= q < k && 0 <= j < 12 ==>
                  table[q].cells[j] == Cell(rows, table[q].year, Months[j])
    {
      var yearData := YearData(rows, years[k]);
      var cells := seq(12, j requires 0 <= j < 12 => Display(yearData, Months[j]));
      table := table + [TableRow(years[k], cells)];
    }
  }

  /** Every year in the data gets exactly one row. */
  lemma MonthTableYears(rows: seq<MonthRow>, year: string)
    ensures year in Distinct(Years(rows)) <==> exists i :: 0 <= i < |rows| && rows[i].transaction_year == year
  {
    var ys := Years(rows);
    if year in ys {
      var i :| 0 <= i < |ys| && ys[i] == year;
      assert rows[i].transaction_year == year;
    }
  }

  /** A month with a single non-empty entry shows that entry's quantity. */
  lemma CellOfSingleEntry(rows: seq<MonthRow>, i: nat, month: string)
    requires i < |rows| && ToLower(rows[i].transaction_month_name) == month
    requires rows[i].total_quantity != ""
    requires forall j :: 0 <= j < |rows| && j != i ==> !EntryFor(rows[j], rows[i].transaction_year, month)
    ensures Cell(rows, rows[i].transaction_year, month) == rows[i].total_quantity
  {
  }
}
