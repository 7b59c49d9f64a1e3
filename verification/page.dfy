/** `getData` of app/page.tsx: reads the procurement file, derives one
    savings opportunity per data row with a fixed 30% markdown, keeps the
    valid ones, totals spend and savings over every data row, and shapes the
    five largest savings for the chart. */
module Page {
  import opened Wrappers
  import opened Text
  import Seqs
  import CsvLine
  import Sorting
  import opened OpportunityTable

  const CurrentSupplierName: string := "GenPro"
  const TargetSupplierName: string := "Sumifru Philippines"
  /** The header row's first field; a row with this product is dropped. */
  const HeaderProduct: string := "Product"
  const TargetRatio: real := 0.7
  const SavingsRatio: real := 0.30
  const SpreadPercent: real := 30.0
  const WeeksPerYear: real := 52.0
  const ChartSize: nat := 5

  /** JavaScript's `parseFloat`, supplied by the caller: `None` stands for NaN. */
  type NumberParser = string -> Option<real>

  /** `columns[i]`, which is `undefined` past the end of the row. */
  function ColumnAt(columns: seq<string>, i: nat): (r: Option<string>)
    ensures r.Some? <==> i < |columns|
    ensures r.Some? ==> r.value == columns[i]
  {
    if i < |columns| then Some(columns[i]) else None
  }

  /** `parseFloat(field) || 0`: an absent or unparsable field counts as 0. */
  function NumberOrZero(parseFloat: NumberParser, field: Option<string>): (r: real)
    ensures field.Some? && parseFloat(field.value).Some? ==> r == parseFloat(field.value).value
    ensures field.None? || parseFloat(field.value).None? ==> r == 0.0
  {
    match field
    case None => 0.0
    case Some(s) => parseFloat(s).GetOr(0.0)
  }

  /** A derived opportunity with the two per-row figures `getData` uses but
      does not keep in the record. */
  datatype Row = Row(opportunity: Opportunity, weeklyVolume: real, annualSpend: real)

  /** The fixed-ratio identities every derived row satisfies. */
  predicate FollowsRatios(row: Row) {
    var o := row.opportunity;
    && row.annualSpend == o.currentPrice * row.weeklyVolume * WeeksPerYear
    && o.targetPrice == 0.7 * o.currentPrice
    && o.savingsPerCase == 0.3 * o.currentPrice
    && o.annualSavings == 0.3 * o.currentPrice * row.weeklyVolume * WeeksPerYear
    && o.spreadPercentage == SpreadPercent
    && o.currentSupplier == CurrentSupplierName
    && o.targetSupplier == TargetSupplierName
  }

  /** The mapping callback over the parsed columns of one data row. */
  function DeriveColumns(columns: seq<string>, parseFloat: NumberParser): (r: Row)
    requires |columns| > 0
    ensures r.opportunity.product == columns[0]
    ensures r.opportunity.currentPrice == NumberOrZero(parseFloat, ColumnAt(columns, 4))
    ensures r.weeklyVolume == NumberOrZero(parseFloat, ColumnAt(columns, 5))
    ensures FollowsRatios(r)
  {
    var landedCost := NumberOrZero(parseFloat, ColumnAt(columns, 4));
    var weeklyVol := NumberOrZero(parseFloat, ColumnAt(columns, 5));
    var annualSpend := landedCost * weeklyVol * WeeksPerYear;
    var targetPrice := landedCost * TargetRatio;
    var savingsPerCase := landedCost - targetPrice;
    var annualSaving := annualSpend * SavingsRatio;
    Row(
      Opportunity(columns[0], CurrentSupplierName, landedCost, TargetSupplierName,
                  targetPrice, savingsPerCase, annualSaving, SpreadPercent),
      weeklyVol, annualSpend)
  }

  /** One data line: parsed, then mapped. */
  function DeriveRow(line: string, parseFloat: NumberParser): Row {
    DeriveColumns(CsvLine.ParseLine(line), parseFloat)
  }

  /** `rows.slice(1)`: everything after the header line. */
  function DataLines(lines: seq<string>): (r: seq<string>)
    ensures |r| == if |lines| == 0 then 0 else |lines| - 1
    ensures forall i :: 0 <= i < |r| ==> r[i] == lines[i + 1]
  {
    if |lines| == 0 then [] else lines[1..]
  }

  function DeriveRows(lines: seq<string>, parseFloat: NumberParser): seq<Row> {
    Seqs.Map(lines, l => DeriveRow(l, parseFloat))
  }

  lemma DeriveRowsSnoc(lines: seq<string>, line: string, parseFloat: NumberParser)
    ensures DeriveRows(lines + [line], parseFloat) == DeriveRows(lines, parseFloat) + [DeriveRow(line, parseFloat)]
  {
    Seqs.MapSnoc(lines, line, l => DeriveRow(l, parseFloat));
  }

  function OpportunitiesOf(rows: seq<Row>): seq<Opportunity> {
    seq(|rows|, i requires 0 <= i < |rows| => rows[i].opportunity)
  }

  /** `totalSpend`, accumulated row by row. */
  function TotalSpend(rows: seq<Row>): real {
    if |rows| == 0 then 0.0 else TotalSpend(rows[..|rows| - 1]) + rows[|rows| - 1].annualSpend
  }

  /** `totalSavings`, accumulated row by row. */
  function TotalSavings(rows: seq<Row>): real {
    if |rows| == 0 then 0.0
    else TotalSavings(rows[..|rows| - 1]) + rows[|rows| - 1].opportunity.annualSavings
  }

  /** Summed over any rows that follow the ratios, savings are 30% of spend. */
  lemma {:induction false} SavingsAreThirtyPercentOfSpend(rows: seq<Row>)
    requires forall i :: 0 <= i < |rows| ==> FollowsRatios(rows[i])
    ensures TotalSavings(rows) == 0.3 * TotalSpend(rows)
  {
    if |rows| > 0 {
      var p := rows[..|rows| - 1];
      assert forall i :: 0 <= i < |p| ==> p[i] == rows[i];
      SavingsAreThirtyPercentOfSpend(p);
    }
  }

  /** The filter's test: a product, not the header's, and a positive price. */
  predicate IsValid(o: Opportunity) {
    o.product != "" && o.product != HeaderProduct && o.currentPrice > 0.0
  }

  /** `items`: the valid opportunities, each as often as among the rows, in
      row order. */
  function Items(rows: seq<Row>): (r: seq<Opportunity>)
    ensures forall o :: o in r <==> o in OpportunitiesOf(rows) && IsValid(o)
    ensures forall o {:trigger multiset(r)[o]} ::
      multiset(r)[o] == if IsValid(o) then multiset(OpportunitiesOf(rows))[o] else 0
    ensures Seqs.IsSubsequence(r, OpportunitiesOf(rows))
  {
    Seqs.Filter(OpportunitiesOf(rows), IsValid)
  }

  function Sign(x: real): int {
    if x < 0.0 then -1 else if x > 0.0 then 1 else 0
  }

  /** The chart's comparator `(a, b) => b.annualSavings - a.annualSavings`;
      the sort only looks at its sign. */
  function BySavingsDesc(a: Opportunity, b: Opportunity): int {
    Sign(b.annualSavings - a.annualSavings)
  }

  lemma BySavingsDescIsComparator()
    ensures Sorting.IsComparator(BySavingsDesc)
  {}

  function Min(a: nat, b: nat): nat {
    if a <= b then a else b
  }

  /** In a sequence sorted by savings, largest first, nothing after
      position `n` has more savings than anything before it. */
  lemma SortedPrefixDominates(sorted: seq<Opportunity>, n: nat)
    requires Sorting.Sorted(sorted, BySavingsDesc)
    requires n <= |sorted|
    ensures forall i, j :: 0 <= i < j < |sorted| ==> sorted[i].annualSavings >= sorted[j].annualSavings
    ensures forall x, y :: x in sorted[n..] && y in sorted[..n] ==> x.annualSavings <= y.annualSavings
  {
    forall i, j | 0 <= i < j < |sorted| ensures sorted[i].annualSavings >= sorted[j].annualSavings {
      assert BySavingsDesc(sorted[i], sorted[j]) <= 0;
    }
  }

  lemma PrefixLeavesSuffix<T>(s: seq<T>, n: nat)
    requires n <= |s|
    ensures multiset(s[..n]) <= multiset(s)
    ensures multiset(s) - multiset(s[..n]) == multiset(s[n..])
  {
    assert s == s[..n] + s[n..];
  }

  /** `[...items].sort(...).slice(0, 5)`: the five largest annual savings,
      largest first. */
  function TopItems(items: seq<Opportunity>): (r: seq<Opportunity>)
    ensures |r| == Min(ChartSize, |items|)
    ensures multiset(r) <= multiset(items)
    ensures forall i, j :: 0 <= i < j < |r| ==> r[i].annualSavings >= r[j].annualSavings
    ensures forall x, y :: x in multiset(items) - multiset(r) && y in r ==> x.annualSavings <= y.annualSavings
  {
    BySavingsDescIsComparator();
    var sorted := Sorting.Sort(items, BySavingsDesc);
    var n := Min(ChartSize, |items|);
    assert |multiset(sorted)| == |multiset(items)|;
    SortedPrefixDominates(sorted, n);
    PrefixLeavesSuffix(sorted, n);
    sorted[..n]
  }

  /** Among the chosen five, items with equal savings appear in the order
      they had in `items`. */
  lemma TopItemsKeepTieOrder(items: seq<Opportunity>, e: Opportunity)
    ensures var t := Sorting.TiesOf(TopItems(items), e, BySavingsDesc);
      var all := Sorting.TiesOf(items, e, BySavingsDesc);
      |t| <= |all| && t == all[..|t|]
  {
    BySavingsDescIsComparator();
    var sorted := Sorting.Sort(items, BySavingsDesc);
    var n := Min(ChartSize, |items|);
    assert |multiset(sorted)| == |multiset(items)|;
    assert TopItems(items) == sorted[..n];
    Sorting.SortIsStable(items, e, BySavingsDesc);
    Sorting.TiesOfPrefix(sorted, n, e, BySavingsDesc);
  }

  /** The chart label: drop the first "BANANA, " and then the first
      "APPLE, " wherever they occur, and keep the text up to the first space. */
  function Label(product: string): (r: string)
    ensures ' ' !in r
  {
    FirstToken(RemoveFirst(RemoveFirst(product, "BANANA, "), "APPLE, "), ' ')
  }

  datatype ChartPoint = ChartPoint(name: string, current: real, optimized: real)

  /** A chart point re-derives the annual spend from the savings. */
  function ChartPointOf(o: Opportunity): ChartPoint {
    var current := o.annualSavings / SavingsRatio;
    ChartPoint(Label(o.product), current, current * TargetRatio)
  }

  /** Dividing the savings by 0.30 gives back the row's annual spend, and
      the optimised bar is 70% of it. */
  lemma ChartPointReconstructsSpend(row: Row)
    requires FollowsRatios(row)
    ensures ChartPointOf(row.opportunity).current == row.annualSpend
    ensures ChartPointOf(row.opportunity).optimized == 0.7 * row.annualSpend
  {}

  /** `chartData`: one point per top item, in the same order. */
  function ChartData(items: seq<Opportunity>): (r: seq<ChartPoint>)
    ensures |r| == Min(ChartSize, |items|)
    ensures forall i :: 0 <= i < |r| ==>
      && r[i].name == Label(TopItems(items)[i].product)
      && r[i].current == TopItems(items)[i].annualSavings / SavingsRatio
    ensures forall i, j :: 0 <= i < j < |r| ==> r[i].current >= r[j].current
    ensures forall i :: 0 <= i < |r| ==> r[i].optimized == 0.7 * r[i].current && ' ' !in r[i].name
  {
    var top := TopItems(items);
    PointsFollowItems(top);
    Seqs.Map(top, ChartPointOf)
  }

  /** Mapping items in non-increasing order of savings to chart points keeps
      the order of the `current` bars, and each point follows its item. */
  lemma PointsFollowItems(top: seq<Opportunity>)
    requires forall i, j :: 0 <= i < j < |top| ==> top[i].annualSavings >= top[j].annualSavings
    ensures var r := Seqs.Map(top, ChartPointOf);
      && (forall i :: 0 <= i < |r| ==>
            && r[i].name == Label(top[i].product)
            && r[i].current == top[i].annualSavings / SavingsRatio
            && r[i].optimized == 0.7 * r[i].current
            && ' ' !in r[i].name)
      && (forall i, j :: 0 <= i < j < |r| ==> r[i].current >= r[j].current)
  {
    var r := Seqs.Map(top, ChartPointOf);
    forall i, j | 0 <= i < j < |r| ensures r[i].current >= r[j].current {
      DivisionIsMonotone(top[j].annualSavings, top[i].annualSavings);
    }
  }

  lemma DivisionIsMonotone(a: real, b: real)
    requires a <= b
    ensures a / SavingsRatio <= b / SavingsRatio
  {}

  /** An item that survives the filter is the opportunity of some row. */
  lemma ItemComesFromRow(rows: seq<Row>, o: Opportunity)
    requires o in Items(rows)
    ensures exists j :: 0 <= j < |rows| && rows[j].opportunity == o
  {
    var j :| 0 <= j < |OpportunitiesOf(rows)| && OpportunitiesOf(rows)[j] == o;
    assert rows[j].opportunity == o;
  }

  /** The chart point of an item shows, as its `current` bar, the annual
      spend of a data row whose opportunity that item is. */
  lemma ChartPointIsSpend(rows: seq<Row>, o: Opportunity)
    requires forall k :: 0 <= k < |rows| ==> FollowsRatios(rows[k])
    requires o in Items(rows)
    ensures exists j :: 0 <= j < |rows|
                     && rows[j].opportunity == o
                     && ChartPointOf(o).current == rows[j].annualSpend
  {
    ItemComesFromRow(rows, o);
    var j :| 0 <= j < |rows| && rows[j].opportunity == o;
    ChartPointReconstructsSpend(rows[j]);
  }

  /** Bar `i` of `chart` shows the annual spend of a row of `rows` whose
      opportunity is `top[i]`. */
  predicate BarsAreSpends(chart: seq<ChartPoint>, top: seq<Opportunity>, rows: seq<Row>) {
    && |chart| <= |top|
    && forall i :: 0 <= i < |chart| ==>
         exists j :: 0 <= j < |rows| && rows[j].opportunity == top[i] && chart[i].current == rows[j].annualSpend
  }

  /** Every chart point's `current` bar is the annual spend of a data row
      whose opportunity is the matching top item. */
  lemma ChartPointsAreSpends(rows: seq<Row>)
    requires forall i :: 0 <= i < |rows| ==> FollowsRatios(rows[i])
    ensures BarsAreSpends(ChartData(Items(rows)), TopItems(Items(rows)), rows)
  {
    var items := Items(rows);
    var top := TopItems(items);
    var chart := ChartData(items);
    forall i | 0 <= i < |chart|
      ensures exists j :: 0 <= j < |rows| && rows[j].opportunity == top[i] && chart[i].current == rows[j].annualSpend
    {
      assert chart[i] == ChartPointOf(top[i]);
      assert top[i] in multiset(top);
      assert top[i] in multiset(items);
      ChartPointIsSpend(rows, top[i]);
    }
  }

  /** Every derived row follows the fixed ratios. */
  lemma DerivedRowsFollowRatios(lines: seq<string>, parseFloat: NumberParser)
    ensures forall i :: 0 <= i < |DeriveRows(lines, parseFloat)| ==> FollowsRatios(DeriveRows(lines, parseFloat)[i])
  {}

  /** What `getData` returns. */
  datatype PageData = PageData(
    items: seq<Opportunity>,
    totalSpend: real,
    totalSavings: real,
    chartData: seq<ChartPoint>)

  const NoData: PageData := PageData([], 0.0, 0.0, [])

  /** `fileContent.split('\n').filter(row => row.trim() !== '')`. */
  function NonBlankLines(content: string): (r: seq<string>)
    ensures forall l :: l in r <==> l in Split(content, '\n') && !AllWhitespace(l)
    ensures forall l {:trigger multiset(r)[l]} ::
      multiset(r)[l] == if AllWhitespace(l) then 0 else multiset(Split(content, '\n'))[l]
    ensures Seqs.IsSubsequence(r, Split(content, '\n'))
  {
    var lines := Split(content, '\n');
    forall l | l in lines ensures Trim(l) != "" <==> !AllWhitespace(l) {
      TrimEmptyIffBlank(l);
    }
    var r := Seqs.Filter(lines, l => Trim(l) != "");
    assert forall l {:trigger multiset(r)[l]} ::
      multiset(r)[l] == if AllWhitespace(l) then 0 else multiset(lines)[l] by {
      forall l ensures multiset(r)[l] == if AllWhitespace(l) then 0 else multiset(lines)[l] {
        if l !in lines {
          assert multiset(lines)[l] == 0;
        }
      }
    }
    r
  }

  /** Everything after reading the file, from its non-blank lines. */
  function Build(lines: seq<string>, parseFloat: NumberParser): PageData {
    Assemble(DeriveRows(DataLines(lines), parseFloat))
  }

  /** The page's figures for the derived rows. */
  function Assemble(rows: seq<Row>): PageData {
    var items := Items(rows);
    PageData(items, TotalSpend(rows), TotalSavings(rows), ChartData(items))
  }

  /** `getData`, with the file given as its content or `None` when it is
      absent. */
  function GetData(file: Option<string>, parseFloat: NumberParser): (r: PageData)
    ensures file.None? ==> r == NoData
    ensures forall o :: o in r.items ==>
      && IsValid(o)
      && o.targetPrice == 0.7 * o.currentPrice
      && o.savingsPerCase == 0.3 * o.currentPrice
      && o.spreadPercentage == SpreadPercent
    ensures r.totalSavings == 0.3 * r.totalSpend
    ensures |r.chartData| == Min(ChartSize, |r.items|)
    ensures forall i, j :: 0 <= i < j < |r.chartData| ==> r.chartData[i].current >= r.chartData[j].current
    ensures forall i :: 0 <= i < |r.chartData| ==>
      && r.chartData[i].name == Label(TopItems(r.items)[i].product)
      && r.chartData[i].current == TopItems(r.items)[i].annualSavings / SavingsRatio
  {
    match file
    case None => NoData
    case Some(content) =>
      BuildKeepsInvariants(NonBlankLines(content), parseFloat);
      Build(NonBlankLines(content), parseFloat)
  }

  lemma BuildKeepsInvariants(lines: seq<string>, parseFloat: NumberParser)
    ensures var r := Build(lines, parseFloat);
      && (forall o :: o in r.items ==>
            && IsValid(o)
            && o.targetPrice == 0.7 * o.currentPrice
            && o.savingsPerCase == 0.3 * o.currentPrice
            && o.spreadPercentage == SpreadPercent)
      && r.totalSavings == 0.3 * r.totalSpend
  {
    var rows := DeriveRows(DataLines(lines), parseFloat);
    SavingsAreThirtyPercentOfSpend(rows);
    forall o | o in Items(rows)
      ensures o.targetPrice == 0.7 * o.currentPrice && o.savingsPerCase == 0.3 * o.currentPrice
      ensures o.spreadPercentage == SpreadPercent
    {
      var i :| 0 <= i < |OpportunitiesOf(rows)| && OpportunitiesOf(rows)[i] == o;
      assert FollowsRatios(rows[i]);
    }
  }

  /** `items` is the order-preserving selection of the valid opportunities
      among all data rows, one per non-blank line after the first. */
  lemma ItemsAreValidDataRowsInOrder(content: string, parseFloat: NumberParser)
    ensures var lines := NonBlankLines(content);
      var all := OpportunitiesOf(DeriveRows(DataLines(lines), parseFloat));
      var items := GetData(Some(content), parseFloat).items;
      && Seqs.IsSubsequence(items, all)
      && (forall o :: o in items <==> o in all && IsValid(o))
      && (forall o {:trigger multiset(items)[o]} ::
            multiset(items)[o] == if IsValid(o) then multiset(all)[o] else 0)
      && |all| == if |lines| == 0 then 0 else |lines| - 1
  {}

  /** Each bar of the chart built from `lines` shows the annual spend of a
      data row whose opportunity is the matching top item. */
  lemma BuildChartShowsSpend(lines: seq<string>, parseFloat: NumberParser)
    ensures var r := Build(lines, parseFloat);
      BarsAreSpends(r.chartData, TopItems(r.items), DeriveRows(DataLines(lines), parseFloat))
  {
    var rows := DeriveRows(DataLines(lines), parseFloat);
    DerivedRowsFollowRatios(DataLines(lines), parseFloat);
    ChartPointsAreSpends(rows);
    assert Build(lines, parseFloat) == Assemble(rows);
  }

  /** Each bar of the page's chart shows the annual spend of a data row whose
      opportunity is the matching top item. */
  lemma ChartShowsAnnualSpend(content: string, parseFloat: NumberParser)
    ensures var r := GetData(Some(content), parseFloat);
      BarsAreSpends(r.chartData, TopItems(r.items), DeriveRows(DataLines(NonBlankLines(content)), parseFloat))
  {
    var lines := NonBlankLines(content);
    assert GetData(Some(content), parseFloat) == Build(lines, parseFloat);
    BuildChartShowsSpend(lines, parseFloat);
  }

  /** The totals are taken before the filter: a data row that is filtered
      out still adds its spend and savings, and leaves `items` alone. */
  lemma RejectedRowStillCounts(lines: seq<string>, line: string, parseFloat: NumberParser)
    requires |lines| > 0
    requires !IsValid(DeriveRow(line, parseFloat).opportunity)
    ensures var before := Build(lines, parseFloat);
      var after := Build(lines + [line], parseFloat);
      var row := DeriveRow(line, parseFloat);
      && after.items == before.items
      && after.totalSpend == before.totalSpend + row.annualSpend
      && after.totalSavings == before.totalSavings + row.opportunity.annualSavings
  {
    BuildSnoc(lines, line, parseFloat);
    RejectedRowAppended(DeriveRows(DataLines(lines), parseFloat), DeriveRow(line, parseFloat));
  }

  lemma BuildSnoc(lines: seq<string>, line: string, parseFloat: NumberParser)
    requires |lines| > 0
    ensures Build(lines + [line], parseFloat)
      == Assemble(DeriveRows(DataLines(lines), parseFloat) + [DeriveRow(line, parseFloat)])
  {
    assert DataLines(lines + [line]) == DataLines(lines) + [line];
    assert DeriveRows(DataLines(lines + [line]), parseFloat)
        == DeriveRows(DataLines(lines) + [line], parseFloat);
    DeriveRowsSnoc(DataLines(lines), line, parseFloat);
  }

  lemma RejectedRowAppended(rows: seq<Row>, row: Row)
    requires !IsValid(row.opportunity)
    ensures Items(rows + [row]) == Items(rows)
    ensures TotalSpend(rows + [row]) == TotalSpend(rows) + row.annualSpend
    ensures TotalSavings(rows + [row]) == TotalSavings(rows) + row.opportunity.annualSavings
  {
    assert (rows + [row])[..|rows|] == rows;
    assert OpportunitiesOf(rows + [row]) == OpportunitiesOf(rows) + [row.opportunity];
    Seqs.FilterSnoc(OpportunitiesOf(rows), row.opportunity, IsValid);
  }

  /** A row whose volume does not parse keeps its place when the price is
      positive, with zero annual savings. */
  lemma UnparsableVolumeKeepsRow(columns: seq<string>, parseFloat: NumberParser)
    requires |columns| > 5
    requires parseFloat(columns[5]).None?
    requires columns[0] != "" && columns[0] != HeaderProduct
    requires NumberOrZero(parseFloat, ColumnAt(columns, 4)) > 0.0
    ensures IsValid(DeriveColumns(columns, parseFloat).opportunity)
    ensures DeriveColumns(columns, parseFloat).opportunity.annualSavings == 0.0
  {}

  /** A row whose cost does not parse, or is missing, is dropped. */
  lemma UnparsablePriceDropsRow(columns: seq<string>, parseFloat: NumberParser)
    requires |columns| > 0
    requires |columns| <= 4 || parseFloat(columns[4]).None?
    ensures !IsValid(DeriveColumns(columns, parseFloat).opportunity)
  {}

  /** A banana row at 2.00 per case and 1000 cases a week. */
  lemma BananaRowFigures(parseFloat: NumberParser)
    requires parseFloat("2.00") == Some(2.0) && parseFloat("1000") == Some(1000.0)
    ensures var row := DeriveColumns(["BANANA, CAVENDISH", "5", "10", "PH", "2.00", "1000"], parseFloat);
      && row.annualSpend == 104000.0
      && row.opportunity.annualSavings == 31200.0
      && row.opportunity.targetPrice == 1.4
      && row.opportunity.savingsPerCase == 0.6
  {}

  /** After a leading "BANANA, " the label is the next word. */
  lemma LabelDropsBrand(name: string, rest: string)
    requires ' ' !in name && ',' !in name && ',' !in rest
    ensures Label("BANANA, " + name + " " + rest) == name
  {
    var s := "BANANA, " + name + " " + rest;
    var t := name + " " + rest;
    assert s[..8] == "BANANA, " && s[8..] == t;
    assert RemoveFirst(s, "BANANA, ") == t by {
      FirstMatchAt(s, "BANANA, ", 0);
    }
    assert ',' !in t;
    MissingCharMeansNoMatch(t, "APPLE, ", ',');
    assert t[..|name|] == name;
    FirstTokenIsPrefix(t, ' ', |name|);
  }

  /** The removal is not anchored at the start: "GREEN APPLE, FUJI" is
      labelled "GREEN". */
  lemma LabelRemovesInnerMatch(word: string, name: string)
    requires ' ' !in word && 'A' !in word && 'B' !in word && 'B' !in name
    ensures Label(word + " APPLE, " + name) == word
  {
    var s := word + " APPLE, " + name;
    var i := |word| + 1;
    assert 'B' !in s;
    MissingCharMeansNoMatch(s, "BANANA, ", 'B');
    forall k | 0 <= k < i ensures !OccursAt(s, "APPLE, ", k) {
      if k < |word| {
        assert s[k] == word[k];
      }
      FirstCharMismatch(s, "APPLE, ", k);
    }
    assert s[i..i + 7] == "APPLE, ";
    FirstMatchAt(s, "APPLE, ", i);
    var t := word + " " + name;
    assert s[..i] + s[i + 7..] == t;
    assert t[..|word|] == word;
    FirstTokenIsPrefix(t, ' ', |word|);
  }

  /** The removal is case-sensitive: "Banana, " is not a brand prefix. */
  lemma LabelIsCaseSensitive(name: string)
    requires 'N' !in name && 'P' !in name
    ensures Label("Banana, " + name) == "Banana,"
  {
    var s := "Banana, " + name;
    assert 'N' !in s && 'P' !in s;
    MissingCharMeansNoMatch(s, "BANANA, ", 'N');
    MissingCharMeansNoMatch(s, "APPLE, ", 'P');
    assert s[..7] == "Banana," && s[7] == ' ';
    FirstTokenIsPrefix(s, ' ', 7);
  }
}
