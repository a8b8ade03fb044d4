/** The row transformer of src/components/LineChart/LineChart.tsx: query
    rows (year, category, statistic) become one line series per category,
    with one value per year on a numerically sorted x-axis. */
module LineChart {
  import opened Wrappers
  import opened Values
  import opened Strings
  import opened Collections
  import opened Sorting
  import opened ChartOptions

  /** What the transformer reads from a line chart's configuration. An
      absent `groupByFieldsForStatistics` is the empty list, and an absent
      `outStatistics` entry or field name the empty string; `categories` is
      `groupBy.categories` as the configuration document lists it. */
  datatype LineConfig = LineConfig(
    groupByFields: seq<string>,
    outStatisticNames: seq<string>,
    categories: Option<seq<(string, seq<int>)>>)

  function YearField(cfg: LineConfig): string { FieldOr(cfg.groupByFields, 0, "YEAR_") }
  function CategoryField(cfg: LineConfig): string { FieldOr(cfg.groupByFields, 1, "CAUSE") }
  function ValueField(cfg: LineConfig): string { StatisticField(cfg.outStatisticNames) }

  /** `Object.entries(categories)`: the parsed object keeps each name once, at
      its first position, with the code list of its last occurrence, and
      lists the names in `Object.keys` order. */
  function CategoryEntries(cats: seq<(string, seq<int>)>): seq<(string, seq<int>)> {
    var names := ObjectKeys(Distinct(NamesOf(cats)));
    seq(|names|, k requires 0 <= k < |names| => (names[k], CodesOf(cats, names[k])))
  }

  function NamesOf(cats: seq<(string, seq<int>)>): (r: seq<string>)
    ensures |r| == |cats| && forall k :: 0 <= k < |cats| ==> r[k] == cats[k].0
  {
    seq(|cats|, k requires 0 <= k < |cats| => cats[k].0)
  }

  function CodesOf(cats: seq<(string, seq<int>)>, name: string): seq<int> {
    LastWith(cats, name).GetOr([])
  }

  /** `entries.find(([, ids]) => ids.includes(code))`, giving the entry's name. */
  function FindCategory(entries: seq<(string, seq<int>)>, code: Option<int>): Option<string> {
    if entries == [] then None
    else if code.Some? && code.value in entries[0].1 then Some(entries[0].0)
    else FindCategory(entries[1..], code)
  }

  /** The category of a row's raw category value: the first configured
      category whose codes contain `Number(cRaw)`, else `String(cRaw)`. */
  function Resolve(cfg: LineConfig, cRaw: Scalar): string {
    match cfg.categories
    case None => ToStr(cRaw)
    case Some(cats) =>
      match FindCategory(CategoryEntries(cats), ToNumber(cRaw))
      case Some(name) => name
      case None => ToStr(cRaw)
  }

  /** `Number(attrs[valField] ?? 0)`. */
  function Amount(v: Option<Scalar>): int {
    ToNumber(OrNumber(v, 0)).GetOr(0)
  }

  /** What one accepted row contributes. */
  datatype Point = Point(category: string, year: string, amount: int)

  /** The contribution of a row, or `None` when the loop skips it: a null or
      missing year or category, or a year that trims to nothing. */
  function PointOf(row: Row, cfg: LineConfig): Option<Point> {
    var yRaw := Attr(row, YearField(cfg));
    var cRaw := Attr(row, CategoryField(cfg));
    if IsNullish(yRaw) || IsNullish(cRaw) then None
    else
      var y := Trim(ToStr(yRaw.value));
      if y == "" then None
      else Some(Point(Resolve(cfg, cRaw.value), y, Amount(Attr(row, ValueField(cfg)))))
  }

  function PointSeq(p: Option<Point>): seq<Point> {
    match p
    case Some(q) => [q]
    case None => []
  }

  /** The contributions of the accepted rows, in row order. */
  function Points(rows: seq<Row>, cfg: LineConfig): seq<Point> {
    if rows == [] then []
    else Points(rows[..|rows| - 1], cfg) + PointSeq(PointOf(rows[|rows| - 1], cfg))
  }

  function CategoryList(points: seq<Point>): (r: seq<string>)
    ensures |r| == |points| && forall k :: 0 <= k < |points| ==> r[k] == points[k].category
  {
    seq(|points|, k requires 0 <= k < |points| => points[k].category)
  }

  function YearList(points: seq<Point>): (r: seq<string>)
    ensures |r| == |points| && forall k :: 0 <= k < |points| ==> r[k] == points[k].year
  {
    seq(|points|, k requires 0 <= k < |points| => points[k].year)
  }

  /** The distinct categories, in the order they were first seen. */
  function Categories(rows: seq<Row>, cfg: LineConfig): seq<string> {
    Distinct(CategoryList(Points(rows, cfg)))
  }

  /** The distinct years, in the order they were first seen (the `yearSet`). */
  function YearsSeen(rows: seq<Row>, cfg: LineConfig): seq<string> {
    Distinct(YearList(Points(rows, cfg)))
  }

  /** The sum of the amounts the points attribute to `(c, y)`. */
  function Total(points: seq<Point>, c: string, y: string): int {
    if points == [] then 0
    else
      var p := points[|points| - 1];
      Total(points[..|points| - 1], c, y) + (if p.category == c && p.year == y then p.amount else 0)
  }

  /** Years shown on the axis: non-empty and not the word `null` in any case. */
  predicate IsYearLabel(y: string) {
    y != "" && !LowerEquals(y, "null")
  }

  /** The x-axis: the distinct year labels, sorted by `Number(a) - Number(b)`. */
  function Years(rows: seq<Row>, cfg: LineConfig): seq<string> {
    SortBy(Filter(YearsSeen(rows, cfg), IsYearLabel), ParseInteger)
  }

  datatype LineSeries = LineSeries(name: string, data: seq<int>)

  /** `seriesMap[name][y] ?? 0`. */
  function Cell(seriesMap: map<string, map<string, int>>, c: string, y: string): int {
    if c in seriesMap && y in seriesMap[c] then seriesMap[c][y] else 0
  }

  /** One series per category, in `Object.keys(seriesMap)` order, each holding
      the total of every year on the axis. */
  function SeriesOf(rows: seq<Row>, cfg: LineConfig): seq<LineSeries> {
    var names := ObjectKeys(Categories(rows, cfg));
    var years := Years(rows, cfg);
    var points := Points(rows, cfg);
    Grid(names, years, (c, y) => Total(points, c, y))
  }

  function SeriesJson(s: LineSeries): JsValue {
    JObj(map["name" := JStr(s.name), "type" := JStr("line"),
             "data" := JArr(seq(|s.data|, j requires 0 <= j < |s.data| => JNum(s.data[j])))])
  }

  /** The options the chart receives: x-axis data and series replaced. */
  function LineOptions(options: Options, years: seq<string>, series: seq<LineSeries>): Options {
    WithSeries(
      WithAxisData(options, seq(|years|, j requires 0 <= j < |years| => JStr(years[j]))),
      seq(|series|, k requires 0 <= k < |series| => SeriesJson(series[k])))
  }

  lemma PointsSnoc(rows: seq<Row>, row: Row, cfg: LineConfig)
    ensures Points(rows + [row], cfg) == Points(rows, cfg) + PointSeq(PointOf(row, cfg))
  {
    assert (rows + [row])[..|rows|] == rows;
  }

  lemma PointsStep(rows: seq<Row>, i: nat, cfg: LineConfig)
    requires i < |rows|
    ensures Points(rows[..i + 1], cfg) == Points(rows[..i], cfg) + PointSeq(PointOf(rows[i], cfg))
  {
    assert rows[..i + 1] == rows[..i] + [rows[i]];
    PointsSnoc(rows[..i], rows[i], cfg);
  }

  lemma TotalSnoc(points: seq<Point>, p: Point, c: string, y: string)
    ensures Total(points + [p], c, y) == Total(points, c, y) + (if p.category == c && p.year == y then p.amount else 0)
  {
    assert (points + [p])[..|points|] == points;
  }

  lemma ListsSnoc(points: seq<Point>, p: Point)
    ensures CategoryList(points + [p]) == CategoryList(points) + [p.category]
    ensures YearList(points + [p]) == YearList(points) + [p.year]
  {
  }

  lemma DistinctSnoc(s: seq<string>, x: string)
    ensures Distinct(s + [x]) == if x in Distinct(s) then Distinct(s) else Distinct(s) + [x]
  {
    assert (s + [x])[..|s|] == s;
  }

  /** `seriesMap[c][y] = (seriesMap[c][y] ?? 0) + v`, creating the inner
      map of a category seen for the first time. */
  function AddAmount(seriesMap: map<string, map<string, int>>, p: Point): (r: map<string, map<string, int>>)
    ensures forall c :: c in r <==> c in seriesMap || c == p.category
  {
    var inner := if p.category in seriesMap then seriesMap[p.category] else map[];
    seriesMap[p.category := inner[p.year := (if p.year in inner then inner[p.year] else 0) + p.amount]]
  }

  /** Every cell of `seriesMap` holds the total the points give it. */
  ghost predicate HoldsTotals(seriesMap: map<string, map<string, int>>, points: seq<Point>) {
    forall c, y :: Cell(seriesMap, c, y) == Total(points, c, y)
  }

  /** Adding a point to the running sums keeps them equal to the totals. */
  lemma AddAmountTotals(seriesMap: map<string, map<string, int>>, points: seq<Point>, p: Point)
    requires HoldsTotals(seriesMap, points)
    ensures HoldsTotals(AddAmount(seriesMap, p), points + [p])
  {
    forall c, y ensures Cell(AddAmount(seriesMap, p), c, y) == Total(points + [p], c, y) {
      TotalSnoc(points, p, c, y);
    }
  }

  /** `set.add(x)` on an insertion-ordered set. */
  function AddNew(xs: seq<string>, x: string): (r: seq<string>)
    ensures x in r && forall z :: z in xs ==> z in r
  {
    if x in xs then xs else xs + [x]
  }

  /** What the loop has built from `points`: the categories in creation
      order, the years in insertion order, and the running sums. */
  ghost predicate Accumulated(seriesMap: map<string, map<string, int>>, created: seq<string>,
                              yearSet: seq<string>, points: seq<Point>) {
    && created == Distinct(CategoryList(points))
    && yearSet == Distinct(YearList(points))
    && (forall c :: c in seriesMap <==> c in created)
    && HoldsTotals(seriesMap, points)
  }

  lemma AccumulateStep(seriesMap: map<string, map<string, int>>, created: seq<string>,
                       yearSet: seq<string>, points: seq<Point>, p: Point)
    requires Accumulated(seriesMap, created, yearSet, points)
    ensures Accumulated(AddAmount(seriesMap, p), AddNew(created, p.category), AddNew(yearSet, p.year), points + [p])
  {
    AddAmountTotals(seriesMap, points, p);
    ListsSnoc(points, p);
    DistinctSnoc(CategoryList(points), p.category);
    DistinctSnoc(YearList(points), p.year);
  }

  /** The `for...of` loop over the rows (lines 50-74): it builds
      `seriesMap` (category -> year -> running sum), remembering the order in
      which categories were created, and the insertion-ordered `yearSet`. */
  method AccumulateRows(rows: seq<Row>, cfg: LineConfig)
    returns (seriesMap: map<string, map<string, int>>, created: seq<string>, yearSet: seq<string>)
    ensures created == Categories(rows, cfg)
    ensures yearSet == YearsSeen(rows, cfg)
    ensures forall c :: c in seriesMap <==> c in created
    ensures forall c, y :: Cell(seriesMap, c, y) == Total(Points(rows, cfg), c, y)
  {
    seriesMap, created, yearSet := map[], [], [];
    ghost var points: seq<Point> := [];
    var i := 0;
    assert rows[..i] == [];
    while i < |rows|
      invariant 0 <= i <= |rows|
      invariant points == Points(rows[..i], cfg)
      invariant Accumulated(seriesMap, created, yearSet, points)
    {
      PointsStep(rows, i, cfg);
      var point := PointOf(rows[i], cfg);
      if point.Some? {
        var p := point.value;
        AccumulateStep(seriesMap, created, yearSet, points, p);
        seriesMap := AddAmount(seriesMap, p);
        created := AddNew(created, p.category);
        yearSet := AddNew(yearSet, p.year);
        points := points + [p];
      } else {
        assert points + PointSeq(point) == points;
      }
      i := i + 1;
    }
    assert rows[..i] == rows;
  }

  /** The series for `names` over `years`, each value read from `cell`. */
  function Grid(names: seq<string>, years: seq<string>, cell: (string, string) -> int): seq<LineSeries> {
    seq(|names|, k requires 0 <= k < |names| =>
      LineSeries(names[k], seq(|years|, j requires 0 <= j < |years| => cell(names[k], years[j]))))
  }

  lemma GridAgrees(names: seq<string>, years: seq<string>, f: (string, string) -> int, g: (string, string) -> int)
    requires forall c, y :: f(c, y) == g(c, y)
    ensures Grid(names, years, f) == Grid(names, years, g)
  {
    var a, b := Grid(names, years, f), Grid(names, years, g);
    forall k | 0 <= k < |names| ensures a[k] == b[k] {
      assert a[k].data == b[k].data;
    }
  }

  /** The whole transformer: accumulate, derive the sorted years and one
      zero-filled series per category, and merge them into the options. */
  method TransformLine(rows: seq<Row>, cfg: LineConfig, options: Options)
    returns (years: seq<string>, series: seq<LineSeries>, next: Options)
    ensures years == Years(rows, cfg)
    ensures series == SeriesOf(rows, cfg)
    ensures next == LineOptions(options, years, series)
  {
    var seriesMap, created, yearSet := AccumulateRows(rows, cfg);
    years := SortBy(Filter(yearSet, IsYearLabel), ParseInteger);
    var names := ObjectKeys(created);
    series := Grid(names, years, (c, y) => Cell(seriesMap, c, y));
    ghost var points := Points(rows, cfg);
    GridAgrees(names, years, (c, y) => Cell(seriesMap, c, y), (c, y) => Total(points, c, y));
    next := LineOptions(options, years, series);
  }

  // ----- Properties -----

  /** A row is skipped exactly when its year or category is null or
      missing or its year trims to nothing; an accepted row contributes its
      trimmed year, resolved category and value (0 when missing). */
  lemma PointOfMeaning(row: Row, cfg: LineConfig)
    ensures PointOf(row, cfg).None? <==>
      IsNullish(Attr(row, YearField(cfg))) || IsNullish(Attr(row, CategoryField(cfg)))
      || Trim(ToStr(Attr(row, YearField(cfg)).value)) == ""
    ensures PointOf(row, cfg).Some? ==>
      var p := PointOf(row, cfg).value;
      && p.year == Trim(ToStr(Attr(row, YearField(cfg)).value)) && p.year != ""
      && p.category == Resolve(cfg, Attr(row, CategoryField(cfg)).value)
      && p.amount == Amount(Attr(row, ValueField(cfg)))
  {
  }

  predicate Matches(entry: (string, seq<int>), code: Option<int>) {
    code.Some? && code.value in entry.1
  }

  /** First match wins: the category found is the name of the first entry
      whose codes contain the code, and none is found when no entry does. */
  lemma {:induction false} FindCategoryFirstMatch(entries: seq<(string, seq<int>)>, code: Option<int>)
    ensures FindCategory(entries, code).None? <==> forall i :: 0 <= i < |entries| ==> !Matches(entries[i], code)
    ensures FindCategory(entries, code).Some? ==>
      exists i :: 0 <= i < |entries| && entries[i].0 == FindCategory(entries, code).value
        && Matches(entries[i], code) && forall j :: 0 <= j < i ==> !Matches(entries[j], code)
  {
    if entries != [] && !Matches(entries[0], code) {
      FindCategoryFirstMatch(entries[1..], code);
      if FindCategory(entries, code).Some? {
        var i :| 0 <= i < |entries[1..]| && entries[1..][i].0 == FindCategory(entries, code).value
          && Matches(entries[1..][i], code) && forall j :: 0 <= j < i ==> !Matches(entries[1..][j], code);
        assert entries[i + 1] == entries[1..][i];
        forall j | 0 <= j < i + 1 ensures !Matches(entries[j], code) {
          if j > 0 {
            assert entries[j] == entries[1..][j - 1];
          }
        }
      } else {
        forall i | 0 <= i < |entries| ensures !Matches(entries[i], code) {
          if i > 0 {
            assert entries[i] == entries[1..][i - 1];
          }
        }
      }
    }
  }

  /** The names of the configured categories, as the transformer lists
      them: each name of the configuration exactly once. */
  lemma CategoryNamesMeaning(cats: seq<(string, seq<int>)>)
    ensures var names := ObjectKeys(Distinct(NamesOf(cats)));
      && NoDuplicates(names)
      && forall name :: name in names <==> name in NamesOf(cats)
  {
    var distinct := Distinct(NamesOf(cats));
    var names := ObjectKeys(distinct);
    ObjectKeysPermutation(distinct);
    PermutationNoDuplicates(distinct, names);
    forall name ensures name in names <==> name in distinct {
      assert name in names <==> name in multiset(names);
    }
  }

  /** Each configured category is looked up with the codes of the last
      occurrence of its name in the configuration. */
  lemma CategoryEntriesCodes(cats: seq<(string, seq<int>)>)
    ensures var entries := CategoryEntries(cats);
      forall i :: 0 <= i < |entries| ==> LastWith(cats, entries[i].0) == Some(entries[i].1)
  {
    var names := ObjectKeys(Distinct(NamesOf(cats)));
    var entries := CategoryEntries(cats);
    CategoryNamesMeaning(cats);
    forall i | 0 <= i < |entries| ensures LastWith(cats, entries[i].0) == Some(entries[i].1) {
      assert entries[i].0 == names[i] && names[i] in NamesOf(cats);
      LastWithMeaning(cats, names[i]);
    }
  }

  /** Running sums of a concatenation add up. */
  lemma {:induction false} TotalAppend(a: seq<Point>, b: seq<Point>, c: string, y: string)
    ensures Total(a + b, c, y) == Total(a, c, y) + Total(b, c, y)
  {
    if b == [] {
      assert a + b == a;
    } else {
      var n := |b| - 1;
      TotalAppend(a, b[..n], c, y);
      assert (a + b)[..|a + b| - 1] == a + b[..n];
    }
  }

  /** Zero fill: a pair that no accepted row produced totals 0. */
  lemma {:induction false} TotalAbsent(points: seq<Point>, c: string, y: string)
    requires forall i :: 0 <= i < |points| ==> points[i].category != c || points[i].year != y
    ensures Total(points, c, y) == 0
  {
    if points != [] {
      TotalAbsent(points[..|points| - 1], c, y);
    }
  }

  /** The x-axis: each year label that an accepted row produced, once, in
      ascending numeric order when every label is an integer. */
  lemma YearsMeaning(rows: seq<Row>, cfg: LineConfig)
    ensures var years := Years(rows, cfg);
      && NoDuplicates(years)
      && (forall y :: y in years <==> IsYearLabel(y) && y in YearList(Points(rows, cfg)))
      && (AllKeyed(years, ParseInteger) ==> Ascending(years, ParseInteger))
  {
    var seen := YearsSeen(rows, cfg);
    var labels := Filter(seen, IsYearLabel);
    var years := Years(rows, cfg);
    FilterNoDuplicates(seen, IsYearLabel);
    PermutationNoDuplicates(labels, years);
    forall y ensures y in years <==> y in labels {
      assert y in years <==> y in multiset(years);
    }
    if AllKeyed(years, ParseInteger) {
      KeyedPermutation(years, labels, ParseInteger);
      SortAscending(labels, ParseInteger);
    }
  }

  /** The names of a list of series, in order. */
  function Names(series: seq<LineSeries>): (r: seq<string>)
    ensures |r| == |series| && forall k :: 0 <= k < |series| ==> r[k] == series[k].name
  {
    seq(|series|, k requires 0 <= k < |series| => series[k].name)
  }

  /** One series per distinct category of the accepted rows. They come in
      `Object.keys` order, which is the order the categories were first
      seen unless a category name is an array index. */
  lemma SeriesNames(rows: seq<Row>, cfg: LineConfig)
    ensures var names := Names(SeriesOf(rows, cfg));
      var cats := Categories(rows, cfg);
      && NoDuplicates(names)
      && (forall c :: c in names <==> c in CategoryList(Points(rows, cfg)))
      && ((forall i :: 0 <= i < |cats| ==> !IsArrayIndex(cats[i])) ==> names == cats)
  {
    var cats := Categories(rows, cfg);
    var keys := ObjectKeys(cats);
    var names := Names(SeriesOf(rows, cfg));
    assert names == keys;
    ObjectKeysPermutation(cats);
    PermutationNoDuplicates(cats, keys);
    forall c ensures c in keys <==> c in cats {
      assert c in keys <==> c in multiset(keys);
    }
    if forall i :: 0 <= i < |cats| ==> !IsArrayIndex(cats[i]) {
      ObjectKeysCreationOrder(cats);
    }
  }

  /** Each series holds one value per year on the axis: the total of its
      category for that year, and 0 where no accepted row gives one. */
  lemma SeriesData(rows: seq<Row>, cfg: LineConfig)
    ensures var series := SeriesOf(rows, cfg);
      var years := Years(rows, cfg);
      var points := Points(rows, cfg);
      forall k :: 0 <= k < |series| ==>
        && |series[k].data| == |years|
        && forall j :: 0 <= j < |years| ==> series[k].data[j] == Total(points, series[k].name, years[j])
  {
  }

  /** The transformer only replaces the x-axis data and the series: every
      other option, and every other x-axis property, is kept. */
  lemma LineOptionsKeep(options: Options, years: seq<string>, series: seq<LineSeries>)
    ensures var next := LineOptions(options, years, series);
      && (forall k :: k != "xAxis" && k != "series" ==> (k in next <==> k in options))
      && (forall k :: k != "xAxis" && k != "series" && k in options ==> next[k] == options[k])
      && "xAxis" in next && next["xAxis"].JObj?
      && (forall k :: k != "data" && k in SpreadOrEmpty(Prop(options, "xAxis")) ==>
            k in next["xAxis"].fields && next["xAxis"].fields[k] == SpreadOrEmpty(Prop(options, "xAxis"))[k])
      && |next["series"].items| == |series|
  {
  }
}
