/** The row transformer of src/components/PieChart/PieChart.tsx: the
    returned rows are ranked by value, cut to the configured top count and
    shown one slice per row, without aggregation or relabelling. */
module PieChart {
  import opened Wrappers
  import opened Values
  import opened Collections
  import opened Sorting
  import opened ChartOptions

  /** What the transformer reads from a pie chart's configuration; `topLimit`
      is `None` when absent. */
  datatype PieConfig = PieConfig(
    groupByFields: seq<string>,
    outStatisticNames: seq<string>,
    topLimit: Option<int>)

  /** `attributes[valField] ?? 0` as the comparator's subtraction reads it. */
  function Rank(row: Row, valField: string): Option<int> {
    ToNumber(OrNumber(Attr(row, valField), 0))
  }

  function Negate(k: Option<int>): Option<int> {
    match k
    case Some(n) => Some(-n)
    case None => None
  }

  /** The sort key of the comparator `(a, b) => rank(b) - rank(a)`: ranking by
      the negated value puts larger values first. */
  function RankKey(valField: string): Row -> Option<int> {
    row => Negate(Rank(row, valField))
  }

  /** The rows after `feats.sort(...)`: stable, larger values first. */
  function Ranked(rows: seq<Row>, valField: string): seq<Row> {
    SortBy(rows, RankKey(valField))
  }

  /** How many rows `slice(0, topLimit)` keeps; a missing, zero or negative
      limit keeps them all. */
  function Kept(n: nat, topLimit: Option<int>): (k: nat)
    ensures k <= n
    ensures topLimit.Some? && topLimit.value > 0 ==> k == if topLimit.value < n then topLimit.value else n
    ensures !(topLimit.Some? && topLimit.value > 0) ==> k == n
  {
    if topLimit.Some? && topLimit.value > 0 && topLimit.value < n then topLimit.value else n
  }

  /** A slice: `{ name: attributes[grp], value: attributes[valField] ?? 0 }`. */
  function Slice(row: Row, grp: string, valField: string): JsValue {
    JObj(map["name" := FromAttr(Attr(row, grp)), "value" := FromScalar(OrNumber(Attr(row, valField), 0))])
  }

  /** The `.then` callback: rank, cut, map to slices, and replace the series
      with the configured first series holding the slices. */
  method TransformPie(rows: seq<Row>, cfg: PieConfig, options: Options)
    returns (data: seq<JsValue>, next: Options)
    ensures |data| == Kept(|rows|, cfg.topLimit)
    ensures forall i :: 0 <= i < |data| ==>
      data[i] == Slice(Ranked(rows, StatisticField(cfg.outStatisticNames))[i],
                       GroupField(cfg.groupByFields), StatisticField(cfg.outStatisticNames))
    ensures next == WithSeries(options, [SingleSeries(options, "pie", data)])
  {
    var grp := GroupField(cfg.groupByFields);
    var valField := StatisticField(cfg.outStatisticNames);
    var feats := SortBy(rows, RankKey(valField));
    if cfg.topLimit.Some? && cfg.topLimit.value > 0 && cfg.topLimit.value < |feats| {
      feats := feats[..cfg.topLimit.value];
    }
    data := seq(|feats|, i requires 0 <= i < |feats| => Slice(feats[i], grp, valField));
    next := WithSeries(options, [SingleSeries(options, "pie", data)]);
  }

  // ----- Properties -----

  /** The ranking is a rearrangement of the returned rows: nothing merged,
      nothing dropped before the cut. */
  lemma RankedPermutation(rows: seq<Row>, valField: string)
    ensures multiset(Ranked(rows, valField)) == multiset(rows)
  {
  }

  /** Both values are numbers and the first is at least the second. */
  predicate NotBelow(a: Option<int>, b: Option<int>) {
    a.Some? && b.Some? && a.value >= b.value
  }

  /** With numeric values throughout, the slices come in non-increasing order of value. */
  lemma RankedNonIncreasing(rows: seq<Row>, valField: string)
    requires forall i :: 0 <= i < |rows| ==> Rank(rows[i], valField).Some?
    ensures var r := Ranked(rows, valField);
      forall i, j :: 0 <= i < j < |r| ==> NotBelow(Rank(r[i], valField), Rank(r[j], valField))
  {
    var key := RankKey(valField);
    assert AllKeyed(rows, key);
    SortAscending(rows, key);
    var r := Ranked(rows, valField);
    KeyedPermutation(rows, r, key);
    forall i, j | 0 <= i < j < |r| ensures NotBelow(Rank(r[i], valField), Rank(r[j], valField)) {
      assert !After(key(r[i]), key(r[j])) && key(r[i]).Some? && key(r[j]).Some?;
    }
  }

  /** Rows of equal value keep their relative order. */
  lemma RankedStable(rows: seq<Row>, valField: string, v: int)
    requires forall i :: 0 <= i < |rows| ==> Rank(rows[i], valField).Some?
    ensures WithKey(Ranked(rows, valField), RankKey(valField), -v) == WithKey(rows, RankKey(valField), -v)
  {
    var key := RankKey(valField);
    assert AllKeyed(rows, key);
    SortStable(rows, key, -v);
  }

  /** The cut keeps the largest values: every kept slice's value is at
      least every dropped row's value. */
  lemma KeptDominateDropped(rows: seq<Row>, valField: string, topLimit: Option<int>)
    requires forall i :: 0 <= i < |rows| ==> Rank(rows[i], valField).Some?
    ensures var r := Ranked(rows, valField);
      var k := Kept(|rows|, topLimit);
      forall i, j :: 0 <= i < k <= j < |r| ==> NotBelow(Rank(r[i], valField), Rank(r[j], valField))
  {
    RankedNonIncreasing(rows, valField);
  }

  /** Each slice is one returned row: its raw group value as the name, its
      value (0 when null or missing) as the value, in ranked order. */
  lemma SlicesAreRows(rows: seq<Row>, cfg: PieConfig, data: seq<JsValue>)
    requires |data| == Kept(|rows|, cfg.topLimit)
    requires forall i :: 0 <= i < |data| ==>
      data[i] == Slice(Ranked(rows, StatisticField(cfg.outStatisticNames))[i],
                       GroupField(cfg.groupByFields), StatisticField(cfg.outStatisticNames))
    ensures forall i :: 0 <= i < |data| ==>
      exists j :: 0 <= j < |rows| && data[i] == Slice(rows[j], GroupField(cfg.groupByFields), StatisticField(cfg.outStatisticNames))
  {
    var valField := StatisticField(cfg.outStatisticNames);
    var r := Ranked(rows, valField);
    forall i | 0 <= i < |data|
      ensures exists j :: 0 <= j < |rows| && data[i] == Slice(rows[j], GroupField(cfg.groupByFields), valField)
    {
      assert r[i] in multiset(r);
      var j :| 0 <= j < |rows| && rows[j] == r[i];
    }
  }
}
