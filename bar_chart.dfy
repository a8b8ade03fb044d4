/** The row transformer of src/components/BarChart/BarChart.tsx: each
    returned row becomes one bar, labelled by its group value, in the order
    the query returned them. */
module BarChart {
  import opened Values
  import opened ChartOptions

  /** What the transformer reads from a bar chart's configuration. */
  datatype BarConfig = BarConfig(groupByFields: seq<string>, outStatisticNames: seq<string>)

  /** `feats.map(f => f.attributes[groupField])`: the raw group values,
      `null` and `undefined` included. */
  function BarLabels(rows: seq<Row>, groupField: string): (x: seq<JsValue>)
    ensures |x| == |rows|
    ensures forall i :: 0 <= i < |rows| ==> x[i] == FromAttr(Attr(rows[i], groupField))
  {
    if rows == [] then [] else [FromAttr(Attr(rows[0], groupField))] + BarLabels(rows[1..], groupField)
  }

  /** `feats.map(f => f.attributes[valField] ?? 0)`. */
  function BarValues(rows: seq<Row>, valField: string): (y: seq<JsValue>)
    ensures |y| == |rows|
    ensures forall i :: 0 <= i < |rows| ==>
      y[i] == (if IsNullish(Attr(rows[i], valField)) then JNum(0) else FromScalar(Attr(rows[i], valField).value))
  {
    if rows == [] then [] else [FromScalar(OrNumber(Attr(rows[0], valField), 0))] + BarValues(rows[1..], valField)
  }

  /** The options the chart receives: the labels as the x-axis data and one
      series, the configured first series with the values and type `bar`. */
  function TransformBar(rows: seq<Row>, cfg: BarConfig, options: Options): (next: Options)
    ensures var x := BarLabels(rows, GroupField(cfg.groupByFields));
      var y := BarValues(rows, StatisticField(cfg.outStatisticNames));
      && "xAxis" in next && next["xAxis"] == JObj(SpreadOrEmpty(Prop(options, "xAxis"))["data" := JArr(x)])
      && "series" in next && next["series"] == JArr([SingleSeries(options, "bar", y)])
      && (forall k :: k != "xAxis" && k != "series" ==> (k in next <==> k in options))
      && (forall k :: k != "xAxis" && k != "series" && k in options ==> next[k] == options[k])
  {
    var x := BarLabels(rows, GroupField(cfg.groupByFields));
    var y := BarValues(rows, StatisticField(cfg.outStatisticNames));
    WithSeries(WithAxisData(options, x), [SingleSeries(options, "bar", y)])
  }
}
