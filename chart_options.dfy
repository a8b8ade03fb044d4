/** The shallow "options merge" the chart components share: a copy of the
    configured ECharts options in which only the x-axis data and the series
    are replaced. */
module ChartOptions {
  import opened Values

  type Options = map<string, JsValue>

  /** `xs?.[i] || d`. */
  function FieldOr(xs: seq<string>, i: nat, d: string): (r: string)
    requires d != ""
    ensures r != ""
    ensures i < |xs| && xs[i] != "" ==> r == xs[i]
    ensures !(i < |xs| && xs[i] != "") ==> r == d
  {
    if i < |xs| && xs[i] != "" then xs[i] else d
  }

  /** The statistic field every chart reads:
      `outStatistics?.[0]?.outStatisticFieldName || "value"`. */
  function StatisticField(outStatisticNames: seq<string>): string {
    FieldOr(outStatisticNames, 0, "value")
  }

  /** The label field of the bar and pie charts: `groupByFieldsForStatistics?.[0] || ""`. */
  function GroupField(groupByFields: seq<string>): (r: string)
    ensures |groupByFields| > 0 ==> r == groupByFields[0]
    ensures |groupByFields| == 0 ==> r == ""
  {
    if |groupByFields| > 0 then groupByFields[0] else ""
  }

  /** `next.xAxis = { ...(next.xAxis || {}), data }` on a copy of `options`. */
  function WithAxisData(options: Options, data: seq<JsValue>): (r: Options)
    ensures "xAxis" in r && r["xAxis"].JObj?
    ensures r["xAxis"].fields == SpreadOrEmpty(Prop(options, "xAxis"))["data" := JArr(data)]
    ensures forall k :: k != "xAxis" ==> (k in r <==> k in options)
    ensures forall k :: k != "xAxis" && k in options ==> r[k] == options[k]
  {
    options["xAxis" := JObj(SpreadOrEmpty(Prop(options, "xAxis"))["data" := JArr(data)])]
  }

  /** `next.series = series`. */
  function WithSeries(options: Options, series: seq<JsValue>): (r: Options)
    ensures "series" in r && r["series"] == JArr(series)
    ensures forall k :: k != "series" ==> (k in r <==> k in options)
    ensures forall k :: k != "series" && k in options ==> r[k] == options[k]
  {
    options["series" := JArr(series)]
  }

  /** `{ ...(next.series?.[0] || {}) }`: the properties of the configured
      first series, which the bar and pie charts keep. */
  function FirstSeriesBase(options: Options): map<string, JsValue> {
    SpreadOrEmpty(FirstElement(Prop(options, "series")))
  }

  /** The one series of a bar or pie chart: the configured first series
      with its `type` and `data` set. */
  function SingleSeries(options: Options, kind: string, data: seq<JsValue>): (r: JsValue)
    ensures r.JObj? && "type" in r.fields && "data" in r.fields
    ensures r.fields["type"] == JStr(kind) && r.fields["data"] == JArr(data)
    ensures forall k :: k != "type" && k != "data" ==>
      (k in r.fields <==> k in FirstSeriesBase(options))
    ensures forall k :: k != "type" && k != "data" && k in FirstSeriesBase(options) ==>
      r.fields[k] == FirstSeriesBase(options)[k]
  {
    JObj(FirstSeriesBase(options)["type" := JStr(kind)]["data" := JArr(data)])
  }
}
