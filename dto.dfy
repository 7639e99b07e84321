/** The transfer objects the response handlers build: plots, data series and the
    assembled chart result, plus the JSON configuration node they read. */
module Dto {
  import opened Outcomes

  /** One named measurement of a series, with its unit tag ("percentage", "count", ...). */
  datatype Plot = Plot(name: string, value: real, symbol: string)

  /** One data series: a label and the list of its plots, which the handlers append to in place. */
  class Data {
    var seriesLabel: string
    var plots: seq<Plot>

    constructor (seriesLabel: string, plots: seq<Plot>)
      ensures this.seriesLabel == seriesLabel && this.plots == plots
    {
      this.seriesLabel := seriesLabel;
      this.plots := plots;
    }
  }

  /** The chart result. The chart-type enumeration is a type parameter, since only
      its conversion from text is used. `filter` stays None unless it is set. */
  datatype AggregateDto<ChartType> = AggregateDto(
    drillDownChartId: string,
    chartType: ChartType,
    filter: Option<seq<string>>,
    data: seq<Data>)

  /** The part of a Jackson JSON node that the chart configuration uses:
      a text value, or an array of filter keys. */
  datatype JsonNode = JText(text: string) | JArray(items: seq<string>)

  /** Jackson's asText: the text of a value node, the empty string for a container. */
  function AsText(n: JsonNode): string
  {
    match n
    case JText(t) => t
    case JArray(_) => ""
  }

  /** The set of plot names in a plot list. */
  function Names(plots: seq<Plot>): set<string>
  {
    set i | 0 <= i < |plots| :: plots[i].name
  }

  /** No two plots of the list share a name. */
  predicate UniqueNames(plots: seq<Plot>)
  {
    forall i, j | 0 <= i < j < |plots| :: plots[i].name != plots[j].name
  }

  /** Appending one plot adds exactly its name, and keeps names unique exactly
      when that name was new. */
  lemma {:induction false} AppendPlot(plots: seq<Plot>, p: Plot)
    ensures Names(plots + [p]) == Names(plots) + {p.name}
    ensures UniqueNames(plots + [p]) <==> UniqueNames(plots) && p.name !in Names(plots)
  {
    var s := plots + [p];
    assert s[|plots|] == p;
    forall n | n in Names(s) ensures n in Names(plots) + {p.name} {
      var i :| 0 <= i < |s| && s[i].name == n;
      if i < |plots| { assert plots[i] == s[i]; }
    }
    forall n | n in Names(plots) ensures n in Names(s) {
      var i :| 0 <= i < |plots| && plots[i].name == n;
      assert s[i] == plots[i];
    }
    if UniqueNames(s) {
      forall i, j | 0 <= i < j < |plots| ensures plots[i].name != plots[j].name {
        assert s[i] == plots[i] && s[j] == plots[j];
      }
    }
    if p.name in Names(plots) {
      var i :| 0 <= i < |plots| && plots[i].name == p.name;
      assert s[i].name == s[|plots|].name;
    }
    if UniqueNames(plots) && p.name !in Names(plots) {
      forall i, j | 0 <= i < j < |s| ensures s[i].name != s[j].name {
        if j < |plots| {
          assert s[i] == plots[i] && s[j] == plots[j];
        } else {
          assert s[i] == plots[i];
        }
      }
    }
  }
}
