/** The plot-list helpers that every chart response handler inherits: the computed
    percentage field, the two ratio helpers, the completion of missing plot keys and
    the assembly of the chart result. */
module ResponseHandler {
  import opened Outcomes
  import opened Dto

  const Percentage := "percentage"
  const DrillChart := "drillChart"
  const ChartTypeKey := "chartType"
  const FilterKeys := "filterKeys"

  /** The zero-safe percentage shared by every helper: part/whole*100, and 0.0
      as soon as either operand is exactly zero. */
  function ZeroSafePercentage(part: real, whole: real): (r: real)
    ensures r == 0.0 <==> part == 0.0 || whole == 0.0
    ensures whole != 0.0 ==> r * whole == part * 100.0
  {
    if part == 0.0 || whole == 0.0 then 0.0 else part / whole * 100.0
  }

  /** A part between zero and its positive whole is a percentage between 0 and 100. */
  lemma PercentageOfWholeIsBounded(part: real, whole: real)
    requires 0.0 <= part <= whole && whole > 0.0
    ensures 0.0 <= ZeroSafePercentage(part, whole) <= 100.0
  {
  }

  // ---------------------------------------------------------------------------
  // Collectors.toMap(Plot::getName, identity)

  /** The name-to-plot map that Collectors.toMap builds from a plot list; it throws
      IllegalStateException when two plots share a name. */
  function PlotIndex(plots: seq<Plot>): (r: Outcome<map<string, Plot>>)
    ensures r.Ok? <==> UniqueNames(plots)
    ensures r.Thrown? ==> r.exception == IllegalState
    ensures r.Ok? ==> r.value.Keys == Names(plots)
    ensures r.Ok? ==> forall i :: 0 <= i < |plots| ==> r.value[plots[i].name] == plots[i]
    decreases |plots|
  {
    if plots == [] then Ok(map[])
    else
      var init, last := plots[..|plots| - 1], plots[|plots| - 1];
      assert plots == init + [last];
      AppendPlot(init, last);
      match PlotIndex(init)
      case Thrown(e) => Thrown(e)
      case Ok(m) =>
        if last.name in m then Thrown(IllegalState)
        else
          var m' := m[last.name := last];
          assert forall i :: 0 <= i < |init| ==> plots[i] == init[i];
          Ok(m')
  }

  // ---------------------------------------------------------------------------
  // addComputedField

  /** The try block of addComputedField: build the index, then read the part and
      the whole. A zero part short-circuits before the whole is looked up; an
      absent operand throws NullPointerException when its value is read. */
  function TryComputedValue(plots: seq<Plot>, partField: string, wholeField: string): (r: Outcome<real>)
    ensures r.Ok? ==> UniqueNames(plots) && partField in Names(plots)
    ensures UniqueNames(plots) && partField in Names(plots) && wholeField in Names(plots) ==> r.Ok?
    ensures !UniqueNames(plots) ==> r == Thrown(IllegalState)
  {
    match PlotIndex(plots)
    case Thrown(e) => Thrown(e)
    case Ok(plotMap) =>
      if partField !in plotMap then Thrown(NullPointer)
      else if plotMap[partField].value == 0.0 then Ok(0.0)
      else if wholeField !in plotMap then Thrown(NullPointer)
      else if plotMap[wholeField].value == 0.0 then Ok(0.0)
      else Ok(plotMap[partField].value / plotMap[wholeField].value * 100.0)
  }

  /** The value that addComputedField appends: that of the try block, or 0.0 from
      the catch block when it threw. */
  function ComputedValue(plots: seq<Plot>, partField: string, wholeField: string): (r: real)
    ensures r != 0.0 ==> UniqueNames(plots) && partField in Names(plots) && wholeField in Names(plots)
  {
    match TryComputedValue(plots, partField, wholeField)
    case Ok(v) => v
    case Thrown(_) => 0.0
  }

  /** Names unique and both operands present: the appended value is the zero-safe
      percentage of the operands' values (part/whole*100, or 0.0 if either is zero). */
  lemma ComputedValueOfOperands(plots: seq<Plot>, partField: string, wholeField: string, i: int, j: int)
    requires UniqueNames(plots)
    requires 0 <= i < |plots| && 0 <= j < |plots|
    requires plots[i].name == partField && plots[j].name == wholeField
    ensures ComputedValue(plots, partField, wholeField) == ZeroSafePercentage(plots[i].value, plots[j].value)
  {
  }

  /** A missing operand or a duplicated plot name yields 0.0, never an exception. */
  lemma ComputedValueWithoutOperands(plots: seq<Plot>, partField: string, wholeField: string)
    requires !UniqueNames(plots) || partField !in Names(plots) || wholeField !in Names(plots)
    ensures ComputedValue(plots, partField, wholeField) == 0.0
  {
  }

  /** Appends the computed percentage plot `newfield` to the series, in place. It
      always appends exactly one plot, at the end, even when `newfield` already
      exists, and leaves every earlier plot as it was. */
  method AddComputedField(data: Data, newfield: string, partField: string, wholeField: string)
    modifies data`plots
    ensures data.plots == old(data.plots) + [Plot(newfield, ComputedValue(old(data.plots), partField, wholeField), Percentage)]
  {
    var attempt := TryComputedValue(data.plots, partField, wholeField);
    match attempt {
      case Ok(fieldValue) =>
        data.plots := data.plots + [Plot(newfield, fieldValue, Percentage)];
      case Thrown(_) =>
        data.plots := data.plots + [Plot(newfield, 0.0, Percentage)];
    }
  }

  /** Appending a computed field under a name the series already has duplicates
      that name, so every later computed field on the series comes out 0.0. */
  lemma {:induction false} DuplicateFieldZeroesLaterFields(plots: seq<Plot>, newfield: string, v: real, partField: string, wholeField: string)
    requires newfield in Names(plots)
    ensures !UniqueNames(plots + [Plot(newfield, v, Percentage)])
    ensures ComputedValue(plots + [Plot(newfield, v, Percentage)], partField, wholeField) == 0.0
  {
    AppendPlot(plots, Plot(newfield, v, Percentage));
  }

  // ---------------------------------------------------------------------------
  // percentageValue and getPercentage

  /** percentageValue as written: values[0]/values[1]*100, or 0.0 if either is
      zero. Both elements are read before the size guard, so a list of fewer than
      two elements throws IndexOutOfBoundsException. Later elements are ignored. */
  function PercentageValue(values: seq<real>): (r: Outcome<real>)
    ensures r.Thrown? <==> |values| < 2
    ensures r.Thrown? ==> r.exception == IndexOutOfBounds
    ensures r.Ok? ==> (r.value == 0.0 <==> values[0] == 0.0 || values[1] == 0.0)
    ensures r.Ok? && values[1] != 0.0 ==> r.value * values[1] == values[0] * 100.0
  {
    if |values| < 2 then Thrown(IndexOutOfBounds)
    else Ok(ZeroSafePercentage(values[0], values[1]))
  }

  /** Elements past the second never change the result. */
  lemma PercentageValueIgnoresTail(values: seq<real>, rest: seq<real>)
    requires |values| >= 2
    ensures PercentageValue(values + rest) == PercentageValue(values[..2])
  {
  }

  /** percentageValue with its size guard taking effect: a list of fewer than two
      elements gives 0.0; otherwise it agrees with percentageValue. */
  function PercentageValueSafe(values: seq<real>): (r: real)
    ensures |values| < 2 ==> r == 0.0
    ensures |values| >= 2 ==> PercentageValue(values) == Ok(r)
  {
    if |values| > 1 && values[0] != 0.0 && values[1] != 0.0 then values[0] / values[1] * 100.0 else 0.0
  }

  /** percentageValue([50.0, 200.0]) is 25 and percentageValue([0.0, 10.0]) is 0.0. */
  lemma PercentageValueExamples()
    ensures PercentageValue([50.0, 200.0]) == Ok(25.0)
    ensures PercentageValue([0.0, 10.0]) == Ok(0.0)
  {
  }

  /** percentageValue([10.0]) throws although its guard asks for a size above 1,
      while the guarded version gives 0.0. */
  lemma PercentageValueShortListThrows()
    ensures PercentageValue([10.0]) == Thrown(IndexOutOfBounds)
    ensures PercentageValueSafe([10.0]) == 0.0
  {
  }

  /** getPercentage: values[partField]/values[wholeField]*100, or 0.0 when the map
      has at most one entry or either value is zero. An absent key throws
      NullPointerException when its value is unboxed, before any guard. */
  function GetPercentage(values: map<string, real>, partField: string, wholeField: string): (r: Outcome<real>)
    ensures r.Thrown? <==> partField !in values || wholeField !in values
    ensures r.Thrown? ==> r.exception == NullPointer
    ensures r.Ok? && |values| <= 1 ==> r.value == 0.0
    ensures r.Ok? && |values| > 1 ==> (r.value == 0.0 <==> values[partField] == 0.0 || values[wholeField] == 0.0)
    ensures r.Ok? && |values| > 1 && values[wholeField] != 0.0 ==> r.value * values[wholeField] == values[partField] * 100.0
  {
    if partField !in values || wholeField !in values then Thrown(NullPointer)
    else if |values| > 1 then Ok(ZeroSafePercentage(values[partField], values[wholeField]))
    else Ok(0.0)
  }

  /** For two distinct keys, getPercentage is percentageValue of their two values. */
  lemma {:induction false} GetPercentageIsPercentageValue(values: map<string, real>, partField: string, wholeField: string)
    requires partField in values && wholeField in values && partField != wholeField
    ensures GetPercentage(values, partField, wholeField) == PercentageValue([values[partField], values[wholeField]])
  {
    var rest := values.Keys - {partField};
    assert wholeField in rest;
    assert |values.Keys| == |rest| + 1;
  }

  /** Asking for a field as a percentage of itself gives 100 in a map of two or
      more entries, but 0.0 in a one-entry map, which the size guard rejects. */
  lemma GetPercentageOfItself(values: map<string, real>, field: string)
    requires field in values
    ensures GetPercentage(values, field, field) == Ok(if |values| > 1 && values[field] != 0.0 then 100.0 else 0.0)
  {
  }

  /** getPercentage with its size guard checked first: a map of fewer than two
      entries gives 0.0; otherwise it agrees with getPercentage, so an absent key
      in a larger map still throws when its value is unboxed. */
  function GetPercentageSafe(values: map<string, real>, partField: string, wholeField: string): (r: Outcome<real>)
    ensures |values| <= 1 ==> r == Ok(0.0)
    ensures |values| > 1 ==> r == GetPercentage(values, partField, wholeField)
  {
    if |values| <= 1 then Ok(0.0)
    else if partField !in values || wholeField !in values then Thrown(NullPointer)
    else Ok(ZeroSafePercentage(values[partField], values[wholeField]))
  }

  /** getPercentage on an empty map, or on a one-entry map asked for a key it
      lacks, throws although its size guard asks for more than one entry, while
      the guarded version gives 0.0. */
  lemma GetPercentageSmallMapThrows()
    ensures GetPercentage(map[], "open", "total") == Thrown(NullPointer)
    ensures GetPercentage(map["total" := 5.0], "open", "total") == Thrown(NullPointer)
    ensures GetPercentageSafe(map[], "open", "total") == Ok(0.0)
    ensures GetPercentageSafe(map["total" := 5.0], "open", "total") == Ok(0.0)
  {
  }

  // ---------------------------------------------------------------------------
  // appendMissingPlot

  /** A mutable set of plot keys, owned by the caller. */
  class KeySet {
    var elems: set<string>

    constructor (elems: set<string>)
      ensures this.elems == elems
    {
      this.elems := elems;
    }
  }

  /** The forEach loop of appendMissingPlot: put a zero-valued plot with the given
      symbol into the map under every key of `keys`. */
  method PutZeroPlots(index: map<string, Plot>, keys: set<string>, symbol: string) returns (m: map<string, Plot>)
    ensures m.Keys == index.Keys + keys
    ensures forall k :: k in keys ==> m[k] == Plot(k, 0.0, symbol)
    ensures forall k :: k in index && k !in keys ==> m[k] == index[k]
  {
    m := index;
    var rest := keys;
    while rest != {}
      invariant rest <= keys
      invariant m.Keys == index.Keys + (keys - rest)
      invariant forall k :: k in keys - rest ==> m[k] == Plot(k, 0.0, symbol)
      invariant forall k :: k in index && k !in keys - rest ==> m[k] == index[k]
      decreases rest
    {
      var k :| k in rest;
      m := m[k := Plot(k, 0.0, symbol)];
      rest := rest - {k};
    }
  }

  /** appendMissingPlot as written. It indexes the series' plots (throwing on a
      duplicated name, before anything changes), removes the series' plot names
      from the caller's key set in place, and puts a zero plot for every remaining
      key into its own local map, whose final value is returned here as `r`. The
      series itself is never changed. */
  method AppendMissingPlot(plotKeys: KeySet, data: Data, symbol: string) returns (r: Outcome<map<string, Plot>>)
    modifies plotKeys
    ensures data.plots == old(data.plots)
    ensures !UniqueNames(data.plots) ==> r == Thrown(IllegalState) && plotKeys.elems == old(plotKeys.elems)
    ensures UniqueNames(data.plots) ==> plotKeys.elems == old(plotKeys.elems) - Names(data.plots)
    ensures UniqueNames(data.plots) ==> r.Ok? && r.value.Keys == Names(data.plots) + old(plotKeys.elems)
    ensures r.Ok? ==> forall i :: 0 <= i < |data.plots| ==> r.value[data.plots[i].name] == data.plots[i]
    ensures r.Ok? ==> forall k :: k in plotKeys.elems ==> r.value[k] == Plot(k, 0.0, symbol)
  {
    var index := PlotIndex(data.plots);
    match index {
      case Thrown(e) =>
        r := Thrown(e);
      case Ok(map_) =>
        plotKeys.elems := plotKeys.elems - map_.Keys;
        var filled := PutZeroPlots(map_, plotKeys.elems, symbol);
        r := Ok(filled);
    }
  }

  /** Calling appendMissingPlot a second time with the same key set and series
      changes nothing more: the key set and the local map come out the same. */
  method AppendMissingPlotTwice(plotKeys: KeySet, data: Data, symbol: string) returns (first: Outcome<map<string, Plot>>, second: Outcome<map<string, Plot>>)
    modifies plotKeys
    ensures first == second
    ensures UniqueNames(data.plots) ==> plotKeys.elems == old(plotKeys.elems) - Names(data.plots)
    ensures !UniqueNames(data.plots) ==> plotKeys.elems == old(plotKeys.elems)
  {
    first := AppendMissingPlot(plotKeys, data, symbol);
    ghost var once := plotKeys.elems;
    second := AppendMissingPlot(plotKeys, data, symbol);
    assert plotKeys.elems == once;
    if first.Ok? {
      assert second.Ok? && first.value.Keys == second.value.Keys;
      forall k | k in first.value.Keys ensures first.value[k] == second.value[k] {
        if k in Names(data.plots) {
          var i :| 0 <= i < |data.plots| && data.plots[i].name == k;
        }
      }
      assert first.value == second.value;
    }
  }

  /** Two series completed one after the other against one key set: the first
      series gains nothing, and the second series' local map lacks the key the
      first series had, because the first call removed it from the shared set. */
  method AppendMissingPlotSharedKeys() returns (firstPlots: seq<Plot>, secondKeys: set<string>, keysLeft: set<string>)
    ensures firstPlots == [Plot("open", 5.0, "count")]
    ensures secondKeys == {"total", "closed"}
    ensures keysLeft == {"closed"}
  {
    var keys := new KeySet({"total", "open", "closed"});
    var first := new Data("ward-1", [Plot("open", 5.0, "count")]);
    var second := new Data("ward-2", [Plot("total", 3.0, "count")]);
    AppendPlot([], first.plots[0]);
    assert [] + [first.plots[0]] == first.plots;
    AppendPlot([], second.plots[0]);
    assert [] + [second.plots[0]] == second.plots;
    var r1 := AppendMissingPlot(keys, first, "count");
    var r2 := AppendMissingPlot(keys, second, "count");
    firstPlots, secondKeys, keysLeft := first.plots, r2.value.Keys, keys.elems;
  }

  /** appendMissingPlot as its documentation describes it: a zero plot with the
      given symbol is appended to the series for every required key it lacks, and
      the caller's key set is left alone. A duplicated name still throws first. */
  method AppendMissingPlotToData(plotKeys: set<string>, data: Data, symbol: string) returns (thrown: Option<Exception>)
    modifies data`plots
    ensures thrown == if UniqueNames(old(data.plots)) then None else Some(IllegalState)
    ensures thrown.Some? ==> data.plots == old(data.plots)
    ensures |data.plots| >= |old(data.plots)| && data.plots[..|old(data.plots)|] == old(data.plots)
    ensures thrown.None? ==> UniqueNames(data.plots)
    ensures thrown.None? ==> Names(data.plots) == Names(old(data.plots)) + plotKeys
    ensures forall i :: |old(data.plots)| <= i < |data.plots| ==> data.plots[i] == Plot(data.plots[i].name, 0.0, symbol)
  {
    var index := PlotIndex(data.plots);
    if index.Thrown? {
      return Some(IllegalState);
    }
    thrown := None;
    var missing := plotKeys - index.value.Keys;
    while missing != {}
      invariant missing <= plotKeys
      invariant UniqueNames(data.plots)
      invariant missing !! Names(data.plots)
      invariant Names(data.plots) + missing == Names(old(data.plots)) + plotKeys
      invariant |data.plots| >= |old(data.plots)| && data.plots[..|old(data.plots)|] == old(data.plots)
      invariant forall i :: |old(data.plots)| <= i < |data.plots| ==> data.plots[i] == Plot(data.plots[i].name, 0.0, symbol)
      decreases missing
    {
      var k :| k in missing;
      AppendPlot(data.plots, Plot(k, 0.0, symbol));
      data.plots := data.plots + [Plot(k, 0.0, symbol)];
      missing := missing - {k};
    }
  }

  /** Series whose names lie within the required keys all come out of the
      corrected completion with exactly the required keys: a uniform schema. */
  method CompletedSeriesShareSchema(plotKeys: set<string>, first: Data, second: Data, symbol: string)
    requires first != second
    requires Names(first.plots) <= plotKeys && Names(second.plots) <= plotKeys
    requires UniqueNames(first.plots) && UniqueNames(second.plots)
    modifies first`plots, second`plots
    ensures Names(first.plots) == Names(second.plots) == plotKeys
  {
    var t1 := AppendMissingPlotToData(plotKeys, first, symbol);
    var t2 := AppendMissingPlotToData(plotKeys, second, symbol);
  }

  // ---------------------------------------------------------------------------
  // getAggregatedDto

  /** getAggregatedDto: build the chart result from a chart configuration node and
      the series list. `fromValue` stands for ChartType.fromValue. Reading an
      absent drillChart or chartType throws NullPointerException; a filterKeys
      entry that is not an array fails its ArrayNode cast. */
  function GetAggregatedDto<ChartType>(chartNode: map<string, JsonNode>, dataList: seq<Data>, fromValue: string -> ChartType): (r: Outcome<AggregateDto<ChartType>>)
    ensures r.Ok? <==> DrillChart in chartNode && ChartTypeKey in chartNode && (FilterKeys in chartNode ==> chartNode[FilterKeys].JArray?)
    ensures r.Thrown? ==> r.exception == (if DrillChart in chartNode && ChartTypeKey in chartNode then ClassCast else NullPointer)
    ensures r.Ok? ==> r.value.drillDownChartId == AsText(chartNode[DrillChart])
    ensures r.Ok? ==> r.value.chartType == fromValue(AsText(chartNode[ChartTypeKey]))
    ensures r.Ok? ==> r.value.data == dataList
    ensures r.Ok? ==> (r.value.filter.Some? <==> FilterKeys in chartNode)
    ensures r.Ok? && FilterKeys in chartNode ==> r.value.filter.value == chartNode[FilterKeys].items
  {
    if DrillChart !in chartNode || ChartTypeKey !in chartNode then Thrown(NullPointer)
    else
      var dto := AggregateDto(AsText(chartNode[DrillChart]), fromValue(AsText(chartNode[ChartTypeKey])), None, dataList);
      if FilterKeys !in chartNode then Ok(dto)
      else
        match chartNode[FilterKeys]
        case JArray(keys) => Ok(dto.(filter := Some(keys)))
        case JText(_) => Thrown(ClassCast)
  }

  /** The result depends on the three keys it reads and on no other entry of the
      configuration node. */
  lemma GetAggregatedDtoReadsThreeKeys<ChartType>(chartNode: map<string, JsonNode>, key: string, node: JsonNode, dataList: seq<Data>, fromValue: string -> ChartType)
    requires key != DrillChart && key != ChartTypeKey && key != FilterKeys
    ensures GetAggregatedDto(chartNode[key := node], dataList, fromValue) == GetAggregatedDto(chartNode, dataList, fromValue)
  {
  }
}
