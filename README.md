# Chart response handler helpers

A Dafny model of the plot-list helpers that every chart response handler of the
dashboard analytics service inherits from `IResponseHandler`. A handler turns a
search aggregation into a chart result: a list of data series (`Data`), each a
list of named measurements (`Plot`: name, value, unit symbol). The helpers
modelled here append a computed percentage plot to a series, compute two-value
percentages, complete a series' plot keys, and assemble the chart result
(`AggregateDto`).

Files:

- `outcomes.dfy` (module `Outcomes`): the Java exceptions the helpers can throw,
  as an `Outcome` value (`Ok` or `Thrown`), and `Option`.
- `dto.dfy` (module `Dto`): `Plot` (a value), `Data` (a class whose plot list
  the handlers change in place), `AggregateDto`, the JSON configuration node, and
  the plot-name set and name-uniqueness predicate.
- `response_handler.dfy` (module `ResponseHandler`): the five helpers, the
  `Collectors.toMap` index they rely on, and the lemmas about them.

Exceptions are modelled, not excluded. `percentageValue` on a list of fewer than
two elements yields `Thrown(IndexOutOfBounds)`. `getPercentage` with an absent
key yields `Thrown(NullPointer)`. `toMap` on duplicate plot names yields
`Thrown(IllegalState)`. `addComputedField` absorbs every such failure into a 0.0
plot, as its `catch` block does. All three ratio computations share one zero-safe
rule, `ZeroSafePercentage`: part/whole*100, or 0.0 when either operand is
exactly zero.

`appendMissingPlot` is modelled as the code behaves, not as its comment says. It
removes the series' plot names from the caller's key set in place. It puts the
zero plots only into a local map, which the model returns as the method's result
so that its contents can be stated. The series itself is never changed, although
the helper's doc comment (line 134) says it adds the missing plots to the series.
Likewise the size guards of `percentageValue` (line 117) and `getPercentage`
(line 130) are evaluated only after the values they guard have been read. The
model follows the code in these places and records the differences under
"## Findings".

## Model

| member | source | states |
|---|---|---|
| ResponseHandler.ZeroSafePercentage | dashboard-analytics/src/main/java/com/tarento/analytics/handler/IResponseHandler.java:95-99 | the result is 0.0 exactly when an operand is 0.0, and otherwise result × whole = part × 100 |
| ResponseHandler.PercentageOfWholeIsBounded | dashboard-analytics/src/main/java/com/tarento/analytics/handler/IResponseHandler.java:98 | a derived fact, not one the source states: for a part between 0 and a positive whole, the percentage computed here lies between 0 and 100 |
| ResponseHandler.PlotIndex | dashboard-analytics/src/main/java/com/tarento/analytics/handler/IResponseHandler.java:93 | toMap by plot name succeeds exactly when names are unique, and otherwise throws IllegalStateException; on success its keys are the plot names and each name maps to its plot |
| ResponseHandler.TryComputedValue | dashboard-analytics/src/main/java/com/tarento/analytics/handler/IResponseHandler.java:92-101 | the try block succeeds only with unique names and the part present, and always succeeds when both operands are present; duplicates throw IllegalStateException |
| ResponseHandler.ComputedValue | dashboard-analytics/src/main/java/com/tarento/analytics/handler/IResponseHandler.java:91-106 | the appended value is non-zero only when names are unique and both operands are present |
| ResponseHandler.ComputedValueOfOperands | dashboard-analytics/src/main/java/com/tarento/analytics/handler/IResponseHandler.java:93-99 | with unique names and both operands present, the appended value is the zero-safe percentage of their values: part/whole*100, or 0.0 if either is zero |
| ResponseHandler.ComputedValueWithoutOperands | dashboard-analytics/src/main/java/com/tarento/analytics/handler/IResponseHandler.java:92-105 | a missing operand or a duplicated plot name gives 0.0, with no exception propagated |
| ResponseHandler.AddComputedField | dashboard-analytics/src/main/java/com/tarento/analytics/handler/IResponseHandler.java:91-107 | the series gains exactly one plot, at the end, named newfield with symbol "percentage" and the computed value; earlier plots are unchanged, even when newfield already exists |
| ResponseHandler.DuplicateFieldZeroesLaterFields | dashboard-analytics/src/main/java/com/tarento/analytics/handler/IResponseHandler.java:93-104 | appending a field under an existing name makes the names non-unique, so all later computed fields on that series are 0.0 |
| ResponseHandler.PercentageValue | dashboard-analytics/src/main/java/com/tarento/analytics/handler/IResponseHandler.java:115-118 | throws IndexOutOfBoundsException exactly when there are fewer than two elements; otherwise the result is 0.0 exactly when values[0] or values[1] is 0.0, and result × values[1] = values[0] × 100 |
| ResponseHandler.PercentageValueIgnoresTail | dashboard-analytics/src/main/java/com/tarento/analytics/handler/IResponseHandler.java:116 | elements after the second do not change the result |
| ResponseHandler.PercentageValueExamples | dashboard-analytics/src/main/java/com/tarento/analytics/handler/IResponseHandler.java:115-118 | percentageValue([50.0, 200.0]) is 25.0 and percentageValue([0.0, 10.0]) is 0.0 |
| ResponseHandler.PercentageValueSafe | dashboard-analytics/src/main/java/com/tarento/analytics/handler/IResponseHandler.java:117 | corrected percentageValue: 0.0 below two elements, and otherwise equal to percentageValue |
| ResponseHandler.PercentageValueShortListThrows | dashboard-analytics/src/main/java/com/tarento/analytics/handler/IResponseHandler.java:116-117 | percentageValue([10.0]) throws, while the corrected version gives 0.0 |
| ResponseHandler.GetPercentage | dashboard-analytics/src/main/java/com/tarento/analytics/handler/IResponseHandler.java:127-131 | throws NullPointerException exactly when a key is absent; gives 0.0 for a map of at most one entry; otherwise gives 0.0 exactly when a value is 0.0, and result × whole = part × 100 |
| ResponseHandler.GetPercentageIsPercentageValue | dashboard-analytics/src/main/java/com/tarento/analytics/handler/IResponseHandler.java:115-131 | for distinct keys, getPercentage equals percentageValue of the two values |
| ResponseHandler.GetPercentageOfItself | dashboard-analytics/src/main/java/com/tarento/analytics/handler/IResponseHandler.java:130 | a field as a percentage of itself is 100 when its value is non-zero and the map has two or more entries, and 0.0 otherwise (a zero value, or a one-entry map) |
| ResponseHandler.GetPercentageSafe | dashboard-analytics/src/main/java/com/tarento/analytics/handler/IResponseHandler.java:130 | corrected getPercentage: 0.0 for a map of fewer than two entries, and otherwise equal to getPercentage |
| ResponseHandler.GetPercentageSmallMapThrows | dashboard-analytics/src/main/java/com/tarento/analytics/handler/IResponseHandler.java:129-130 | getPercentage on an empty map, or on a one-entry map lacking a key, throws, while the corrected version gives 0.0 |
| ResponseHandler.PutZeroPlots | dashboard-analytics/src/main/java/com/tarento/analytics/handler/IResponseHandler.java:143-145 | the map gains a zero plot with the given symbol under every key, and its other entries are kept |
| ResponseHandler.AppendMissingPlot | dashboard-analytics/src/main/java/com/tarento/analytics/handler/IResponseHandler.java:139-147 | duplicate names throw before anything changes; otherwise the key set becomes old keys minus plot names, and the local map holds every plot by name plus a zero plot for every missing key; the series is never changed |
| ResponseHandler.AppendMissingPlotTwice | dashboard-analytics/src/main/java/com/tarento/analytics/handler/IResponseHandler.java:141-142 | a second call with the same set and series changes nothing more: same key set, same local map |
| ResponseHandler.AppendMissingPlotSharedKeys | dashboard-analytics/src/main/java/com/tarento/analytics/handler/IResponseHandler.java:141-145 | for keys {total, open, closed}, series [open] then [total]: the first series stays [open], the second local map lacks "open", and only {closed} remains in the set |
| ResponseHandler.AppendMissingPlotToData | dashboard-analytics/src/main/java/com/tarento/analytics/handler/IResponseHandler.java:133-139 | corrected appendMissingPlot: appends a zero plot for each missing key after the existing plots; names stay unique and become old names plus the required keys; the caller's set is untouched |
| ResponseHandler.CompletedSeriesShareSchema | dashboard-analytics/src/main/java/com/tarento/analytics/handler/IResponseHandler.java:133-139 | series whose names lie within the required keys all end with exactly those keys as their plot names |
| ResponseHandler.GetAggregatedDto | dashboard-analytics/src/main/java/com/tarento/analytics/handler/IResponseHandler.java:71-80 | succeeds exactly when drillChart and chartType are present and any filterKeys is an array; copies drillChart, sets chartType to fromValue of the text, attaches the given list, and sets filter only when filterKeys is present |
| ResponseHandler.GetAggregatedDtoReadsThreeKeys | dashboard-analytics/src/main/java/com/tarento/analytics/handler/IResponseHandler.java:73-78 | entries of the configuration other than drillChart, chartType and filterKeys do not affect the result |

## Left out

- `translate` (line 62) is abstract, and no handler implementation is part of this model. The aggregation tree walk, the ranking and the limit it performs are therefore not modelled.
- Values are `real`, not IEEE-754 doubles. NaN, infinities, -0.0 and rounding are not modelled, and a division happens only when the guard has ruled out a zero divisor. In Java the divisions at lines 98, 116 and 129 cannot throw.
- The parallel stream at line 93 is modelled sequentially. Its result, including the failure on a duplicate name, is the same.
- Logging and `printStackTrace` (line 103) are not modelled, and neither are the constants at lines 27-52 other than the three configuration keys `getAggregatedDto` reads.
- JSON nodes are reduced to a text value or an array of strings. `asText` of an array is the empty string. Other node kinds (numbers, JSON null) are not modelled.
- GetAggregatedDto: `ChartType.fromValue` is not part of this model. It is a function parameter whose result is stored as it is, so a failure it may raise for an unknown chart type is not modelled.
- Null references are not modelled: a null plot list, null plot values, null names and null list elements. Plot values are assumed to be non-null numbers.
- `Plot`, `Data` and `AggregateDto` are not part of this model beyond the fields used here. `Data` carries only a series label and its plot list.

## Findings

| source | as written | input that shows it | evidently intended | confidence | as-written member | corrected member |
|---|---|---|---|---|---|---|
| dashboard-analytics/src/main/java/com/tarento/analytics/handler/IResponseHandler.java:115-118 | both elements are read at line 116, before the size guard at line 117, so a short list throws IndexOutOfBoundsException | `[10.0]` | 0.0 for a list of fewer than two elements, as the `size() > 1` guard says | high; not executed | ResponseHandler.PercentageValueShortListThrows | ResponseHandler.PercentageValueSafe |
| dashboard-analytics/src/main/java/com/tarento/analytics/handler/IResponseHandler.java:127-131 | both map values are unboxed at line 129, before the size guard at line 130, so a missing key throws NullPointerException even in a map the guard would reject | empty map, or map {total: 5.0} with part "open" and whole "total" | 0.0 for a map of fewer than two entries, as the `size() > 1` guard says | medium; not executed | ResponseHandler.GetPercentageSmallMapThrows | ResponseHandler.GetPercentageSafe |
| dashboard-analytics/src/main/java/com/tarento/analytics/handler/IResponseHandler.java:139-147 | zero plots go only into a local map that is dropped, and the series' names are removed from the caller's key set | keys {total, open, closed}; series [open 5.0], then series [total 3.0] | append a zero plot to the series for each missing key, as the doc comment at line 134 says, and keep the key set for the next series | medium; not executed | ResponseHandler.AppendMissingPlotSharedKeys | ResponseHandler.AppendMissingPlotToData |
