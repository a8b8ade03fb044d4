# wildFires-Dashboard: the filter compiler, the chart transformers and the filter helpers in Dafny

The wildfire dashboard is a React application over an ArcGIS feature layer.
The user picks states, forests, causes and a year range in a filter bar. The
application compiles the applied choices into one SQL `WHERE` text. Every
chart queries the layer with that text. Each chart then reshapes the returned
rows into ECharts options: a line chart per cause and year, a pie chart of the
largest groups, and a bar chart.

This project models that logic and proves what it does:

- `where_clause.dfy` (module `WhereClause`): `buildWhereFromConfig`.
  - `BuildWhere` is the loop that pushes clauses onto `parts`, and it is proved equal to the function `Where`.
  - Range filters test their bounds for JavaScript truthiness.
  - A set filter's value list is quoted as a whole, and a quoted list reads back to the values it came from.
- `line_chart.dfy` (module `LineChart`): the line chart's query callback.
  - `AccumulateRows` is the `for…of` loop that fills `seriesMap` and `yearSet`. It is proved against the sums `Total`, which are computed over the accepted rows.
  - `TransformLine` derives the sorted years and the zero-filled series, and merges them into the options.
- `pie_chart.dfy` (module `PieChart`): a stable sort by descending value, the top-N cut, and one slice per row.
- `bar_chart.dfy` (module `BarChart`): the x/y projection of the rows.
- `chart_options.dfy` (module `ChartOptions`):
  - the field-name defaults;
  - the shallow options merge that replaces only `xAxis.data` and `series`.
- `filters.dfy` (module `Filters`):
  - coded-domain extraction (a loop);
  - the distinct-value fallback;
  - the options record (a loop);
  - `codeToName` / `nameToCode`;
  - year-dropdown detection;
  - the selection state as a class `FilterPanel`, whose methods are the state updates of the component (choose, apply, reset).
- `multi_select.dfy` (module `MultiSelect`): `isChecked`, `toggleOpt` and the summary label of the multi-select dropdown.

Supporting modules model the JavaScript the code relies on:

- `values.dfy`: attribute values, `??`, `== null`, truthiness, object spread, `String()` and `Number()`.
- `strings.dfy`: `trim`, `join`, `split`, number printing and parsing, case folding.
- `collections.dfy`: `filter`, `new Set` first-seen order, and `Map`/object construction where the last write wins.
- `sorting.dfy`: the stable `Array.prototype.sort` over numeric keys, and the `Object.keys` order rule.
- `wrappers.dfy`: `Option`.

Values are modelled as integers. Strings are sequences of characters. A
query row is a map from field name to a scalar, where a missing field reads
as `undefined`.

### Behaviour of the code worth knowing

- The pie chart neither aggregates rows nor looks up labels. Each returned row becomes one slice, named by its raw group value.
- The distinct-value fallback of the filters is not sorted locally. It keeps the order in which the query returned the values; only the query asks for `ASC`.
- Range bounds are tested for truthiness, not for presence. A bound of `0` (or a code that is not a number, stored as `NaN`) counts as missing.
- The line chart's series come in `Object.keys(seriesMap)` order. Category names that are array indices (such as `"7"`) come first, in ascending numeric order; the other names follow in first-seen order. The same rule orders the configured `groupBy.categories` entries searched by `find`.
- Bar labels are the raw group values (`undefined` when the field is missing). No label is resolved.

## Model

| member | source | states |
|---|---|---|
| WhereClause.BuildWhere | src/App.tsx:27-58 | the loop over the filters yields exactly `Where`: the clauses joined by `AND`, or `1=1` |
| WhereClause.FilterClause | src/App.tsx:42-54 | the clause one filter pushes, if any, equals the filter's `ClauseOf` |
| WhereClause.RangeClause | src/App.tsx:46-48 | both bounds truthy gives `fld BETWEEN fr AND to`, only the lower bound `fld >= fr`, only the upper bound `fld <= to`; no clause exactly when neither bound is truthy |
| WhereClause.FalsyBoundIsMissing | src/App.tsx:46-48 | a bound of 0, NaN, null or a missing bound gives the same clause as an absent bound, on either side |
| WhereClause.CastOnlyRanges | src/App.tsx:45 | `castYearAsInt` never changes a list filter's clause; it makes a range filter use `CAST(field AS INT)` as its field |
| WhereClause.InClause | src/App.tsx:53-54 | a list filter adds a clause exactly when its selection is a non-empty code list, and that clause is `field IN (` the SQL list of the codes `)` |
| WhereClause.OtherKindsReadCause | src/App.tsx:52-54 | any list-filter type other than state and forest behaves as the cause filter; a clause appears exactly when the mapped selection is a non-empty list |
| WhereClause.ClausesInOrder | src/App.tsx:41-55 | the clauses of concatenated filter lists are the clauses of each part, in declared order |
| WhereClause.ClausesLength | src/App.tsx:46-54 | every emitted clause is longer than `1=1` |
| WhereClause.WhereTautology | src/App.tsx:57 | the result is `1=1` exactly when no filter produced a clause |
| WhereClause.ReadQuotedEscaped | src/App.tsx:38 | un-doubling the quotes of an escaped value, up to its closing quote, recovers the value exactly |
| WhereClause.ParseQuotedJoin | src/App.tsx:38 | a comma-joined list of quoted literals parses back to the original values |
| WhereClause.NumbersHaveNoComma | src/App.tsx:31-37 | no trimmed numeric-looking value contains a comma |
| WhereClause.SqlListReadsBack | src/App.tsx:34-39 | when every value is numeric-looking, splitting the list on commas gives the trimmed values; otherwise every value, numeric ones included, is quoted and the list reads back to the values |
| Strings.Trim | src/components/LineChart/LineChart.tsx:58 | the result is a slice of the input with only JavaScript white space removed before and after it, and it neither begins nor ends with white space |
| Strings.SplitJoin | src/App.tsx:37 | joining comma-free strings with a comma and splitting again gives the strings back |
| Strings.ParseIntToString | src/components/Filters/MultiSelectDropdown.tsx:33 | `Number(String(n)) == n` for every integer |
| Values.OrNumber | src/components/PieChart/PieChart.tsx:28 | `v ?? d` replaces exactly null and undefined by `d` and returns every other value unchanged |
| Values.SpreadOrEmpty | src/components/LineChart/LineChart.tsx:79 | `{...(v \|\| {})}` is empty for a falsy value and the object's own fields for an object |
| Collections.Distinct | src/components/Filters/Filters.tsx:63 | `Array.from(new Set(s))` holds exactly the elements of `s`, without repeats |
| Collections.DistinctFirstSeenOrder | src/components/Filters/Filters.tsx:63 | the distinct elements come in the order of their first occurrence |
| Collections.ToMap | src/components/Filters/Filters.tsx:72-73 | a key of the built record is present exactly when some pair writes it, and holds the value of the last such pair |
| Collections.LastWithAt | src/components/Filters/Filters.tsx:90 | the lookup of a key gives the value of its last pair |
| Sorting.SortBy | src/components/PieChart/PieChart.tsx:28 | sorting rearranges the elements: same length, same multiset |
| Sorting.SortAscending | src/components/LineChart/LineChart.tsx:76 | when every key is a number, the sorted sequence is in ascending key order |
| Sorting.SortStable | src/components/PieChart/PieChart.tsx:28 | elements with equal keys keep their relative order |
| Sorting.ObjectKeysPermutation | src/components/LineChart/LineChart.tsx:81 | `Object.keys` lists every key, each as often as it was created |
| Sorting.ObjectKeysCreationOrder | src/components/LineChart/LineChart.tsx:81 | without array-index keys, `Object.keys` is creation order |
| Sorting.ObjectKeysIndicesFirst | src/components/LineChart/LineChart.tsx:81 | array-index keys come first, in ascending numeric order, then the other keys |
| ChartOptions.FieldOr | src/components/LineChart/LineChart.tsx:46-48 | a configured field name is used when present and non-empty, else the default |
| ChartOptions.GroupField | src/components/PieChart/PieChart.tsx:26 | the group field is the first group-by field, else the empty name |
| ChartOptions.WithAxisData | src/components/LineChart/LineChart.tsx:78-79 | only `xAxis` changes: it keeps its other keys and gets `data` |
| ChartOptions.WithSeries | src/components/LineChart/LineChart.tsx:87 | only `series` changes, to the given list |
| ChartOptions.SingleSeries | src/components/PieChart/PieChart.tsx:32 | the one series keeps the first configured series' keys, except that `type` and `data` are replaced |
| LineChart.PointOfMeaning | src/components/LineChart/LineChart.tsx:54-70 | a row is skipped exactly when its year or category is null/undefined or its year trims to nothing; otherwise it contributes its trimmed year, its resolved category and its value (missing is 0) |
| LineChart.FindCategoryFirstMatch | src/components/LineChart/LineChart.tsx:64-65 | the category is that of the first entry whose codes contain the number; there is none exactly when no entry matches |
| LineChart.CategoryNamesMeaning | src/components/LineChart/LineChart.tsx:63-64 | the configured categories are searched once each, every configured name included |
| LineChart.CategoryEntriesCodes | src/components/LineChart/LineChart.tsx:63-64 | a category repeated in the configuration has the codes of its last occurrence |
| LineChart.AccumulateRows | src/components/LineChart/LineChart.tsx:50-74 | after the loop, `seriesMap[c][y]` (0 when absent) is the sum over the accepted rows of (c, y); the map's categories are those seen, and the year set is the distinct years seen in first-seen order |
| LineChart.AddAmountTotals | src/components/LineChart/LineChart.tsx:71-72 | adding one row's amount keeps every cell equal to the sum over the rows so far |
| LineChart.TotalAppend | src/components/LineChart/LineChart.tsx:72 | sums over two batches of rows add up |
| LineChart.TotalAbsent | src/components/LineChart/LineChart.tsx:84 | a (category, year) no row contributes to has the total 0, the zero fill |
| LineChart.YearsMeaning | src/components/LineChart/LineChart.tsx:73-76 | the x-axis years are distinct, are exactly the accepted years other than any case of `null`, and are ascending by numeric value when all are numbers |
| LineChart.SeriesNames | src/components/LineChart/LineChart.tsx:81 | one series per distinct category of the accepted rows, no repeats; in first-seen order when no category is an array index |
| LineChart.SeriesData | src/components/LineChart/LineChart.tsx:81-85 | every series has one value per year, aligned with the years, equal to that category's total for the year |
| LineChart.LineOptionsKeep | src/components/LineChart/LineChart.tsx:78-87 | the other option keys and the other `xAxis` keys are unchanged; `series` has one entry per series |
| LineChart.TransformLine | src/components/LineChart/LineChart.tsx:44-87 | the callback yields the sorted years, the series of the totals and the merged options |
| PieChart.Kept | src/components/PieChart/PieChart.tsx:29 | a positive `topLimit` keeps `min(topLimit, n)` rows; an absent, zero or negative one keeps all |
| PieChart.TransformPie | src/components/PieChart/PieChart.tsx:25-32 | the slices are the first `Kept` ranked rows, each mapped to a name/value slice; only `series` changes, to the first series with `type` pie and the slices |
| PieChart.RankedPermutation | src/components/PieChart/PieChart.tsx:28 | the ranking is a rearrangement of the returned rows |
| PieChart.RankedNonIncreasing | src/components/PieChart/PieChart.tsx:28 | with numeric values (missing is 0), the ranked rows are in non-increasing order of value |
| PieChart.RankedStable | src/components/PieChart/PieChart.tsx:28 | rows of equal value keep their relative order |
| PieChart.KeptDominateDropped | src/components/PieChart/PieChart.tsx:28-29 | every kept value is at least every dropped value |
| PieChart.SlicesAreRows | src/components/PieChart/PieChart.tsx:30 | every slice is one returned row with its raw group value and its value; nothing is merged or relabelled |
| BarChart.BarLabels | src/components/BarChart/BarChart.tsx:28 | one label per row, in row order: the row's raw group value, undefined when missing |
| BarChart.BarValues | src/components/BarChart/BarChart.tsx:29 | one value per row, in row order: the row's value, 0 when null or missing |
| BarChart.TransformBar | src/components/BarChart/BarChart.tsx:25-32 | only `xAxis.data` and `series` change; `series` is the first configured series with the values and `type` bar |
| Filters.YearDropdownIds | src/components/Filters/Filters.tsx:21-24 | an id is listed exactly when some dropdown with that id has a field name equal to `YEAR_` ignoring case |
| Filters.YearDropdownIsSingle | src/components/Filters/Filters.tsx:103-117 | a year dropdown never uses the multi-select |
| Filters.DomainLabels | src/components/Filters/Filters.tsx:40-43 | each coded value becomes the strings of its code and name, in order |
| Filters.ExtractDomains | src/components/Filters/Filters.tsx:36-45 | the loop records exactly the domains that the writes in field order leave |
| Filters.DomainPresent | src/components/Filters/Filters.tsx:37-44 | a field has a recorded domain exactly when some field of that name has a non-empty coded-value list |
| Filters.DomainOfLast | src/components/Filters/Filters.tsx:37-44 | the recorded domain is the labels of the last such field of that name |
| Filters.ListedValues | src/components/Filters/Filters.tsx:59-62 | the kept strings are exactly the strings of the row values that are not null, undefined or empty |
| Filters.ListedValuesAppend | src/components/Filters/Filters.tsx:59-62 | listing two batches of rows gives the first batch's values followed by the second's, so the values keep row order |
| Filters.ListedValuesOne | src/components/Filters/Filters.tsx:59-62 | a single row contributes its stringified value exactly when the value is not null, undefined or empty |
| Filters.DistinctOptionsMeaning | src/components/Filters/Filters.tsx:59-64 | the fallback options have code equal to name, distinct codes, exactly the kept values, in first-seen order |
| Filters.LoadOptions | src/components/Filters/Filters.tsx:47-65 | a recorded domain is used instead of the distinct query |
| Filters.OptionPairs | src/components/Filters/Filters.tsx:67-69 | one pair per dropdown, in order: its id and its loaded options |
| Filters.CollectOptions | src/components/Filters/Filters.tsx:72-73 | the loop builds the record of the pairs, the last write for an id winning |
| Filters.CollectedOptions | src/components/Filters/Filters.tsx:67-74 | a dropdown's options are those loaded for its field, when no later dropdown has its id |
| Filters.CodeToName | src/components/Filters/Filters.tsx:89-92 | same length and order; each code is looked up, falling back to itself |
| Filters.NameToCode | src/components/Filters/Filters.tsx:94-97 | same length and order; each name is looked up, falling back to itself |
| Filters.CodeToNameLastWins | src/components/Filters/Filters.tsx:90-91 | the last option with a code decides its name; an empty name falls back to the code |
| Filters.NameToCodeLastWins | src/components/Filters/Filters.tsx:95-96 | the last option with a name decides its code; an empty code falls back to the name |
| Filters.UnknownUnchanged | src/components/Filters/Filters.tsx:89-97 | a code or name no option has is returned unchanged |
| Filters.CodeNameRoundTrip | src/components/Filters/Filters.tsx:89-97 | with distinct non-empty codes and names, `nameToCode(codeToName(cs)) == cs` for known codes |
| Filters.NameCodeRoundTrip | src/components/Filters/Filters.tsx:89-97 | with distinct non-empty codes and names, `codeToName(nameToCode(ns)) == ns` for known names |
| Filters.SingleValue | src/components/Filters/Filters.tsx:134 | the empty choice is stored as null, an integer code as that number, and any other code as NaN |
| Filters.FilterPanel.constructor | src/components/Filters/Filters.tsx:18-19 | no options and no selection at first |
| Filters.FilterPanel.SetOptions | src/components/Filters/Filters.tsx:74 | the options are replaced; the selection is kept |
| Filters.FilterPanel.ShownNames | src/components/Filters/Filters.tsx:120 | the multi-select shows the names of the stored codes, and nothing when no list is stored |
| Filters.FilterPanel.ChooseNames | src/components/Filters/Filters.tsx:122-124 | the chosen names are stored under the key as their codes; nothing else changes |
| Filters.FilterPanel.ChooseValue | src/components/Filters/Filters.tsx:131-135 | a single select stores `null` or `Number(code)` under the key; nothing else changes |
| Filters.FilterPanel.Apply | src/components/Filters/Filters.tsx:82 | apply reports the current selection |
| Filters.FilterPanel.Reset | src/components/Filters/Filters.tsx:84-87 | reset empties the selection and reports the empty record; the options stay |
| Filters.ChosenNamesShown | src/components/Filters/Filters.tsx:118-124 | with one-to-one options, the names chosen in the multi-select are shown back unchanged |
| MultiSelect.Without | src/components/Filters/MultiSelectDropdown.tsx:25 | the filtered list holds exactly the other options and is no longer |
| MultiSelect.WithoutCounts | src/components/Filters/MultiSelectDropdown.tsx:25 | removal drops every occurrence of the option and keeps every other one as often as before |
| MultiSelect.ToggleRemoves | src/components/Filters/MultiSelectDropdown.tsx:25 | toggling a chosen option removes it and keeps the others in order |
| MultiSelect.ToggleFlips | src/components/Filters/MultiSelectDropdown.tsx:23-25 | a toggle flips the toggled option's membership and no other option's |
| MultiSelect.ToggleTwice | src/components/Filters/MultiSelectDropdown.tsx:25 | toggling an unchosen option twice restores the list |
| MultiSelect.ToggleAppends | src/components/Filters/MultiSelectDropdown.tsx:24-33 | toggling an unchosen option appends it after the chosen ones, which keep their order, so with two or more chosen the summary shows the same first two names and a count one higher |
| MultiSelect.Label | src/components/Filters/MultiSelectDropdown.tsx:29-34 | the placeholder for no choice, the comma-join for one or two, else the first two and `+n-2` |
| MultiSelect.LabelCountReadsBack | src/components/Filters/MultiSelectDropdown.tsx:33 | whatever the chosen names contain, the text after the summary's last `+` parses back to the number of names not shown |

## Left out

- The ArcGIS work (`loadModules`, `layer.load`, `createQuery`, `queryFeatures`) is I/O over a foreign library. The rows a query returns, a layer's fields and the rows of each distinct-value query are parameters of the model.
- The `where || initialFilter || "1=1"` choice of the query text, and the other query settings, are part of that query building and are left out with it.
- The `cancelled` flags and the effect lifecycle of React are asynchronous ordering, not sequential logic.
- `src/components/ChartBase/ChartBase.tsx` and `src/components/MapView/MapView.tsx` are UI and map-widget glue.
- The configuration `fetch`, the JSX rendering, the filter captions (`State`, `Forest`, …), the placeholder text, and the dropdown's `open` state and document listener are all UI.
- Floating point is not modelled. `Number()` is modelled only on integers. A string that is not an optionally signed integer literal (fractions, exponents, hexadecimal) gives `None`, which stands for NaN.
- LineChart.AccumulateRows: a row whose value is NaN adds 0 to its cell. In JavaScript the cell becomes NaN, and the next row for the same category and year reads it through `|| 0` as 0, so the sum restarts at that row's amount (amounts 5, NaN, 3 show 3, where the model shows 8). NaN reaches the chart only when the NaN row is the last one for its cell.
- Filters.SingleValue: a fractional option code is stored as NaN rather than as the fraction. A fraction is truthy in JavaScript, but the model's range clause then treats the bound as missing.
- Filters.FilterPanel.ShownNames: a number stored under a multi-select key shows no names. JavaScript would throw, because a number has no `map`.
- JavaScript's sort with a comparator that gives NaN is implementation-defined. The model's stable insertion sort treats such pairs as equal. This affects the pie ranking and the line chart's year order when a value or a year is not a number.
- PieChart.TransformPie: the source sorts the returned array in place. The model sorts a copy, so aliasing of the query's result array is not represented.
- The key order of the ECharts options objects is not modelled; they are maps. Object keys that collide with `Object.prototype` members (such as `constructor`) are treated as ordinary keys.
- MultiSelect.Label and MultiSelect.Toggle take `value` as a list. The `undefined` case, reached through `value?.includes` and `value || []`, does not arise in the component.
