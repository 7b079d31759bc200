# COVID-19 line chart: data preparation, modelled in Dafny

The repository draws line charts of the Dutch municipal COVID-19 case table
(columns `Datum`, `Gemeentenaam`, `Gemeentecode`, `Provincienaam`, `Aantal`,
one cumulative count per municipality and date). Before any drawing happens,
two scripts reshape the table in the browser:

- `JS/main.js` is the interactive chart. It:
  - drops rows without a municipality;
  - groups the records per city (`d3.nest`);
  - rolls each city up into its largest count (`max`) and its largest unclamped daily change (`maxNew`);
  - ranks the cities by `max`, descending, with JavaScript's stable sort;
  - selects the five best cities;
  - indexes every city by its rank (`cityIndex`);
  - derives the clamped daily-change series (`casesPerDay`) and the two y-axis bounds (`maxNumber`, `maxNew`).

  On top of that sits the legend. Its state is the list of selected cities, toggled by clicks and kept in rank order (`clickFilter`). The legend also has a search box (`citySearch`), and `cleanText` turns city names into element ids.
- `main.js` is the static chart. It ranks cities by the sum of their counts, takes the five best, and keeps the groups of the full nest that belong to them (`cityData`).

The model works on typed records. A date is an opaque ordered `int`, a count is an `int`.

Modules:
- `Wrappers`: an `Option` type; `d3.max` of nothing is `None`.
- `Seqs`: sequence helpers (`Take` is `slice(0, n)`; `FirstIndex`, `Sum`, `MaxOf`).
- `StableSort`: the stable sort by an integer key. Stability is defined as "for every key value, the entries with that value appear in the same order as in the input". A uniqueness lemma shows that any sorted, stable result is this one.
- `Ranking`: a stable sort of entries with distinct names keeps every name once.
- `Cases`: the CSV row mapper and the loader's omission of rows the mapper rejects.
- `CityNest`: `d3.nest().key(city).entries(data)`.
- `LinePlot`: the aggregates and ranking of `JS/main.js`, `casesPerDay`, the bounds and `cityIndex` (a method with a loop, as the source fills an object in a `forEach`).
- `Legend`: the class `LegendSelection`, whose `cities` field the method `Toggle` reassigns. It also holds the search predicate and a loop method for `citySearch`.
- `CleanText`: `cleanText`.
- `SumPlot`: the sum ranking and the `cityData` filter of `main.js`.

Two behaviours of the code worth knowing:
- The daily series clamps the first value too: a negative first count becomes 0 (JS/main.js:106-108).
- Only rows with an empty municipality are dropped (JS/main.js:10-18). Rows whose date or count cannot be parsed are kept, and the conversion yields NaN or null for them.

## Model

| member | source | states |
|---|---|---|
| Cases.MapRow | JS/main.js:10-18 | a row is kept exactly when its municipality is non-empty, and a kept row becomes the renamed record with the same field values; main.js:11-19 is the same mapper with capitalised field names |
| Cases.ReadRows | JS/main.js:7-19 | the loader yields at most one record per row, and every record it yields has a non-empty city |
| Cases.ReadRowsAt | JS/main.js:7-19 | the loaded records are, in order, the mapper's results at the kept row positions, which strictly increase |
| Cases.KeptPositionsComplete | JS/main.js:10-18 | every row with a non-empty municipality is among the kept positions |
| Cases.MaxNumber | JS/main.js:62 | `maxNumber` is absent exactly for empty data; otherwise it is at least every record's count and equals one of them |
| CityNest.Nest | JS/main.js:80-83 | the nest has at most one group per record, and is empty exactly when the data is |
| CityNest.NestKeys | JS/main.js:80-83 | group keys are distinct, are exactly the cities of the data, and are ordered by each city's first appearance |
| CityNest.NestValues | JS/main.js:80-83 | each group holds exactly the records of its city, in input order |
| CityNest.NestSize | JS/main.js:80-83 | group sizes add up to the number of records |
| CityNest.NestNonEmpty | JS/main.js:80-83 | no group is empty |
| CityNest.RecordInItsGroup | JS/main.js:80-83 | each record lies in the group keyed by its own city, and no two groups share a key |
| StableSort.SortBy | JS/main.js:59 | the result is ordered by the key, is a permutation of the input, and keeps equal-key entries in input order |
| StableSort.SortedStableUnique | JS/main.js:59 | two sequences that are both key-ordered and stable with respect to each other are equal |
| StableSort.StableSortIsSortBy | JS/main.js:59 | any key-ordered, stable rearrangement of the input is the model's sort result |
| StableSort.StableOrder | JS/main.js:59 | in a stable sort of distinct entries, two entries with equal keys keep their input order |
| Ranking.RankedNames | JS/main.js:66 | a permutation of entries with distinct names lists the same names, each once |
| LinePlot.Rollup | JS/main.js:46-57 | a city's `max` is at least every count of its group and equals one of them; its `maxNew` is at least every unclamped change and equals one of them |
| LinePlot.CityAgg | JS/main.js:43-59 | `cityAgg` has one rollup per group and is non-increasing in `max` |
| LinePlot.MaxNew | JS/main.js:63 | `maxNew` is absent exactly for empty data; otherwise it is at least every city's `maxNew` and equals one of them |
| LinePlot.ChangeBelowMaxNew | JS/main.js:50-63 | `maxNew` is at least every unclamped change of every city |
| LinePlot.MaxNewAttained | JS/main.js:50-63 | `maxNew` equals the unclamped change at some record of some city |
| LinePlot.AllCitiesPermutation | JS/main.js:43-66 | `allCities` has one entry per group, with no repeats, and contains exactly the cities of the data |
| LinePlot.AllCitiesRanked | JS/main.js:43-66 | `cityAgg` is non-increasing in `max`; cities with equal `max` are ordered by first appearance in the data |
| LinePlot.CityMaxIsLargestCount | JS/main.js:48 | each ranked city's `max` is the largest count among that city's records |
| LinePlot.Deltas | JS/main.js:105-113 | same length and dates as the group; every value is at least 0; the first value is the first count, or 0 when that count is negative; later values are the rise over the previous count, or 0 when the count fell |
| LinePlot.CasesPerDay | JS/main.js:101-115 | one series per group, with the same key, holding that group's daily changes |
| LinePlot.DeltasSumBack | JS/main.js:101-115 | the running total of the daily values is at least the cumulative count, and equals it when the counts never fall and start at or above 0 |
| LinePlot.DeltasExample | JS/main.js:105-108 | counts 10, 15, 13, 20 give daily values 10, 5, 0, 7 |
| LinePlot.DailyViewCovered | JS/main.js:50-63 | with non-negative counts, `maxNew` exists exactly when there is data and is at least every value plotted in the daily view |
| LinePlot.BuildCityIndex | JS/main.js:72-73 | `cityIndex` has exactly the cities of `allCities` as keys; each maps to that city's last position; with distinct cities, `cityIndex[allCities[i]] == i` |
| Seqs.Take | JS/main.js:69 | the default selection is the first min(5, n) entries of the ranking |
| Legend.LegendSelection.constructor | JS/main.js:66-73 | the legend starts from the ranking of the data, with its first five cities selected, in rank order and indexed |
| Legend.Without | JS/main.js:389 | removing a city keeps exactly the other cities and introduces no repeats |
| Legend.Reranked | JS/main.js:396 | sorting a repeat-free selection by `cityIndex` keeps its cities and lists them strictly ascending by rank |
| Legend.LegendSelection.Toggle | JS/main.js:387-396 | clicking city d flips d's membership and leaves every other city's membership alone; the selection stays repeat-free and in rank order |
| Legend.AscendingUnique | JS/main.js:396 | two rank-ordered selections with the same cities are equal |
| Legend.ToggleTwice | JS/main.js:387-396 | clicking the same city twice restores the selection exactly |
| Legend.UpperAscii | JS/main.js:421 | letters a-z become A-Z and every other character is unchanged |
| Legend.IndexOf | JS/main.js:438 | the result is -1 when the key does not occur; otherwise it is the first position where the key occurs |
| Legend.Shown | JS/main.js:438 | an entry can only match a query no longer than its name, and the empty query matches every entry |
| Legend.CitySearch | JS/main.js:419-444 | an entry is shown exactly when the upper-cased query occurs in its upper-cased name, and an empty query shows all entries |
| Legend.SearchNarrows | JS/main.js:438 | every entry shown for a longer query is also shown for each of its prefixes |
| CleanText.RemoveFirst | JS/main.js:520 | a string without the character is unchanged; otherwise exactly one character goes |
| CleanText.RemoveFirstCuts | JS/main.js:520 | `replace` with a one-character pattern cuts out the first occurrence and nothing else |
| CleanText.RemoveFirstCount | JS/main.js:524 | the result holds the same characters as the input, less one copy of the removed character |
| CleanText.CollapseWhitespace | JS/main.js:522 | the result is no longer than the input and contains no whitespace; input without whitespace is unchanged |
| CleanText.CollapseIsUnderscored | JS/main.js:522 | collapsing equals the character-by-character reference: the first whitespace character of each run becomes `_`, the rest of the run is dropped, other characters are copied |
| CleanText.CollapseExample | JS/main.js:522 | `a  b` (two spaces) becomes `a_b` |
| CleanText.CollapseKeepsText | JS/main.js:521-523 | collapsing whitespace runs changes nothing but whitespace and underscores |
| CleanText.CleanText | JS/main.js:518-527 | the id never contains a space, contains no whitespace at all when the name had a space, is never longer than the name, and equals the name when the name has no apostrophe, space or comma |
| CleanText.CleanTextKeepsText | JS/main.js:518-527 | apart from whitespace and underscores, the id is the name without its first apostrophe and its first comma |
| CleanText.CleanTextNotIdempotent | JS/main.js:520-524 | a second apostrophe survives one pass: `a''b` becomes `a'b`, and a second pass gives `ab` |
| SumPlot.TotalsAreSums | main.js:43-47 | each `nest` entry's value is the sum of the counts of its city's records |
| SumPlot.RankedTotals | main.js:43-47 | `nest` has one entry per group and is non-increasing in its sums |
| SumPlot.AllCitiesPermutation | main.js:43-53 | `allCities` has one entry per group, with no repeats, and contains exactly the cities of the data |
| SumPlot.AllCitiesRanked | main.js:43-53 | sums are non-increasing along `nest`; cities with equal sums are ordered by first appearance in the data |
| SumPlot.TopCitiesAreFirst | main.js:134 | `cities` holds min(5, n) distinct cities of the data |
| SumPlot.SelectedMembers | main.js:142 | the filter keeps exactly the groups whose key is among `cities` |
| SumPlot.SelectedInOrder | main.js:142 | the filter keeps the groups in their original relative order |
| SumPlot.CityData | main.js:137-142 | `cityData` holds exactly the groups of the full nest whose key is a top city, and never more groups than the nest |
| SumPlot.CityDataOrder | main.js:137-142 | `cityData` is in first-appearance order of the cities, not in ranking order |
| SumPlot.CityDataGroups | main.js:137-142 | every group of `cityData` belongs to a top city and holds all its records unchanged, and every top city has its group there |
| SumPlot.CityDataSize | main.js:134-142 | `cityData` has exactly min(5, n) groups |
| SumPlot.NoBetterCityLeftOut | main.js:134-142 | no city left out of `cityData` has a strictly larger sum of counts than a city drawn in it |

## Left out

- Loading the CSV (`d3.csv`, its promise and `main`) is I/O through a library. Only the rule that a row is skipped when the mapper returns nothing is modelled.
- Field conversion is left out. `d3.timeParse` parses dates in foreign code, and unary `+` produces floats or NaN. Records carry typed integers instead, so the NaN and null cases of malformed rows are not represented.
- All SVG work is left out: scales, `nice()`, axes, colours, transitions, opacity toggling, `translate` and the legend drawing. This is rendering and floating-point geometry.
- Legend.LegendSelection.Toggle: only cities of `allCities` can be toggled, and the click is modelled as always reaching the selection update (JS/main.js:387-396). In the code the opacity lookup before it (JS/main.js:376-384) can abort the click, leaving `cities` unchanged. This happens for the `"Mean"` entry, whose `.mean` elements exist only in commented-out code, so reading the style of the empty selection fails. It also happens for a city whose cleaned id is not a valid CSS id selector, such as one with parentheses or a dot, where `d3.select` rejects the selector. DOM and CSS selector parsing are not modelled.
- Legend.UpperAscii: `toUpperCase` is modelled on ASCII letters only. Full Unicode case mapping is a foreign call.
- Legend.CitySearch: the DOM reads and writes of `citySearch` become a query string in and one display flag per entry out.
- The commented-out mean and `yearsNest` code is not modelled, since it never runs.
- `latestDate` and `earliestDate` (`d3.max`/`d3.min` over dates) only feed the x scale, so they are left out with the scales.
