# Ledger dashboard data pipeline, in Dafny

This project models the data pipeline of a small browser dashboard for a financial
ledger (dashboard.js). The ledger is kept in a spreadsheet, and the dashboard works in
these steps:

- It fetches the sheet as an array of rows of loosely typed cells. The expected columns
  are Timestamp, Tipo, Categoria, Monto, Descripcion and Fecha.
- `parseRows` turns the rows into transaction records. A header row is dropped when its
  first cell contains "timestamp". An amount that does not parse becomes 0.
- `calcMonthly` adds up income ("Ingreso") and expenses ("Gasto") and computes the
  balance. It also builds a per-month net series, keyed by `YYYY-MM`, in ascending
  month order.
- `renderChart` keeps the trailing `range` months of that series.
- `numberWithCommas` inserts thousands separators into the amounts shown.
- The fetched rows are kept in a single cache slot, `cachedRows`. A change of range
  re-renders from that slot, and `refresh` clears it and fetches again.

Modules, one per component:

- `Wrappers` (wrappers.dfy): `Option` and `Result`.
- `Text` (text.dfy): ASCII lower-casing, `includes`, and the string order used by `sort`.
- `Rows` (rows.dfy): cells, transactions and `parseRows`.
- `Monthly` (monthly.dfy): the totals, month-key resolution and `calcMonthly`. `calcMonthly` is an
  imperative loop over a `map`, proved against reference functions.
- `ChartRange` (chart_range.dfy): `parseInt(…, 10) || 12` and the trailing slice.
- `Format` (format.dfy): the regex replace in `numberWithCommas`.
- `Dashboard` (dashboard.dfy): the `cachedRows` slot as a class, plus `fetchRows`,
  `loadAndRender`, `refresh` and `renderFromCache`.
- `LedgerExample` (examples_ledger.dfy): a four-row sheet worked through the parser and the aggregator.

Two browser builtins are parameters of the model, not computed by it:

- `parseFloat` on a text cell, a function `string -> Option<real>` where `None` is NaN.
- `new Date(c)` followed by `toISOString().substr(0, 7)`, a function
  `Cell -> Option<string>` where `None` is an invalid date.

The fetch result and the text of the range control are also parameters. `parseInt` is
modelled concretely: it skips the ECMAScript white space, reads an optional sign, then
reads the leading digits.

## Behaviour worth knowing

The model follows the code on three points where its behaviour is easy to misread:

- A row whose tipo is neither "Ingreso" nor "Gasto" is subtracted from its month: the
  `else` branch adds `-monto` (dashboard.js:71). Such a row counts in neither total, so
  the series and the totals drift apart (`Monthly.UnknownTipoSkewsSeries`).
- Only NaN and 0 fall back to the default range of 12 (dashboard.js:90). A negative
  range puts `start` past the end of the series, so nothing is selected
  (dashboard.js:92-93, `ChartRange.NegativeRangeShowsNothing`).
- A truthy `fecha` that is not text (a non-zero number, `true`) has no `substr`, so
  `m.substr(0, 7)` throws a TypeError (dashboard.js:68). The error aborts
  `calcMonthly`, and the model returns `Failure(TypeError(row))`.

## Model

| member | source | states |
|---|---|---|
| Text.Lower | dashboard.js:37 | `toLowerCase` keeps the length and maps each character on its own, lower-casing exactly the ASCII capitals |
| Text.IncludesMeaning | dashboard.js:37 | `includes` is true exactly when the needle occurs at some position of the string |
| Text.BelowTransitive | dashboard.js:75 | the code-unit string order used by `sort` is transitive |
| Text.BelowTotal | dashboard.js:75 | any two different strings are ordered one way round, so sorted keys are strictly ascending |
| Text.AscendingUnique | dashboard.js:75 | two strictly ascending key lists with the same elements are equal, so the sorted `labels` are determined by the set of month keys |
| Rows.Amount | dashboard.js:44 | the amount is never NaN; a numeric cell keeps its value; a text cell takes `parseFloat`'s value, or 0 when that is NaN; `true`, `null` and `undefined` give 0 |
| Rows.IsHeaderRow | dashboard.js:37 | only a text first cell at least as long as "timestamp" can mark a header; `Rows.HeaderRowMeaning` gives the exact condition |
| Rows.HeaderRowMeaning | dashboard.js:36-37 | a row is a header exactly when its first cell is text whose lower-case form contains "timestamp" at some position |
| Rows.HeaderIgnoresCase | dashboard.js:37 | two first cells with the same lower-case form are either both headers or both data |
| Rows.ParseRows | dashboard.js:32-48 | null or empty input gives `[]`; otherwise one record per row after an optional header, in order, each field taken from its fixed column 0–5 (`undefined` past the end of a short row) |
| Rows.HeaderDroppedExactly | dashboard.js:37-38 | exactly one row is lost when the first row is a header, and none otherwise |
| Rows.HeaderIsTransparent | dashboard.js:38-47 | putting a header in front of data rows does not change the parsed records |
| Rows.CapitalisedMarker | dashboard.js:37 | an example, with the text pinned to "Timestamp": that title, capitalised as in the sheet, lower-cases to the marker "timestamp" |
| Rows.MarkerCellIsHeader | dashboard.js:37 | a first cell that lower-cases to exactly "timestamp" makes the row a header |
| Rows.SpreadsheetHeaderRecognised | dashboard.js:31-37 | the sheet's own header row, starting with "Timestamp", is recognised |
| Monthly.OfKind | dashboard.js:52-53 | the filter keeps exactly the rows whose tipo is that text, and nothing else |
| Monthly.Ingresos | dashboard.js:52 | the sum of the "Ingreso" amounts; `Monthly.TotalsOfOneRow` and `Monthly.TotalsAppend` characterise it row by row |
| Monthly.Gastos | dashboard.js:53 | the sum of the "Gasto" amounts; `Monthly.TotalsOfOneRow` and `Monthly.TotalsAppend` characterise it row by row |
| Monthly.TotalsAppend | dashboard.js:52-53 | income and expense totals are additive over any split of the rows |
| Monthly.TotalsOfOneRow | dashboard.js:52-53 | a row adds its amount to income if its tipo is "Ingreso", to expenses if "Gasto", and to neither otherwise |
| Monthly.ResolveMonth | dashboard.js:57-69 | a truthy text `fecha` gives its first 7 characters (a prefix of it); a truthy non-text `fecha` throws; a falsy `fecha` gives the timestamp's month when that date is valid and no key otherwise |
| Monthly.NetOfMissingKey | dashboard.js:70-71 | a month that no row resolves to has net 0 |
| Monthly.Insert | dashboard.js:75 | inserting a new key into a strictly ascending list keeps it strictly ascending, with that key added |
| Monthly.SortKeys | dashboard.js:75 | sorting distinct keys gives a strictly ascending list with the same keys |
| Monthly.CalcMonthly | dashboard.js:51-79 | succeeds exactly when no row's month lookup throws, and otherwise fails at the first row that does. On success: income and expenses are the filtered sums, balance is their difference, `labels` are strictly ascending and are exactly the months some row resolves to, `values` has the same length and `values[i]` is the signed net of `labels[i]` |
| Monthly.DescribesUnique | dashboard.js:51-79 | the totals and the series are determined by the rows, so aggregating the same rows twice gives identical results |
| Monthly.EmptyAggregate | dashboard.js:51-79 | no rows give zero totals and an empty series |
| Monthly.SeriesAddsUpToKeyedNet | dashboard.js:70-76 | the series values add up to the signed net of all rows that have a month key |
| Monthly.KeyedNetIsBalance | dashboard.js:52-71 | when every row has a month key and is an "Ingreso" or a "Gasto", that net equals the balance |
| Monthly.UnknownTipoSkewsSeries | dashboard.js:52-71 | appending to any rows a keyed row whose tipo is neither "Ingreso" nor "Gasto" leaves both totals unchanged but lowers its month's net by its amount |
| ChartRange.ParseInt | dashboard.js:90 | blank text gives NaN; a number is read only when the text, after leading white space, starts with a digit or a sign; a negative result needs a leading "-" |
| ChartRange.ParseIntReadsDecimal | dashboard.js:90 | `parseInt` reads back the decimal text of any integer, ignoring the non-digit text after it |
| ChartRange.ParseIntSkipsSpace | dashboard.js:90 | leading white space does not change what `parseInt` reads |
| ChartRange.RangeOf | dashboard.js:90 | the range is never 0; NaN and 0 become 12, and any other parsed value is kept |
| ChartRange.SelectRange | dashboard.js:92-94 | keeps the last `min(range, length)` labels, or none for a negative range, and the values at the same positions |
| ChartRange.SelectForChart | dashboard.js:90-94 | the chart gets the last `n` labels, and the values at the same positions, where `n` is the range parsed from the control capped at the series length (0 when negative); it never gets more labels than the series has |
| ChartRange.NonNumericRangeShowsTwelve | dashboard.js:90-94 | text that is not a number, or is zero, shows the last twelve months |
| ChartRange.NegativeRangeShowsNothing | dashboard.js:90-94 | a negative range shows nothing |
| ChartRange.WideRangeKeepsAll | dashboard.js:92-94 | a range of at least the series length keeps the whole series |
| Format.GroupsAheadMeaning | dashboard.js:119 | the lookahead `(\d{3})+(?!\d)` holds exactly when the run of digits ahead is a non-empty multiple of three |
| Format.CommaPlacement | dashboard.js:119 | a comma is inserted only after a word character and before three digits |
| Format.NumberWithCommas | dashboard.js:118-120 | deleting the commas from the result gives back the input without its commas |
| Format.CommaAtIntegerPart | dashboard.js:119 | in `toFixed(2)` text the pattern matches inside the integer digits, exactly where a positive multiple of three digits remains |
| Format.GroupShape | dashboard.js:119 | three-from-the-right grouping of a digit string is well formed (one to three leading digits, then ",ddd" groups) and loses no digit |
| Format.GroupFromIsGroup | dashboard.js:119 | inserting a comma before every digit followed by a positive multiple of three digits is the same as grouping in threes from the right |
| Format.FixedTwoGrouping | dashboard.js:118-120 | on `toFixed(2)` text the result is the sign, the integer digits grouped in threes from the right, then the point and the two decimals unchanged |
| Format.FixedTwoFormatted | dashboard.js:118-120 | on `toFixed(2)` text, the integer part comes out in well-formed groups holding the same digits, and nothing after the point changes |
| Dashboard.Render | dashboard.js:126-129 | rendering rows parses them, aggregates them and slices the chart range; a throwing row yields the failure instead |
| Dashboard.RendersAcrossRanges | dashboard.js:126-129 | under two range texts the same rows give the same totals and series, or the same failing row; only the chart slice follows the range text |
| Dashboard.RendersUnique | dashboard.js:147-150 | two renders of the same rows are identical |
| Dashboard.RowCache.constructor | dashboard.js:5 | the slot starts out null |
| Dashboard.RowCache.Store | dashboard.js:21 | storing replaces the slot with the fetched rows |
| Dashboard.RowCache.Invalidate | dashboard.js:137 | invalidating sets the slot to null |
| Dashboard.RowCache.Get | dashboard.js:143-147 | reading the slot returns it and changes nothing |
| Dashboard.FetchRows | dashboard.js:15-28 | a successful fetch stores its rows and returns them; a failed one leaves the slot unchanged |
| Dashboard.LoadAndRender | dashboard.js:123-133 | after a successful fetch the fetched rows are cached and rendered; after a failed one the slot is unchanged and nothing is rendered |
| Dashboard.Refresh | dashboard.js:136-139 | refresh clears the slot and reloads; after a failed reload the slot stays null |
| Dashboard.RenderFromCache | dashboard.js:142-151 | with rows cached, renders them and leaves the slot unchanged; with none, behaves as a reload |
| Dashboard.RenderFromCacheTwice | dashboard.js:142-151 | two range changes over the same cached rows leave the cache unchanged, both succeed or both fail on the same row, show the same totals and month series, and each chart is the slice its own range text selects; the same range text twice gives identical renders |
| LedgerExample.SampleParsed | dashboard.js:32-48 | the sample sheet parses to three records with amounts 1000, 250 and 0 ("abc") |
| LedgerExample.SampleTotals | dashboard.js:52-54 | the sample has income 1000 and expenses 250 |
| LedgerExample.SampleMonths | dashboard.js:57-76 | the sample's months are 2024-01 and 2024-02, with nets 750 and 0 |

## Left out

- The network read (`fetch`, `resp.json`, dashboard.js:15-28) is an input to the model, `FetchOutcome`: either the decoded table of rows, or a failure. A JSON body that is not an array of arrays is not modelled. The model does not reproduce what the source would do with one: `parseRows` returns `[]` for an object, whose `length` is undefined. For a non-empty string it reads `rows[0][0]`, a one-character string, and then throws a TypeError at `dataRows.map`, because a string has no `map`.
- `console.error` and `alert` are diagnostics only. The DOM writes of `renderUI`, the Chart.js construction and destruction, and the `"$"` prefix (dashboard.js:82-86, 96-114) are a presentation sink and a foreign library.
- `toFixed(2)` is not computed. `numberWithCommas` is modelled on any string, and its properties are proved for text of the shape `toFixed(2)` gives below 1e21: a sign, digits, a point and two decimals.
- `logout`, `localStorage`, `window.location` and the `DOMContentLoaded` handler (dashboard.js:9-12, 154-161) belong to the browser session shell.
- Amounts are exact reals. IEEE rounding in `parseFloat` and in the sums is not modelled, and neither are infinite amounts (`parseFloat("Infinity")`). `parseFloat` on text and the date parsing are parameters, as described above.
- Rows.IsHeaderRow: `toLowerCase` is modelled on ASCII letters only. This is exact for the ASCII needle "timestamp", because the only non-ASCII characters that lower-case to ASCII are U+0130 (to "i" followed by U+0307) and the Kelvin sign (to "k"), and neither can complete that needle.
- Monthly.CalcMonthly: the month dictionary is modelled as an empty map. In the source it is a plain object, so a `fecha` starting with "valueOf" would find the inherited `Object.prototype.valueOf` there.
- `substr` and `sort` work on UTF-16 code units. The model works on Unicode scalar values, which orders strings differently only when characters outside the Basic Multilingual Plane are compared with U+E000–U+FFFF.
- The TypeError from a non-text `fecha` is caught in `loadAndRender`, but escapes `renderFromCache` to the event handler. Both are modelled as `CalcFailed`, with nothing rendered.
- Overlapping fetches and the order in which their responses arrive are not modelled. Every operation here runs to completion before the next one starts.
- ChartRange.ParseInt: a digit string too long for a double makes `parseInt` return ±Infinity, but the model keeps the exact integer. Both give the same selection: everything for a positive range, nothing for a negative one.
- ChartRange.SelectRange: the values slice is stated only when labels and values have the same length, which is always the case for the output of `calcMonthly`.
- ChartRange.SelectForChart: the same guard as `SelectRange`; both call sites (dashboard.js:129 and 150) pass the labels and values of one `calcMonthly` result.
