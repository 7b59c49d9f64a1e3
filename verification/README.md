# Procurement savings dashboard — a Dafny model of its data core

The dashboard reads a procurement file of supply lines. Each line has a
product, FOB price, pack size, origin, landed cost and weekly volume. For
every data line it derives a savings opportunity against a target supplier
at a fixed 30% markdown. It totals annual spend and savings, keeps the valid
opportunities for the table, and charts the five largest savings. Two
client-side tables show rows sorted by a clickable column.

This project models that core as pure Dafny functions and proves what they
guarantee:

- `CsvLine` — `parseCSVLine`: a scanner over one line. A double quote
  toggles an "inside quotes" flag and is never copied. A comma outside quotes
  ends a field. Every field is then trimmed and loses one surrounding quote.
  `ParseCsvLine` is the loop as written, proved equal to the functional fold.
- `Text` — the JavaScript string built-ins the core relies on: `trim`,
  `split` on one character, `indexOf`, and `replace` with a string pattern
  (first occurrence only).
- `Seqs` — `map`, `filter`, and the order-preserving subsequence relation.
- `Sorting` — `Array.prototype.sort` on a copy: a stable sort driven by a
  comparator, with the comparator laws it needs.
- `SortControl` — the sort state `{key, direction}` shared by both tables,
  `requestSort`, and the `sortedItems` comparator. Column values are ordered
  the way JavaScript's `<` orders numbers and strings.
- `OpportunityTable`, `ProcurementDashboard` — the two records, their
  columns and initial sort states, and the two `sortedItems` views.
- `Page` — `getData`: line splitting, blank-line filter, row derivation,
  totals, the validity filter, the top five and the chart points.

`parseFloat` is a parameter of type `string -> Option<real>`, where `None`
stands for NaN. The file is an `Option<string>`, where `None` means the file
does not exist.

Two behaviours of the code are worth knowing:

- The chart label removes the first `"BANANA, "` and then the first
  `"APPLE, "` wherever they occur, then keeps the text before the first
  space. The removal is case-sensitive, so `"Banana, Cavendish"` is labelled
  `"Banana,"` (`Page.LabelIsCaseSensitive`).
- The totals include every data row, even rows the validity filter then
  drops (`Page.RejectedRowStillCounts`).

## Model

| member | source | states |
|---|---|---|
| `Text.Trim` | app/page.tsx:38 | the trimmed string is the infix of the input between its leading and trailing whitespace; only whitespace lies outside it, and a non-empty result neither starts nor ends with whitespace |
| `Text.TrimEmptyIffBlank` | app/page.tsx:16 | `row.trim() !== ''` holds exactly when the row has a non-whitespace character |
| `Text.TrimKeepsTrimmed` | app/page.tsx:38 | trimming leaves a string alone when neither end is whitespace |
| `Text.Split` | app/page.tsx:16 | splitting on one character yields one more piece than there are separators, no piece holds the separator, and joining the pieces with it gives back the input |
| `Text.JoinInjective` | app/page.tsx:16 | two separator-free decompositions of the same string are equal, so the split is the unique one |
| `Text.FirstToken` | app/page.tsx:87 | `split(' ')[0]` is the longest space-free prefix: it is a prefix, holds no space, and is followed by a space or the end |
| `Text.FirstTokenIsPrefix` | app/page.tsx:87 | a space-free prefix followed by a space or the end is the first token |
| `Text.IndexOfFrom` | app/page.tsx:87 | the result is the first position at or after `from` where the pattern occurs, or none when it occurs nowhere there |
| `Text.RemoveFirst` | app/page.tsx:87 | `replace(pattern, '')` with a string pattern removes exactly the first occurrence, wherever it is, and changes nothing when the pattern is absent |
| `Text.MissingCharMeansNoMatch` | app/page.tsx:87 | a pattern with a character the string lacks does not occur in it |
| `Text.FirstMatchAt` | app/page.tsx:87 | an occurrence with none before it is the one `indexOf` finds |
| `Seqs.Filter` | app/page.tsx:81 | filtering keeps every element that passes, as many times as it occurs, drops every element that fails, and keeps the relative order |
| `Seqs.FilterSnoc` | app/page.tsx:81 | appending an element extends the filtered sequence by that element exactly when it passes |
| `Seqs.Map` | app/page.tsx:44 | `map`: the result has one element per input element, the callback applied to the element at the same position |
| `Seqs.MapSnoc` | app/page.tsx:44 | mapping commutes with appending an element |
| `CsvLine.Step` | app/page.tsx:25-33 | one character: a quote flips the flag and changes nothing else; a comma outside quotes pushes the current field and starts an empty one; any other character is appended to the current field |
| `CsvLine.StripQuotes` | app/page.tsx:38 | the quote-stripping `replace` removes exactly a leading quote when there is one and a trailing quote when there is one (either alone or both), and nothing else |
| `CsvLine.Run` | app/page.tsx:24-34 | the loop: `Step` applied to the characters of the line from left to right |
| `CsvLine.Scan` | app/page.tsx:20-34 | the loop run over the whole line from no fields, an empty current field and the quote flag off |
| `CsvLine.RawFields` | app/page.tsx:35 | the fields the loop finished, followed by the current field pushed after the loop |
| `CsvLine.Clean` | app/page.tsx:38 | the per-field clean-up: `trim`, then the quote strip |
| `CsvLine.ParseLine` | app/page.tsx:19-39 | a line has one field per comma outside quotes, plus one, and no field holds a double quote |
| `CsvLine.ParseCsvLine` | app/page.tsx:19-39 | the loop over mutable `result`, `current` and `inQuote` computes the same fields as the functional scanner |
| `CsvLine.ScanQuoteParity` | app/page.tsx:26-27 | after the loop the quote flag is set exactly when the line has an odd number of double quotes |
| `CsvLine.ScanFieldCount` | app/page.tsx:28-30 | the loop finishes one field for every comma preceded by an even number of quotes |
| `CsvLine.ScanHasNoQuotes` | app/page.tsx:26-33 | quotes only toggle the flag, so neither the finished fields nor the current one receive a quote |
| `CsvLine.RawFieldsJoinToUnquoted` | app/page.tsx:24-35 | only quotes are lost: the raw fields joined with commas give back the line without its quotes |
| `CsvLine.CleanWithoutQuotes` | app/page.tsx:38 | for a quote-free field the clean-up is exactly `trim` |
| `CsvLine.QuoteFreeRawFieldsAreSplit` | app/page.tsx:24-35 | on a line without quotes the raw fields are the comma split of the line |
| `CsvLine.QuoteFreeLineIsTrimmedSplit` | app/page.tsx:19-39 | on a line without quotes `parseCSVLine` is the comma split with every piece trimmed |
| `CsvLine.RunAppend` | app/page.tsx:24-34 | scanning a concatenation scans the second part from the state the first part leaves |
| `CsvLine.QuotedText` | app/page.tsx:26-33 | quoted text, commas included, is appended to the current field without its quotes |
| `CsvLine.QuotedFirstField` | app/page.tsx:19-39 | a quoted first field keeps its commas and loses its quotes, and the rest of the line parses as if it stood alone |
| `CsvLine.QuotedCommaStaysInField` | app/page.tsx:37-38 | `"Product, Special",…` gives the first field `Product, Special` followed by the fields of the rest |
| `Page.ColumnAt` | app/page.tsx:56-58 | `columns[i]` is the i-th field when the row has one and `undefined` otherwise |
| `Page.NumberOrZero` | app/page.tsx:57-58 | the number of a field is what `parseFloat` gives, or 0 when the field is absent or does not parse |
| `Page.DataLines` | app/page.tsx:44 | `rows.slice(1)` drops the header line and keeps every later line in order |
| `Page.DeriveColumns` | app/page.tsx:56-80 | a row takes its product from column 0 and its cost and volume from columns 4 and 5 (0 when absent or unparsable); spend is cost × volume × 52, the target price is 70% of cost, savings per case 30% of cost, annual savings 30% of spend, spread 30, and the suppliers are GenPro and Sumifru Philippines |
| `Page.TotalSpend` | app/page.tsx:68 | `totalSpend`: the annual spend of every data row, added up in row order |
| `Page.TotalSavings` | app/page.tsx:69 | `totalSavings`: the annual savings of every data row, added up in row order |
| `Page.DeriveRow` | app/page.tsx:46-80 | one data line: `parseCSVLine` of the line, then the mapping callback over its columns |
| `Page.DeriveRows` | app/page.tsx:44-80 | the mapping over the data lines: one derived row per line, in line order |
| `Page.SavingsAreThirtyPercentOfSpend` | app/page.tsx:60-69 | summed over the rows, total savings are 30% of total spend |
| `Page.UnparsableVolumeKeepsRow` | app/page.tsx:57-58 | a row whose volume does not parse is kept when its product and positive cost allow, with zero annual savings |
| `Page.UnparsablePriceDropsRow` | app/page.tsx:57 | a row whose landed cost is missing or does not parse is dropped by the filter |
| `Page.BananaRowFigures` | app/page.tsx:56-69 | a row at cost 2.00 and volume 1000 has spend 104000, annual savings 31200, target price 1.40 and savings per case 0.60 |
| `Page.IsValid` | app/page.tsx:81 | the filter's test: a non-empty product, other than `Product`, with a positive cost |
| `Page.Items` | app/page.tsx:81 | `items` are the opportunities with a product other than `Product` and a positive cost, each as often as among the rows, in row order |
| `Page.RejectedRowAppended` | app/page.tsx:68-81 | a row that fails the filter leaves `items` unchanged but still adds its spend and savings to the totals |
| `Page.RejectedRowStillCounts` | app/page.tsx:41-81 | appending a data line whose row fails the filter leaves the page's items unchanged and adds the row's spend and savings to the page totals |
| `Page.ItemsAreValidDataRowsInOrder` | app/page.tsx:44-81 | the page's items are the valid rows, each as often as it occurs and in order, among one row per non-blank line after the header |
| `Page.BySavingsDesc` | app/page.tsx:84 | the chart comparator: the sign of `b.annualSavings - a.annualSavings` |
| `Page.BySavingsDescIsComparator` | app/page.tsx:84 | `b.annualSavings - a.annualSavings` is a consistent comparator: its signs are antisymmetric and "not after" is transitive |
| `Page.SortedPrefixDominates` | app/page.tsx:84 | once sorted by that comparator, savings never increase along the sequence, and nothing after a cut has more savings than anything before it |
| `Page.TopItems` | app/page.tsx:84 | the top items are `min(5, n)` of the items, drawn from them, by non-increasing savings, and no item left out has more savings than one kept |
| `Page.TopItemsKeepTieOrder` | app/page.tsx:84 | among the top items, items with equal savings appear in their order in `items` |
| `Page.Label` | app/page.tsx:87 | a chart label never contains a space |
| `Page.LabelDropsBrand` | app/page.tsx:87 | after a leading `BANANA, ` the label is the next word |
| `Page.LabelRemovesInnerMatch` | app/page.tsx:87 | `APPLE, ` is removed even in the middle of the name, so the label is the word before it |
| `Page.LabelIsCaseSensitive` | app/page.tsx:87 | a mixed-case `Banana, ` is not removed, so the label is `Banana,` |
| `Page.ChartPointOf` | app/page.tsx:87-89 | one chart point: the item's label, `current` as its savings divided by 0.30, and `optimized` as 70% of `current` |
| `Page.ChartPointReconstructsSpend` | app/page.tsx:88-89 | a chart point's `current` is the row's annual spend recovered from the savings, and `optimized` is 70% of it |
| `Page.ChartData` | app/page.tsx:86-90 | point i comes from the i-th top item: its name is that item's label and its `current` is the item's savings divided by 0.30; there are `min(5, n)` points, `current` does not increase, and `optimized` is 70% of `current` |
| `Page.DerivedRowsFollowRatios` | app/page.tsx:44-80 | every derived row follows the fixed ratios |
| `Page.ItemComesFromRow` | app/page.tsx:44-81 | every item is the opportunity of some data row |
| `Page.ChartPointIsSpend` | app/page.tsx:44-89 | the chart point of any item shows as its `current` bar the annual spend of a data row whose opportunity that item is |
| `Page.ChartPointsAreSpends` | app/page.tsx:44-89 | every `current` bar of the chart is the annual spend of the data row behind the matching top item |
| `Page.BuildChartShowsSpend` | app/page.tsx:44-90 | the same holds for the chart built from the file's lines |
| `Page.ChartShowsAnnualSpend` | app/page.tsx:8-93 | each bar of the page's chart shows the annual spend of the data row behind the matching top item |
| `Page.NonBlankLines` | app/page.tsx:16 | the lines kept are the lines of the file that are not all whitespace, each as often as in the file, in file order |
| `Page.Build` | app/page.tsx:41-92 | everything after the read: the rows derived from the lines after the header, then the page figures for them |
| `Page.Assemble` | app/page.tsx:68-92 | the page figures for the derived rows: the valid items, both totals over all rows, and the chart of the items |
| `Page.BuildKeepsInvariants` | app/page.tsx:41-92 | every item is valid and follows the fixed ratios, and total savings are 30% of total spend |
| `Page.GetData` | app/page.tsx:8-93 | a missing file gives empty items, zero totals and no chart; otherwise the items are valid and follow the ratios, savings are 30% of spend, and the chart has `min(5, n)` points, point i labelled from the i-th top item with `current` equal to that item's savings divided by 0.30, in non-increasing order |
| `SortControl.RequestSort` | components/opportunity-table.tsx:34-40 | the new state is on the clicked column, and it is descending exactly when the old state was that column ascending |
| `SortControl.RequestSortTwice` | components/opportunity-table.tsx:34-40 | two clicks on a column end descending unless the first click found it already ascending |
| `SortControl.RequestSortAlternates` | components/opportunity-table.tsx:34-40 | each further click on the same column flips the direction |
| `SortControl.StrLess` | components/opportunity-table.tsx:29-30 | JavaScript's `<` on strings: lexicographic by character, with a proper prefix first |
| `SortControl.KeyLess` | components/opportunity-table.tsx:29-30 | JavaScript's `<` on column values: numbers by value, strings by `StrLess` |
| `SortControl.StrLessIrreflexive` | components/opportunity-table.tsx:29-30 | no string is less than itself |
| `SortControl.StrLessAsymmetric` | components/opportunity-table.tsx:29-30 | of two strings at most one is less than the other |
| `SortControl.StrLessTransitive` | components/opportunity-table.tsx:29-30 | string order is transitive |
| `SortControl.StrLessTotal` | components/opportunity-table.tsx:29-30 | two different strings are ordered one way or the other |
| `SortControl.KeyLessIsStrictTotalOrder` | components/opportunity-table.tsx:29-31 | column values are strictly and totally ordered, so the comparator returns 0 only for equal values |
| `SortControl.Compare` | components/opportunity-table.tsx:25-32 | the comparator returns -1, 0 or 1; 0 with no sort state or for equal values; otherwise -1 when `a` comes first in the chosen direction and 1 when `b` does |
| `SortControl.CompareAntisymmetric` | components/opportunity-table.tsx:29-30 | swapping the two rows negates the comparison |
| `SortControl.CompareIsComparator` | components/opportunity-table.tsx:25-32 | the table comparator satisfies the laws a sort needs |
| `SortControl.SortedMeansOrderedByKey` | components/opportunity-table.tsx:29-30 | a sequence sorted by the comparator is non-decreasing in the column when ascending and non-increasing when descending |
| `SortControl.UnsortedViewIsIdentity` | components/opportunity-table.tsx:26 | with no sort state every pair compares level, so the sorted copy equals the input |
| `SortControl.SortedView` | components/opportunity-table.tsx:25-32 | `sortedItems` is a permutation of the rows, ordered by the chosen column in the chosen direction, and the input itself when there is no sort state |
| `SortControl.TiesAreEqualKeys` | components/opportunity-table.tsx:31 | the rows the comparator ties with a row are those with the same column value |
| `SortControl.SortedViewIsStable` | components/opportunity-table.tsx:25-32 | rows with equal values in the sort column keep their input order |
| `Sorting.Insert` | components/opportunity-table.tsx:25 | insertion adds exactly the one element |
| `Sorting.InsertKeepsSorted` | components/opportunity-table.tsx:25 | inserting into a sorted sequence keeps it sorted |
| `Sorting.Sort` | components/opportunity-table.tsx:25 | the sort returns a permutation of its input in which no element follows one the comparator puts after it |
| `Sorting.InsertTies` | components/opportunity-table.tsx:25 | inserting an element puts it in front of the old elements it ties with |
| `Sorting.SortIsStable` | components/opportunity-table.tsx:25 | elements that compare equal keep their input order |
| `Sorting.TiesOfPrefix` | app/page.tsx:84 | the ties within a prefix are a prefix of all the ties |
| `OpportunityTable.Field` | components/opportunity-table.tsx:27-28 | `a[sortConfig.key]`: the value of the chosen column, a number or a string by the column's type |
| `OpportunityTable.InitialSort` | components/opportunity-table.tsx:23 | the table starts sorted on annual savings, descending |
| `OpportunityTable.RequestSort` | components/opportunity-table.tsx:34-40 | the table's click handler switches to the clicked column, descending only after an ascending sort on that same column |
| `OpportunityTable.FirstClickOnSavingsAscends` | components/opportunity-table.tsx:23-38 | since the table starts on annual savings descending, the first click on that column sorts it ascending |
| `OpportunityTable.SortedItems` | components/opportunity-table.tsx:25-32 | the table shows a permutation of the opportunities, ordered by the chosen column in the chosen direction |
| `OpportunityTable.InitialViewBySavingsDescending` | components/opportunity-table.tsx:23-32 | as first shown, the table lists the largest annual savings first |
| `OpportunityTable.ProductColumnIsLexicographic` | components/opportunity-table.tsx:27-30 | sorted ascending by product, the names are in lexicographic order |
| `OpportunityTable.SortedItemsAreStable` | components/opportunity-table.tsx:25-32 | opportunities with equal values in the sort column keep their input order |
| `ProcurementDashboard.Field` | components/procurement-dashboard.tsx:27-28 | `a[sortConfig.key]`: the value of the chosen column, with the FOB price and pack size as strings |
| `ProcurementDashboard.InitialSort` | components/procurement-dashboard.tsx:21 | the dashboard starts sorted on potential savings, descending |
| `ProcurementDashboard.RequestSort` | components/procurement-dashboard.tsx:35-41 | the dashboard's click handler switches to the clicked column, descending only after an ascending sort on that same column |
| `ProcurementDashboard.FirstClickOnSavingsAscends` | components/procurement-dashboard.tsx:21-40 | since the dashboard starts on potential savings descending, the first click on that column sorts it ascending |
| `ProcurementDashboard.SortedItems` | components/procurement-dashboard.tsx:23-33 | the dashboard shows a permutation of the rows, ordered by the chosen column in the chosen direction |
| `ProcurementDashboard.InitialViewBySavingsDescending` | components/procurement-dashboard.tsx:21-33 | as first shown, the dashboard lists the largest potential savings first |
| `ProcurementDashboard.TextColumnsSortLexicographically` | components/procurement-dashboard.tsx:6-33 | the text columns, FOB price and pack size included, sort lexicographically in either direction |
| `ProcurementDashboard.SortedItemsAreStable` | components/procurement-dashboard.tsx:23-33 | rows with equal values in the sort column keep their input order |

## Left out

- Reading the file (`fs.existsSync`, `readFileSync`, the path join): the file is an `Option<string>` input.
- `parseFloat` itself: it is a parameter, because its grammar (prefix parsing, exponents, `Infinity`) lies outside the core. `|| 0` is modelled.
- Floating-point rounding and NaN: every number is a `real`. The identities between spend, savings and the chart values are exact in the model. In IEEE doubles they hold only up to rounding.
- JavaScript compares strings by UTF-16 code units. The model compares them by Unicode code points. The two orders differ only for characters outside the Basic Multilingual Plane.
- Comparison between a number and a string: a column holds values of one kind only, so the model orders all numbers before all strings and never uses that case.
- The engine's sort algorithm: it is unspecified but stable. The model uses a stable insertion sort. Any stable sort under the same consistent comparator gives the same result.
- React state, `useState` and rendering: the state is an explicit value, and `requestSort` returns the next state.
- The page component, the metric cards, the chart and table markup, the number formatting, the mail button, and the Python analysis scripts that produce the file.
- Unicode version drift in `trim`: the whitespace set is fixed to the ECMAScript WhiteSpace and LineTerminator characters, listed code point by code point.
