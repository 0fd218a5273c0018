# Monthly sales dashboard — record pipeline in Dafny

The dashboard script `sales1.py` loads one month of sales rows and derives
four columns for each row:

- `Total` is `Count × Price Each`.
- `Zip` is the first postal code found in the purchase address.
- `Day` and `Hour` come from the parsed order date.

It then keeps the rows whose hour and then whose price lie in the sidebar
ranges. From those rows it computes these tables:

- sales per day and per hour;
- sales and units per zip, each with its percentage of the total;
- the sum of prices per product and per address;
- the number of rows per product.

Two helpers complete the page. `format_dataframe` cuts every cell of a table
to a maximum length. `filter_dataframe` searches the rows by product or by
address.

This project models that pipeline and proves what each stage promises:

| module | file | what it holds |
|---|---|---|
| `Wrappers` | wrappers.dfy | `Option`, a cell that may be missing (NaN) |
| `Selection` | selection.dfy | boolean-mask selection `df[mask]` and its laws (membership, order, idempotence, narrowing, composition) |
| `ZipCode` | zipcode.dfy | the pattern `\b\d{5}(?:-\d{4})?\b` and leftmost search |
| `Records` | records.dfy | raw and enriched rows, `Total`, `Enrich` |
| `RangeFilters` | filters.dfy | hour and price filters, the price slider's initial bounds |
| `Grouping` | grouping.dfy | group-by sums, sorting, the percentage column |
| `Aggregates` | aggregates.dfy | the seven grouped views |
| `TableFormat` | format.dfy | `format_dataframe` as a method with a loop over columns |
| `TextSearch` | search.dfy | `filter_dataframe` |
| `Dashboard` | dashboard.dfy | the whole page: filters composed, every view built |

Numbers are exact `real`s. Missing cells are `Option` values produced before
the model, because pandas' numeric and date parsers are not modelled. The
slider, select box and text box values are plain parameters.

Two behaviours of `sales1.py` are worth stating plainly:

- The "Address or ZIP" search looks only at `Purchase Address`, never at the
  derived `Zip` column (sales1.py:166).
- A row whose date does not parse is kept through enrichment. It is then
  dropped by the hour filter, since a comparison with a missing hour is false
  (sales1.py:53).

## Model

| member | source | states |
|---|---|---|
| Records.Total | sales1.py:32-34 | `Total` is present exactly when both `Count` and `Price Each` are, and then equals their product |
| Records.Enrich | sales1.py:32-52 | an enriched row keeps its input fields; `Total` is present iff both factors are, and then is their product; `Zip` is the extracted code; `Day` and `Hour` are present exactly when the date parsed and are its day (1..31) and hour (0..23) |
| Records.EnrichAll | sales1.py:32-52 | enrichment is row by row: same length, row `i` is the enrichment of input row `i` |
| Records.EnrichExample | sales1.py:32-52 | 3 units at 10.00 on 01/15/20 14:30 to "500 Elm St, Boston, MA 02110" give total 30, zip "02110", day 15, hour 14 |
| Records.MalformedCountHasNoTotal | sales1.py:32-34 | a count that did not parse leaves the row without a total |
| ZipCode.MatchLengthAt | sales1.py:37 | at one start position the engine reports a length at which the pattern matches; it reports 5 only when the 10-character form cannot match there, and nothing exactly when neither form matches |
| ZipCode.SearchFrom | sales1.py:37-38 | the search returns the leftmost start position with a match, and nothing exactly when no position matches |
| ZipCode.ExtractZip | sales1.py:38 | a missing address gives no zip; a present address gives none exactly when the pattern matches at no position; every zip returned has the five-digit or ZIP+4 shape |
| ZipCode.ExtractedZipShape | sales1.py:37-38 | every extracted zip is five digits, or ten characters with digits around a hyphen at index 5 |
| ZipCode.ExtractZipSound | sales1.py:37-38 | an extracted zip is a match in the address, bounded by non-word characters or the ends of the address; no match starts further left; the short form is chosen only when the long form cannot match |
| ZipCode.ExtractZipComplete | sales1.py:37-38 | wherever the pattern can match, extraction returns a zip |
| ZipCode.NoMatchAcrossNonDigit | sales1.py:37 | a non-digit among the five characters after a position rules out a match there |
| ZipCode.LeftmostMatchFound | sales1.py:37-38 | a match with no match to its left is the zip returned |
| ZipCode.SearchReaches | sales1.py:37-38 | a search started at or before a match, with no match in between, stops at that match |
| ZipCode.MissingAddressNoZip | sales1.py:38 | a missing address gives no zip |
| ZipCode.SixDigitsRejected | sales1.py:37-38 | "123456" yields no zip |
| ZipCode.LetterPrefixRejected | sales1.py:37-38 | "A02110" yields no zip |
| ZipCode.OverlongSuffixDropped | sales1.py:37-38 | "02110-12345" yields "02110": the suffix group is dropped when its trailing boundary fails |
| ZipCode.ZipPlusFourKept | sales1.py:37-38 | "MA 02110-1234" yields "02110-1234" |
| Selection.Select | sales1.py:53 | a boolean-mask selection is no longer than its input; it holds only input rows that pass the mask, and every passing row |
| Selection.KeptPositions | sales1.py:53 | the kept positions are increasing, in range, and are exactly the positions whose row passes the mask |
| Selection.SelectIsOrderedSubsequence | sales1.py:53 | the selection sits in the input at exactly the passing positions, in order |
| Selection.SelectIdempotent | sales1.py:53 | applying a mask twice equals applying it once |
| Selection.SelectNarrower | sales1.py:73 | a narrower mask selects from the wider mask's result and never yields more rows |
| Selection.SelectSameMask | sales1.py:53 | masks that agree on every row select the same rows |
| Selection.SelectThenSelect | sales1.py:53-73 | two masks in sequence select what their conjunction selects |
| RangeFilters.HourFilter | sales1.py:52-53 | the hour filter keeps exactly the rows with an hour h and lo ≤ h ≤ hi |
| RangeFilters.PriceFilter | sales1.py:73 | the price filter keeps exactly the rows with a price p and lo ≤ p ≤ hi |
| RangeFilters.PriceBounds | sales1.py:59-60 | the slider's bounds are the least and greatest present price, both attained; there are none exactly when no row has a price |
| RangeFilters.HourFilterIdempotent | sales1.py:53 | hour filtering twice equals filtering once |
| RangeFilters.HourFilterOrder | sales1.py:53 | the hour filter keeps rows in input order, at exactly the positions in range |
| RangeFilters.DefaultHourRangeKeepsDated | sales1.py:45-53 | with the initial range 0..24 the hour filter keeps exactly the rows with a parsed date |
| RangeFilters.PriceFilterIdempotent | sales1.py:73 | price filtering twice equals filtering once |
| RangeFilters.PriceFilterOrder | sales1.py:73 | the price filter keeps rows in input order |
| RangeFilters.PriceFilterMonotone | sales1.py:73 | narrowing the price range selects from the wider result and never increases the row count |
| RangeFilters.DefaultPriceRangeKeepsPriced | sales1.py:59-73 | at the slider's initial bounds the price filter removes only rows without a price |
| Grouping.AddTo | sales1.py:109 | adding a row's value to its key's entry adds the key, keeps keys distinct, raises that key's value and the total by the row's value, and leaves other keys alone |
| Grouping.GroupTotals | sales1.py:109 | group-by gives one entry per distinct present key; each value is the sum over that key's rows; the values add up to the total over rows with a key |
| Grouping.KeysAt | sales1.py:109 | a key is listed exactly when some entry carries it |
| Grouping.KeySetAt | sales1.py:109 | a key occurs among the rows exactly when some row carries it |
| Grouping.DistinctKeysAt | sales1.py:109 | no two entries share a key |
| Grouping.EntryValue | sales1.py:109 | with distinct keys, each entry's value is the one looked up for its key |
| Grouping.ReorderedValues | sales1.py:109 | after reordering, each entry still carries its key's value |
| Grouping.InsertBy | sales1.py:109 | insertion keeps a list sorted by rank and adds one entry |
| Grouping.InsertByMultiset | sales1.py:109 | insertion adds exactly the new entry |
| Grouping.InsertByKeys | sales1.py:109 | insertion adds the new key and value to the keys and the sum |
| Grouping.InsertByDistinct | sales1.py:109 | inserting an entry with a new key keeps keys distinct |
| Grouping.SortBy | sales1.py:109 | the sort returns a list of the same length, ordered by rank |
| Grouping.SortByContents | sales1.py:109 | sorting is a permutation: same entries, same keys, distinct keys preserved, same sum |
| Grouping.RankedGroups | sales1.py:109-110 | the sorted group-by lists each present key once, each with its key's sum, and the values add up to the keyed total |
| Grouping.SharesOf | sales1.py:117-118 | each percentage is value / grand total × 100, and is missing when the grand total is zero |
| Grouping.SharesSum | sales1.py:117-118 | the percentages add up to the values' sum / grand total × 100 |
| Grouping.PercentagesSumTo100 | sales1.py:113-118 | against the table's own total, the percentages add up to 100 whenever that total is nonzero |
| Aggregates.AscendingByKey | sales1.py:78-83 | a grouped sum lists each present key once, in strictly ascending order, each with the sum over its rows |
| Aggregates.DailySales | sales1.py:78 | sales per day: each day present in the rows once, days ascending, each with the sum of `Total` over that day's rows |
| Aggregates.HourlySales | sales1.py:83 | sales per hour: each hour present in the rows once, hours ascending, each with the sum of `Total` over that hour's rows |
| Aggregates.DescendingByValue | sales1.py:137-142 | a grouped sum lists each present key once, each with its sum, largest first; the values add up to the total over rows with a key |
| Aggregates.ZipSales | sales1.py:109-117 | sales by zip: every zip of the rows once, each with the sum of `Total` over its rows, largest first, and that sum as a percentage of all zipped sales; the percentages add up to 100 when the grand total is nonzero |
| Aggregates.ZipCounts | sales1.py:110-118 | units by zip: every zip of the rows once, each with the sum of `Count` over its rows, largest first, and that sum as a percentage of all zipped units; the percentages add up to 100 when the grand total is nonzero |
| Aggregates.ZipTableCorrect | sales1.py:109-118 | both zip tables list exactly the zips of the rows, once each, with their sums largest first and their percentages of the grand total |
| Aggregates.ProductPriceSums | sales1.py:137-138 | each product present once, with the sum of `Price Each` over its rows, largest first |
| Aggregates.AddressPriceSums | sales1.py:141-142 | each purchase address present once, with the sum of `Price Each` over its rows, largest first |
| Aggregates.ProductCounts | sales1.py:156 | each product present once, with the number of its rows, largest first |
| Aggregates.ZipTableKeys | sales1.py:109-110 | a zip table lists exactly the zips that occur in the rows |
| Aggregates.ZipTableDistinct | sales1.py:109-110 | no zip is listed twice |
| Aggregates.ZipTableValues | sales1.py:109-118 | each zip value is the sum over that zip's rows, listed largest first; each percentage is value / grand total × 100; the percentages sum to 100 when the grand total is nonzero |
| Aggregates.CountIsRowCount | sales1.py:156 | a product's count is the number of rows naming that product |
| Aggregates.ProductCountsCountRows | sales1.py:156 | every entry of the product counts is the number of rows with that product |
| TableFormat.NatToString | sales1.py:135 | the decimal form of a whole number is a non-empty string of digits that denotes that number, with no leading zero |
| TableFormat.CellText | sales1.py:135 | `astype(str)` of a cell: text is itself, a missing cell is "nan", a whole number is its sign and the decimal digits denoting its magnitude, with no leading zero, followed by ".0" |
| TableFormat.Truncate | sales1.py:135 | the cut string is a prefix of at most n characters; it is the whole string when that fits, and exactly n characters otherwise |
| TableFormat.FormatCellIdempotent | sales1.py:135 | formatting a formatted cell changes nothing |
| TableFormat.FormatFrame | sales1.py:132-136 | the result has the same columns, names and row counts; every cell is text, a prefix of the cell's string form of at most the limit, unchanged when it fits and exactly the limit long otherwise; the input frame is a value, so it is left as it was |
| TextSearch.LowerChar | sales1.py:164-166 | `case=False` folds ASCII capitals: a capital moves down to its small letter (32 code points), every other character is left alone |
| TextSearch.Lower | sales1.py:164-166 | lower-casing a string keeps its length and folds each character as `LowerChar` does |
| TextSearch.ContainsIffOccurs | sales1.py:164-166 | the substring test holds exactly when the term occurs at some position |
| TextSearch.FilterDataframe | sales1.py:162-169 | the result holds only input rows and is never longer; "Product Name" keeps exactly the rows whose product contains the term ignoring case; "Address or ZIP" does the same on the address; any other type returns the input |
| TextSearch.FilterDataframeOrder | sales1.py:164-166 | the search keeps rows in input order |
| TextSearch.EmptyTermKeepsPresent | sales1.py:164-166 | an empty term matches exactly the rows whose field is present |
| TextSearch.TermCaseIgnored | sales1.py:164-166 | lower-casing the term does not change the result |
| TextSearch.FieldCaseIgnored | sales1.py:164-166 | lower-casing a letter of the field does not change the result |
| TextSearch.FieldUpperCaseIgnored | sales1.py:164-166 | upper-casing any one character of the searched field leaves the match unchanged |
| TextSearch.TermUpperCaseIgnored | sales1.py:164-166 | upper-casing any one character of the search term leaves the match unchanged |
| TextSearch.AddressSearchIgnoresZip | sales1.py:166 | the address search does not depend on the `Zip` column |
| TextSearch.ProductSearchExample | sales1.py:164 | the term "usb" finds "USB-C Charging Cable" |
| Dashboard.FilteredRows | sales1.py:53-73 | hour-then-price is one selection of the enriched rows by both ranges: every kept row is an enriched row in both ranges, and every such row is kept |
| Dashboard.DefaultPriceRange | sales1.py:59-60 | the slider's initial bounds are missing exactly when no hour-filtered row has a price; otherwise the price filter at those bounds drops only the rows without a price |
| Dashboard.BuildView | sales1.py:53-175 | every table is computed from the same range-filtered rows: the daily, hourly, zip, product and address views meet their grouped-sum contracts over those rows, and the search result holds only filtered rows |
| Dashboard.FilteredRowsAreConjunction | sales1.py:53-73 | the filtered rows sit among the enriched rows in input order, at exactly the positions in both ranges |
| Dashboard.FilteredRowsAreDated | sales1.py:39-53 | every row that reaches the tables has a parsed date, with its day and hour |
| Dashboard.DefaultSlidersKeepDatedPriced | sales1.py:45-73 | with both sliders at their initial values, the tables hold exactly the rows with a parsed date and a price |
| Dashboard.SearchWithinFiltered | sales1.py:162-175 | a product or address search keeps the filtered rows the search mask picks, in their order; any other filter type returns the filtered rows unchanged |

## Left out

- Page setup, widgets, columns, metrics, charts and session state (sales1.py:7-10, 19-21, 45-49, 63-70, 75-76, 88-102, 124-130, 150-159, 172-176) are UI. Their values enter as parameters.
- File discovery and CSV reading (sales1.py:14-17, 27) are I/O. The input is a sequence of already-split rows, and columns other than product, count, price, date and address are not modelled.
- `pd.to_numeric` and `pd.to_datetime` (sales1.py:32-33, 39, 56) are library parsers. Their results arrive as `Option` fields. The second coercion of `Price Each` (sales1.py:56) changes nothing on an already numeric column, so it is not modelled.
- Mean, sample standard deviation and `round(-1)` of the daily and hourly series (sales1.py:79-92) use floating point and pandas' rounding.
- `.round()` of the price sums (sales1.py:139, 143) uses floating point. `TableFormat.Cell.Whole` stands for such a rounded value. The product and address tables are not converted into frames.
- TableFormat.CellText: a whole float is written as `<digits>.0`. Python's exponent notation for magnitudes of 10^16 and above is not modelled.
- Aggregates.DescendingByValue: promises non-increasing order only. pandas' default sort is not stable, so the order among equal values is left open.
- Grouping.SharesOf: a zero grand total gives a missing percentage. pandas would give NaN or infinity there.
- Arithmetic is exact. The percentages sum to exactly 100 here, and only up to rounding in floating point.
- TextSearch.FilterDataframe: `str.contains` reads the term as a regular expression. The model matches it as a literal substring, so it is exact only for terms without regex metacharacters.
- Case folding and the `\d`/`\w` classes are ASCII only. Python's Unicode semantics are not modelled.
- The 1-based renumbering of the zip tables (sales1.py:120-123) only affects display.
- The price slider with no priced row left: `DefaultPriceRange` returns nothing there. What the slider then does is not modelled.
- The unused `pydeck` import (sales1.py:3).
