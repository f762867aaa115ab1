# Portfolio sanitiser and validator: a Dafny model

This project models the core of a small portfolio service written in Python
(`main.py`). The core has five pieces:

- **Sanitiser.** `sanitize_portfolio` turns the raw rows of a holdings table
  (symbol, shares, price) into clean holdings.
- **Diagnostics.** The loop in `validate_csv` reports, for each failing row,
  its index, its symbol and the checks it fails.
- **Report.** The same endpoint counts rows and builds a NaN-free sample of
  the first five sanitised rows (`_json_safe`).
- **Aggregation.** `portfolio_data` collects the holdings of one symbol into
  a truncated share total and an average cost.
- **Valuation.** `portfolio_data` then values that position against the
  latest close.

Files:

- `wrappers.dfy`: the `Option` datatype.
- `cells.dfy`: a table cell, and the two per-cell conversions.
  - Numeric coercion, as `pd.to_numeric(..., errors="coerce")` does it.
  - `str(x).strip()`, with Python's whitespace set.
- `sanitizer.dfy`: the table, the keep rule, and the sanitiser as an
  order-preserving filter.
- `diagnostics.dfy`: the per-row checks, the diagnostics loop as a method,
  and how it agrees with the sanitiser.
- `json_safe.dfy`: JSON values and the NaN scrubber.
- `report.dfy`: the validation report, with its counts and sample.
- `valuation.dfy`: aggregation and valuation.

Modelling decisions:

- **Tables.** A table records which of the three columns exist. The two
  passes read an absent shares or price column differently, and the model
  keeps both readings (an absent symbol column empties the sanitised table,
  main.py:24-25):
  - the sanitiser reads it as the number 0 (`df.get(col, 0)`);
  - the diagnostics read it as missing (`row.get(col)`).
- **Cells.** A numeric cell carries the text Python's `str()` gives for it.
  That text is only used when the number sits in the symbol column.
- **Prices.** The price series arrives as a parameter.
- **Report metadata.** The timestamp and the file name of the report also
  arrive as parameters.

Where the code and its documentation disagree, the model follows the code:

- **Blank symbols.** The docstring of `sanitize_portfolio` says empty symbols
  are dropped. The code only drops missing ones, so a whitespace-only symbol
  is kept as `""` (`Sanitizer.BlankSymbolIsKept`).
- **Average cost.** `avg_cost` divides the cost basis by the *truncated*
  share total, not by the summed shares. They agree when the summed shares
  are a whole number (`Valuation.WholeShareAverageIsWeightedMean`). Otherwise
  they differ unless the cost basis is 0; with a positive cost basis the
  average is inflated (`Valuation.FractionalTotalInflatesAverage`: 1.5 shares
  at 10 report an average of 15).
- **No price column.** A table without a price column still has its rows
  kept, at price 0. The diagnostics tag those same rows "invalid price"
  (`Diagnostics.KeptRowTags`).

## Model

| member | source | states |
|---|---|---|
| Cells.Coerce | main.py:30-31 | A missing cell coerces to nothing and a numeric cell to its own value; text goes through the decimal parser |
| Cells.ParseShowNat | main.py:30-31 | The decimal text of any whole number, with or without a leading '-', coerces back to that number |
| Cells.NoDigitNoNumber | main.py:30-31 | Text without a digit ("NaN", "notnum", "") never coerces to a number |
| Cells.Strip | main.py:28 | The stripped symbol has no whitespace at either end and is no longer than the original |
| Cells.StripCutsOnlySpace | main.py:28 | The stripped symbol is a contiguous slice of the original, and only whitespace is cut, from both ends |
| Cells.StripIdempotent | main.py:28 | Stripping a stripped symbol changes nothing |
| Sanitizer.CleanRow | main.py:27-34 | A row yields a holding exactly when the keep rule holds. The rule is: symbol present, shares coerce to a number above zero, price coerces to any number. The holding carries the stripped symbol and the coerced shares and price |
| Sanitizer.Sanitize | main.py:15-35 | No symbol column gives the empty result. The output is never longer than the input, and every holding has a stripped symbol and positive shares |
| Sanitizer.SanitizeIsOrderPreservingFilter | main.py:27-34 | The output holds the cleaned forms of exactly the rows that satisfy the keep rule, in input order, at strictly increasing row positions |
| Sanitizer.NothingKeptWithoutSymbolColumn | main.py:24-25 | Without a symbol column no row position is kept, whatever the other columns hold |
| Sanitizer.SanitizeFixesCleanHoldings | main.py:23-35 | Holdings with stripped symbols and positive shares, written back as a table, pass the sanitiser unchanged |
| Sanitizer.SanitizeIdempotent | main.py:23-35 | Sanitising the output of the sanitiser returns it unchanged |
| Sanitizer.BlankSymbolIsKept | main.py:27-28 | Any row whose symbol text is only whitespace, with a symbol column, shares above zero and a numeric price, is kept with the empty symbol and its coerced shares and price |
| Sanitizer.BlankSymbolExample | main.py:27-28 | A two-space symbol with 3 shares at 1 sanitises to the single holding ("", 3, 1) |
| Cells.BlankStripsToEmpty | main.py:28 | Stripping a whitespace-only string gives the empty string |
| Sanitizer.MixedRowsExample | tests/test_main.py:11-23 | Of the five mixed rows, exactly A (10 at 100) and D (2 at 5) survive, in that order |
| Diagnostics.ReportedSymbol | main.py:135-136 | The reported symbol is null exactly when the symbol column is absent or the cell is missing. Otherwise it has no surrounding whitespace. It is always the stripped text of the symbol cell (for a dropped row such as "BAD" as well), and for a row the sanitiser keeps it is the symbol of that row's holding |
| Diagnostics.TagTextIdentifiesTag | main.py:137-144 | The three issue strings of the report are pairwise distinct, so each names one check |
| Diagnostics.RowTags | main.py:134-144 | A row has no tags exactly when all three checks pass |
| Diagnostics.RowTagsMeaning | main.py:137-144 | Each of the three tags is present exactly when its own check fails |
| Diagnostics.RowTagsInFixedOrder | main.py:137-144 | Tags appear in the order missing symbol, invalid shares, invalid price, without repetition |
| Diagnostics.DiagnoseRow | main.py:134-144 | The loop body computes, by successive appends, the reported symbol and the tags of its row |
| Diagnostics.CollectIssues | main.py:132-146 | The loop appends one entry per failing row and ends with the issue list of the whole table |
| Diagnostics.IssuesDiagnoseTable | main.py:132-146 | Every issue entry carries a valid row index, that row's symbol and its non-empty tags. Entries come in strictly increasing row order. A row has an entry exactly when at least one check fails |
| Diagnostics.DroppedRowFailsACheck | main.py:34 | A row the sanitiser drops fails at least one diagnostic check |
| Diagnostics.DroppedRowIsReported | main.py:34 | Every row the sanitiser drops appears in the issue list |
| Diagnostics.KeptRowTags | main.py:27-34 | A kept row is never tagged "invalid shares". It is tagged "invalid price" exactly when the table has no price column. It is tagged "missing symbol" exactly when its sanitised symbol is empty |
| Diagnostics.SanitizedRowReportedIffBlankSymbol | main.py:133-146 | With a price column, the row behind a sanitised holding is reported exactly when that holding's symbol is empty |
| Diagnostics.DroppedRowsAtMostIssues | main.py:127-146 | The number of dropped rows never exceeds the number of issue entries |
| Diagnostics.NoSymbolColumnFlagsEveryRow | main.py:135-138 | Without a symbol column every row gets an issue entry |
| Diagnostics.BadUploadExample | tests/test_main.py:83-92 | For the three bad rows, nothing is sanitised. The entries are row 0 (null symbol, missing symbol), row 1 ("BAD", invalid shares) and row 2 ("BADPRICE", invalid price) |
| JsonSafe.Scrub | main.py:149-157 | A NaN float becomes null. Lists and dicts keep their length, dicts keep their keys in order, and each item or value is itself scrubbed. Every other value is returned as is |
| JsonSafe.ScrubKeepsCleanNeighbours | main.py:149-157 | In a list or dict, every item or value without NaN is kept unchanged, even beside a NaN |
| JsonSafe.RecordWithNaNExample | main.py:149-157 | A record with symbol "A", 2 shares and a NaN note keeps symbol and shares and gets a null note |
| JsonSafe.ScrubRemovesNaN | main.py:149-157 | No NaN is left anywhere after scrubbing |
| JsonSafe.ScrubKeepsNaNFree | main.py:149-157 | A value with no NaN passes the scrubber unchanged |
| JsonSafe.ScrubIdempotent | main.py:149-157 | Scrubbing twice equals scrubbing once |
| ValidationReport.SanitizedSample | main.py:159 | The sample is the record list of the first min(5, n) sanitised rows, has exactly that many items, and contains no NaN |
| ValidationReport.Validate | main.py:127-159 | The report gives: the original row count; the sanitised count (never above the original); dropped = original - sanitised, between 0 and the number of issue entries; the issue list of the diagnostics pass; the NaN-free sample |
| ValidationReport.GoodUploadExample | tests/test_main.py:73-80 | Both clean rows survive unchanged and no issue is reported |
| Valuation.LoadPortfolio | main.py:38-47 | A table that cannot be read gives no holdings; a readable table gives exactly its sanitised holdings, so every loaded holding is clean |
| Valuation.Matching | main.py:80 | Only holdings with the requested symbol are selected |
| Valuation.MatchingSelectsSymbol | main.py:80 | A holding is selected exactly when it is in the portfolio and its symbol equals the requested one, and it is selected as many times as it occurs there |
| Valuation.MatchingAppend | main.py:80 | Appending a holding to the portfolio appends it to the selection exactly when its symbol matches; otherwise the selection is unchanged |
| Valuation.DuplicateLotsBothCount | main.py:80-86 | Two identical lots of 10 at 5 aggregate to 20 shares at an average of 5 |
| Valuation.TruncateToInt | main.py:82 | `int()` truncates toward zero: the result is within one of the input, on the side of zero |
| Valuation.Aggregate | main.py:80-86 | There are no shares exactly when the truncated sum of matching shares is 0. Otherwise the total is that truncated sum, and average × total equals the cost basis |
| Valuation.Valuate | main.py:95-112 | An empty close series gives the no-price variant, and a non-empty one always gives the metrics record. In it: the current price is the last close; equity = total × price; pnl = equity - average × total; ROI is null exactly when the average is 0, and otherwise ROI × average = (price - average) × 100 |
| Valuation.PortfolioData | main.py:78-112 | The answer is "no shares in portfolio" exactly when aggregation finds no shares. Otherwise it is the valuation of the aggregated total and average against the close series |
| Valuation.OnlyMatchingRowsCount | main.py:80 | Restricting the portfolio to the requested symbol does not change the answer |
| Valuation.OtherSymbolIgnored | main.py:80 | Adding a holding of another symbol does not change the answer |
| Valuation.NoSharesNeedsNoPrice | main.py:82-84 | A zero truncated total answers "no shares in portfolio" whatever the price series holds |
| Valuation.UnknownSymbolHasNoShares | main.py:80-84 | A symbol with no holdings answers "no shares in portfolio" |
| Valuation.SanitizedNoSharesIffBelowOne | main.py:82-84 | Over sanitised holdings the total is positive whenever there is a position, and there are no shares exactly when the matching shares sum below one |
| Valuation.WholeShareAverageIsWeightedMean | main.py:86 | When the matching shares sum to a whole number, the average cost is the share-weighted mean price |
| Valuation.WholeShareAverageWithinPrices | main.py:86 | With positive shares and a whole-share total, the average cost lies between the lowest and highest price paid for the symbol |
| Valuation.MeanWithinPrices | main.py:86 | Any price at which the shares would cost exactly the cost basis lies between the lowest and highest price paid |
| Valuation.FractionalTotalInflatesAverage | main.py:82-86 | For 1.5 shares at 10 the reported average is 15, while the weighted mean is 10 |
| Valuation.PnlIsEquityMinusCostBasis | main.py:100-101 | Profit and loss equals equity minus the cost basis |
| Valuation.RoiSign | main.py:102 | With a positive average cost, ROI is present, and it is positive exactly when the price is above the average |
| Valuation.SingleLotExample | tests/test_main.py:44-56 | 10 FOO at 5 with a last close of 7 gives total 10, price 7, equity 70, pnl 20 and ROI 40 |
| Valuation.EmptySeriesExample | main.py:95-96 | Holdings with an empty close series give the no-price variant |
| Valuation.EmptyPortfolioExample | tests/test_main.py:26-30 | An empty portfolio answers "no shares in portfolio" |

## Left out

- HTTP plumbing is not modelled. This covers the FastAPI app, the static mount, `root`, the route decorators and the market endpoint (main.py:11, 51-73). It is transport, not logic.
- The yfinance calls and their 503 error path (main.py:88-93) are not modelled. The closes arrive as a `seq<real>` parameter.
- Reading files is not modelled. This covers `pd.read_csv` of the portfolio file, the upload decode and its 400 error (main.py:38-47, 118-125). A read failure is modelled only as `LoadPortfolio(None)`, the empty portfolio.
- Persistence and wall-clock time (main.py:161-180) are not modelled. The timestamp and file name are parameters of `Validate`, and nothing is written.
- `round(…, 2)` on the output figures (main.py:107-111) is not modelled. The model gives exact real values.
- IEEE floating point is replaced by exact reals. Infinities and NaN appear only as JSON values in `JsonSafe`.
- Cells.ParseNumber: accepts an optional sign, digits, and an optional fraction. It does not accept exponents ("1e3"), "inf", or surrounding whitespace, which pandas accepts. Text pandas parses as NaN ("NaN") gives no number, as in pandas.
- Cells.Stringify: for a numeric symbol cell it uses the text the cell carries. The model does not derive Python's float formatting.
- Cells.Stringify: both passes read the same text for a numeric symbol cell. In the source they can differ. The diagnostics walk `df.iterrows()` (main.py:133), which upcasts an integer symbol to float when every column of the table is numeric and one holds floats: the line `123,0,1.5` reports "123.0". The sanitiser strips column-wise (main.py:28) and keeps "123".
- Columns other than symbol, shares and price are not modelled, so the sample records hold only those three. The pandas index is the zero-based row position.
- ValidationReport.HoldingRecord: always orders a record's keys symbol, shares, price. `to_dict(orient="records")` (main.py:159) follows the table's column order, which the model does not record.
- ValidationReport.HoldingRecord: writes shares and price as floats. It does not distinguish the integer dtype pandas keeps for an all-integer column.
