# SP500 historical financial statements: merge-and-ratio core in Dafny

This project models the data-shaping core of a batch pipeline. The pipeline
joins per-ticker quarterly financial statements (income statement, balance
sheet, cash flow) with daily adjusted-close prices. From the joined table it
derives a fixed set of financial ratios per (date, ticker) cell. The project
also models the two helpers of `utils.py` that organise the work into
numbered chunk files.

Every operation is a pure function or a method over immutable maps and
sequences. The JSON inputs are taken as already parsed, and the outputs are
returned instead of written.

- `StatementMerge` (`merge_quarterly_data`): folds the `quarterlyReports` of
  the three sections into one record per fiscal date. The last write wins,
  and the `fiscalDateEnding` field itself is dropped.
- `AsOfFilter` (`filter_stock_data_by_dates`): an as-of, fill-forward filter.
  Each target date takes the payload of the latest source date on or before
  it.
- `Concatenation` (`concat_stocks_datas_byDates`): builds the date → ticker →
  record table and injects `"Adj Close"` from the price file.
- `Ratios` (`calculate_financial_ratios`): covers `safe_get`, `safe_divide`,
  the eight-field ratio record, and per-cell error isolation.
- `ChunkFiles` (`verify_and_find_next_json`): chooses the next `<n>.json`
  chunk file.
- `SplitJson` (`split_json`): cuts a key list into numbered chunks.
- `Results` and `Types`: shared wrappers and data shapes.
- `Pipeline`: how the concatenation feeds the ratio engine.

Modelling choices:

- Dates are integers ordered chronologically; parsing them from ISO text is
  not modelled.
- Numbers are `real`.
- The field value the ratio engine reads is `Num(x)`, the string `"None"`, or
  something `float()` rejects. An absent field is an absent key.
- Values in the statement merge stay opaque. The value stored under
  `fiscalDateEnding` is itself the date key, as in the source.

The model follows the code, including these behaviours:

- A section that is JSON `null` is not tolerated. `data[section].get(...)`
  raises on `None`, so the merge of that file fails with `NullSectionError`.
- Field collisions in the merge are last-wins, with no suffixing.
  Suffixing happens only in `process_financial_data` (utils.py:129-130),
  which is not modelled.
- `safe_get` reads an absent key as the string `"0"`, which gives 0, not the
  caller's default. Only `"None"` yields the default. The default is 0 at
  every call site, so the two agree on every value the source computes.
- A report whose only field is `fiscalDateEnding` adds no date to the merge.
  Likewise, a price date on which no ticker has a record is absent from the
  concatenated table. In both cases a `defaultdict` entry only comes into
  existence on its first write.

## Model

| member | source | states |
|---|---|---|
| StatementMerge.SectionReports | concat.py:30-34 | An absent section, or one without `quarterlyReports`, contributes no reports. A `null` section raises. A present list is used as-is, and it raises iff some report lacks `fiscalDateEnding`. |
| StatementMerge.CollectReports | concat.py:30-34 | Reading the sections succeeds iff every section succeeds. Otherwise the error raised is that of the first failing section, in the order income, balance sheet, cash flow. Every collected report carries a fiscal date. |
| StatementMerge.CollectedInSectionOrder | concat.py:30-33 | The merged report sequence is the income reports, then the balance-sheet reports, then the cash-flow reports, each in list order. |
| StatementMerge.Absorb | concat.py:34-37 | One report writes every field except `fiscalDateEnding` under its date and overwrites earlier values. All other (date, field) pairs are unchanged, and a date appears only if the report has some other field. |
| StatementMerge.FoldCoverage | concat.py:29-37 | After all reports, a (date, field) pair is present iff some report writes it. A date is present iff some report writes a field under it. |
| StatementMerge.FoldLastWins | concat.py:33-37 | The value under (date, field) is the one from the last report that writes that pair. |
| StatementMerge.LastWinsEverywhere | concat.py:33-37 | The last-writer rule holds for every (date, field) pair at once. |
| StatementMerge.MergeQuarterly | concat.py:29-37 | A file merges iff its sections can be read. The merged dates are exactly the dates written under. A merged record holds exactly the fields written under its date, never `fiscalDateEnding`, and each value is the one from the last report in section-then-list order. |
| AsOfFilter.LatestOnOrBefore | concat.py:79-81 | Returns nothing iff every source date is after the target. Otherwise it returns the greatest source date not after the target. |
| AsOfFilter.FilterByDates | concat.py:57-82 | The output dates are exactly the targets that have a source date on or before them. Each gets the payload of the latest such source date. |
| AsOfFilter.AsOfViewEdges | concat.py:77-82 | In any as-of view, an exact match gets its own payload and a target before every source date is absent. A target after every source date gets the last date's payload. |
| AsOfFilter.LatestIsUnique | concat.py:81 | The latest source date on or before a target is unique. |
| AsOfFilter.AsOfViewIsUnique | concat.py:57-82 | The filtered result depends on the targets only as a set, so reordering or repeating targets does not change it. |
| Concatenation.WithAdjClose | concat.py:118-119 | The copied record has `"Adj Close"` equal to the price, and every other field is kept unchanged. |
| Concatenation.ConcatRow | concat.py:115-119 | For one price date, a ticker is in the row iff it is a component and its file has that exact date. Its record is that file's record with the day's price injected. |
| Concatenation.ConcatByDates | concat.py:100-119 | A cell (date, ticker) exists iff the date is a price date, the ticker is a component, and the ticker's file has that date. The cell is the file's record with `"Adj Close"` set to that day's price. No date is empty, and a ticker without a file appears under no date. |
| Ratios.SafeDivide | concat.py:140-145 | Division by zero yields 0. Otherwise the result times the divisor gives back the dividend. |
| Ratios.SafeGet | concat.py:147-152 | An absent key reads 0, `"None"` reads as the default, and a number reads as itself. The read raises iff the value cannot be converted, and the error names the key. |
| Ratios.ReadFields | concat.py:164-171 | The eight successive reads succeed iff no field is unconvertible, and then yield each field's amount. Otherwise the first unconvertible field in reading order raises. |
| Ratios.RatiosOf | concat.py:174-193 | From the eight amounts: ROE, debt-to-equity, profit margin and operating-cashflow-to-debt are zero-on-failure quotients. Market-to-book × equity = adjusted close × shares, and dividend yield × shares × adjusted close = dividends paid (each 0 when a divisor is 0). Market cap = shares × adjusted close. |
| Ratios.ComputeRatios | concat.py:164-193 | A cell's computation raises iff one of the eight fields is unconvertible, and the error names the first such field. Otherwise ROE, debt-to-equity, profit margin and operating-cashflow-to-debt are zero-on-failure quotients of the amounts read. Market-to-book × equity = adjusted close × shares, dividend yield × shares × adjusted close = dividends paid (each 0 when a divisor is 0), market cap = shares × adjusted close, and the adjusted close is the one read. |
| Ratios.MarketToBookQuotient | concat.py:174-179 | Dividing the adjusted close by the zero-on-failure book value per share gives m with m × equity = adjusted close × shares, or 0 when shares or equity is 0. |
| Ratios.DividendYieldQuotient | concat.py:181-182 | Dividing the zero-on-failure dividend rate by the adjusted close gives y with y × shares × adjusted close = dividends, or 0 when shares or adjusted close is 0. |
| Ratios.ComputeCell | concat.py:162-197 | A cell is an error record iff one of its eight fields is unconvertible; that record names the ticker and the first such field. Otherwise the cell holds ratios satisfying the relations listed for `ComputeRatios`. |
| Ratios.CalculateRatios | concat.py:157-197 | The output has exactly the input's dates, and under each date exactly the input's tickers. A cell fails iff its own record has an unconvertible field, and a failed cell names its own ticker. Every other cell holds ratios that fit its own record's amounts. |
| Ratios.CellIsolation | concat.py:159-197 | A cell's output depends only on its own ticker and record, so a failure elsewhere cannot change it. |
| Ratios.WorkedExample | concat.py:164-193 | Equity 100, net income 20, 10 shares and adjusted close 50 give ROE 0.2, market-to-book 5 and market cap 500. The absent fields read 0. |
| Pipeline.InjectedPriceIsRead | concat.py:171-192 | After concatenation, the ratio engine's adjusted close is the injected price, and the market cap is shares × that price. |
| ChunkFiles.NatToDigits | utils.py:32-38 | The decimal text of n is a non-empty digit string, and reading it back gives n. It has no leading zero unless it is "0". |
| ChunkFiles.ChunkName | utils.py:32-38 | `f"{i}.json"` passes the chunk-name filter, and its index reads back as i. It starts with '0' only for i = 0. |
| ChunkFiles.ChunkIndices | utils.py:20-27 | An index is listed iff some file in the listing is `<digits>.json` with that index. |
| ChunkFiles.MaxOf | utils.py:30-35 | The maximum is a member of the list and no smaller than any member. |
| ChunkFiles.FirstMissing | utils.py:30-32 | Returns the first index in lo..hi not among the indices. If it returns nothing, all of lo..hi are present. |
| ChunkFiles.NextIndex | utils.py:22-38 | The result is the smallest positive index not present: 1 for no indices, the first gap in 1..max, or max + 1. The exception is `None`, returned iff 1..54 are all present and nothing exceeds 54. |
| ChunkFiles.FirstMissingSameSet | utils.py:30-32 | Finding the first gap depends on the index list only as a set. |
| ChunkFiles.NextIndexSameSet | utils.py:27-38 | The chosen index depends on the index list only as a set, so sorting and duplicates do not matter. |
| ChunkFiles.NextChunkFile | utils.py:17-38 | With no valid name the result is `"1.json"`. A returned name is a valid chunk name with no leading zero. Its index is positive, not taken, and has every smaller positive index taken. `None` is returned iff chunks 1..54 exist and none is above 54. |
| ChunkFiles.OtherNamesIgnored | utils.py:20-27 | Names that are not `<digits>.json`, and the listing's order, never change the choice. |
| SplitJson.FlattenChunks | utils.py:56-57 | Concatenating the chunks in order gives back the key list. |
| SplitJson.ChunkShapes | utils.py:57 | Every chunk is non-empty with at most `chunk_size` keys, all but the last have exactly `chunk_size`, and the count is ⌈n / chunk_size⌉. |
| SplitJson.ChunkIsSlice | utils.py:57 | Chunk i is the slice `keys[i*size : i*size+size]`, clipped at the end of the list. |
| SplitJson.ChunksDisjoint | utils.py:57 | With distinct keys, no key appears in two chunks. |
| SplitJson.ChunkObject | utils.py:61 | A chunk's object has exactly the chunk's keys, each with its value from the input. |
| SplitJson.SplitFiles | utils.py:56-61 | A chunk size of 0 raises, and a negative one writes nothing. Otherwise files 1..count are written, file i has exactly the keys of chunk i, and each value is the input's. |
| SplitJson.SplitFilesCover | utils.py:56-61 | Every key of the input is written to some file. |
| SplitJson.SplitFilesDisjoint | utils.py:56-61 | No key is written to two files. |
| SplitJson.SplitFilesPartition | utils.py:56-61 | Every key of the input lands in exactly one written file. |

## Left out

- File and console I/O are not modelled: `open`, `json.load`/`json.dump`, `os.listdir`, `os.makedirs` and `print`. Inputs are parsed maps and sequences, and outputs are returned values. The `__main__` block of concat.py is left out for the same reason.
- `fetch_financial_data`, `aggregate_financial_data` and `main` are HTTP calls to the statements provider plus file orchestration, so they are not modelled.
- `process_financial_data` is a wrapper over a pandas inner join with suffixes and `to_numeric(errors="coerce")`. Those semantics live in a library outside this model.
- Floating point is not modelled. There is no IEEE rounding, overflow to infinity or NaN, and `float()` string syntax is abstracted into the `Value` datatype.
- Ratios.SafeDivide: the source returns the integer `0` on a zero divisor, which JSON writes as `0` rather than `0.0`. The model does not tell the two apart.
- `datetime.strptime` is not modelled. Dates are assumed well formed and are modelled as ordered integers. For the same reason, two spellings of one date cannot be told apart.
- AsOfFilter.FilterByDates: the order of the output's keys (the source sorts the targets) is not modelled, because maps have no order. `AsOfViewIsUnique` shows the contents do not depend on it.
- Concatenation.ConcatByDates: a missing price for a copied (date, ticker) pair raises `KeyError` in the source. Here it is a precondition (`PricesCover`).
- The in-place mutation at concat.py:118-119 is not modelled. It writes into the loaded ticker record, but each (date, ticker) pair is visited once, so it is not observable.
- Ratios.ComputeCell: the source's error record holds the exception's text, which includes the offending value. The model records the ticker and the first failing field instead.
- The informational log lines of `safe_get` and `safe_divide` are not modelled.
- TypeErrors raised when `quarterlyReports` is not a list or a report is not an object are not modelled. The model's types rule those shapes out.
- ChunkFiles.NextChunkFile: only ASCII digits are modelled. Python's `str.isdigit` also accepts other Unicode digits, some of which `int()` then rejects.
- SplitJson.SplitFiles: files already in the output folder are not modelled. The result is only the set of files this call writes.
- SplitJson.SplitFiles: the keyword default `chunk_size=8` is the constant `DefaultChunkSize`; the model always takes the size as an argument.
- StatementMerge.MergeQuarterly: the batch abort is not modelled. The loop over files in `merge_quarterly_data` has no `try`, so an error in one file aborts the whole call and later files are never merged. The model merges a single file, and its `Err` stands for that abort.
