# Stock-rank watcher — a Dafny model

The watcher reads the screener's "near all-time-high" list page by page every
hour. Each company it finds becomes a snapshot entry, keyed by company name.
An entry holds:

- the company's rank;
- its decline from the 52-week high;
- its decline from the all-time high;
- a TradingView chart link;
- a "gem" flag.

Every entry is written to the `stock_positions` SQLite table. The watcher then
compares the snapshot with the one it kept from an earlier hour. For each
company both snapshots hold, it logs gems, rewrites the company's row with an
`UPDATE`, and stops at the first company whose rank improved by at least two
places into the top nineteen. When such a company is reported, the watcher
notifies the user, opens the company's chart, and keeps the new snapshot for
the next hour.

The model covers that engine, module by module:

- `Wrappers` holds `Option` and `Result`, plus `MapAll`, which maps a function
  over rows and stops at the first error.
- `PyDict` is Python's `dict`. A key keeps the place of its first insertion,
  and a later assignment overwrites the value.
- `PyText` covers `str.strip()`, `str.rstrip('.')` and `int()`.
- `CompanyId` is `extract_company_id`, written out as the leftmost-match scan
  the regular expression performs.
- `Records` holds the snapshot entry, the table row, the gem classifier and
  the promotion rule.
- `Store` is the table. It is a class holding a `map` from company name to
  row, with one method for each SQL statement the watcher runs.
- `Builder` is `get_all_stock_positions`:
  - The page loop (`while True` with its `break`) and the row loop are
    methods.
  - Each method is proved against `Collect`, which reads the used rows in
    order; the first row that cannot be read decides the error.
  - The page loop is proved for any row reader; the builder passes
    `ParseRow`.
  - The closing `INSERT OR REPLACE` loop is proved against `UpsertAll`.
- `Detector` is `check_for_position_change`, a loop with an early return.
  - It is proved against `Detect` (the verdict), `Visited` (the keys the loop
    looks at), `GemLog` (the gem log lines) and `ApplyUpdates` (the table
    afterwards).
- `Watcher` is one turn of the main loop. It builds the snapshot, runs the
  detector, and either keeps the old snapshot or replaces it. The `if
  company:` test is Python truthiness, so a report for an empty company name
  counts as no report.

Inputs the model takes as given:

- The screener pages arrive already parsed. Page `p` is `pages[p - 1]`, and a
  page past the end of the input is empty.
- The decline from the all-time high is an input number. The all-time high is
  kept only for the division-by-zero error.

## Model

| member | source | states |
|---|---|---|
| Builder.GetAllStockPositions | main.py:40-91 | returns `Collect(pages)`; on success the table is the old table with every snapshot entry upserted in key order; on an error the table is unchanged |
| Builder.ReadPages | main.py:41-52 | the `while True` page loop (with `page_num` and its `break`) returns exactly the used rows read into `{}` in order, or the first row error |
| Builder.ReadPage | main.py:54-81 | reading a non-empty page below the ceiling either fails with the error of the whole cycle or advances the loop state to the next page |
| Builder.ReadRows | main.py:54-79 | the `for row in rows` loop assigns each row's entry to its name in order and stops with the first row that cannot be read |
| Builder.UpsertEntries | main.py:84-88 | the `INSERT OR REPLACE` loop leaves the table equal to `UpsertAll` over the snapshot's keys in order |
| Builder.ReadIntoStep | main.py:54-79 | one more row read is that row's error or its entry assigned to its name |
| Builder.ReadIntoFailFast | main.py:54-79 | after a row that cannot be read, the remaining rows change nothing |
| Builder.ReadIntoAppend | main.py:44-81 | reading two runs of rows is reading the first, then the second into its result |
| Builder.ReadPageStep | main.py:54-81 | the rows up to page `p` read into `{}` equal page `p` read into the dict of the earlier pages |
| Builder.LastUsedFromSpec | main.py:44-52 | from page `p` on, the loop uses consecutive non-empty pages and stops at the first empty one or at page 22 |
| Builder.UsedPagesSpec | main.py:41-52 | the builder uses pages 1..k with k < 22, all non-empty, and page k+1 is empty unless k+1 is 22 |
| Builder.UsedPagesReach | main.py:44-52 | a non-empty run of pages below 22 is used in full |
| Builder.UsedPagesEnd | main.py:51-52 | where the loop breaks, exactly the earlier pages were used |
| Builder.CollectFailsAt | main.py:54-79 | a failure while reading page `p` is the cycle's failure |
| Builder.CollectEndsAt | main.py:51-52 | at the break, the used rows are the rows of the earlier pages |
| Builder.PageLoopStart | main.py:41-42 | the loop starts at page 1 with an empty dict |
| Builder.PageLoopNext | main.py:54-81 | a page read either yields the cycle's error or the loop state for the next page |
| Builder.PageLoopEnd | main.py:51-52 | at the break, the dict held is the cycle's snapshot |
| Builder.RowsUpToPrefix | main.py:44-81 | the rows of fewer pages are a prefix of the rows of more pages |
| Builder.ParseRow | main.py:55-79 | defines how one row is read: the zero all-time high raises first, then the rank conversion; its properties are stated by Builder.ParseRowRank, Builder.ChartUrlOfCompanyLink, Builder.AddRowsClassified and Builder.CollectSpec |
| Builder.ParseRowRank | main.py:55-74 | a rank cell holding `str(n)`, any trailing full stops and any surrounding whitespace reads as position `n` when the all-time high is not zero |
| Builder.ChartUrlOfCompanyLink | main.py:58-61 | a `/company/<id>/...` link gives the chart URL for `<id>` |
| Builder.AddRowsOutcome | main.py:54-79 | reading rows succeeds exactly when every row can be read |
| Builder.ItemsOfRows | main.py:54-79 | the i-th item read is row i's name and entry |
| Builder.AddRowsNames | main.py:57-73 | the snapshot's names are exactly the stripped names of the rows |
| Builder.AddRowsLastWins | main.py:73-79 | a name holds the entry of the last row that carries it |
| Builder.AddRowsClassified | main.py:71-79 | every entry's gem flag is the classifier applied to its own declines |
| Builder.CollectSpec | main.py:40-91 | the cycle succeeds exactly when every used row reads; its names are the used rows' names; each holds its last row's entry; every gem flag is the classifier's |
| Builder.LastWith | main.py:73 | every row has a last row with the same name at or after it |
| Store.UpdateRow | main.py:105-111 | the `UPDATE` rewrites only the named row: new values, `old_position` is the row's position before the statement, `new_position` is the new position; with no such row the table is unchanged |
| Store.UpsertAll | main.py:84-88 | defines the table after the upsert loop; its effect is stated by Store.UpsertAllEffect, Store.UpsertSnapshot and Store.UpsertAllIdempotent |
| Store.Table.InsertOrReplace | main.py:84-88 | the named row is replaced whole by the entry's values with NULL old and new positions |
| Store.Table.UpdatePositions | main.py:105-111 | the table becomes `UpdateRow` of the old table |
| Store.UpsertAllStep | main.py:84-88 | one more upsert writes the fresh row of that name |
| Store.UpsertAllEffect | main.py:84-88 | after the upserts, the names present are the old ones plus the upserted ones; each upserted name holds a fresh row; every other row is unchanged |
| Store.UpsertSnapshot | main.py:84-88 | upserting a snapshot gives every company it holds a fresh row and leaves other rows alone |
| Store.UpsertAllIdempotent | main.py:84-88 | running the upserts twice equals running them once |
| Detector.CheckForPositionChange | main.py:93-117 | returns `Detect`; the gem lines are `GemLog` over the visited keys; the table is `ApplyUpdates` over the visited keys |
| Detector.VisitKey | main.py:95-115 | for a company in both snapshots: its gem line, its `UPDATE`, and the promotion test; other keys change nothing |
| Detector.Detect | main.py:93-117 | defines the detector's verdict; its meaning is stated by Detector.DetectSpec, Detector.DetectFindsFirst and Detector.NoSelfPromotion |
| Detector.ApplyUpdates | main.py:95-111 | defines the table after the visited companies' `UPDATE`s; its effect is stated by Detector.ApplyUpdatesEffect and Detector.CycleRows |
| Detector.VisitStep | main.py:94-115 | visiting one more key extends the gem log and the updates by that key's part |
| Detector.FirstFrom | main.py:94-115 | a found index is at or after the start and qualifies |
| Detector.FirstFromSpec | main.py:94-115 | the search finds the first qualifying key at or after the start, or none exists |
| Detector.DetectSpec | main.py:93-117 | nothing is reported iff no key of the current snapshot is in the previous one with a rank change the rule accepts; otherwise the report is the first such key in current order, with `previous[name]` and `current[name]` |
| Detector.DetectFindsFirst | main.py:94-115 | the first qualifying key is the one reported |
| Detector.NoSelfPromotion | main.py:114 | a snapshot compared with itself reports nothing |
| Detector.Visited | main.py:94-115 | the visited keys are a prefix of the current snapshot's keys |
| Detector.VisitedSpec | main.py:94-117 | all keys are visited when nothing is reported; otherwise the visit ends at the reported company |
| Detector.VisitedDistinct | main.py:94 | each company is visited once |
| Detector.ApplyUpdatesEffect | main.py:95-111 | each visited company of the previous snapshot gets its row rewritten once; every other row is unchanged and no row is added |
| Detector.CycleRows | main.py:84-111 | after a whole cycle, every visited company in both snapshots has `old_position == new_position ==` its current rank; the other current companies keep the fresh row; rows for other names are unchanged |
| Detector.GemLogSpec | main.py:98-102 | the gem log lists exactly the visited companies in both snapshots whose current entry is a gem, each with its current decline |
| Detector.ScenarioPromotion | main.py:114-115 | A from 6 to 3 is reported; B, after it, is not visited |
| Records.GemIsStrict | main.py:71 | equal figures are not a gem; the relation is asymmetric and strict |
| Records.IsGem | main.py:71 | the classifier `percent_down_high > down_52_high`; its strictness is stated by Records.GemIsStrict |
| Records.Promoted | main.py:114 | the promotion rule; its simplified form and boundary cases are stated by Records.PromotionRule and Records.PromotionExamples |
| Records.PromotionRule | main.py:114 | the rule holds iff the rank improved by at least 2 and the new rank is below 20 |
| Records.PromotionExamples | main.py:114 | (5,4) no, (5,3) yes, (25,22) no, (21,20) no, (21,19) yes |
| Records.NoPromotionInPlace | main.py:114 | an unchanged rank is never promoted |
| CompanyId.NextSlash | main.py:120 | the index found is the first slash at or after the start, or the end |
| CompanyId.ExtractCompanyId | main.py:119-123 | the leftmost-match search; its meaning against the pattern is stated by CompanyId.ExtractIsLeftmostMatch and CompanyId.ExtractFindsLeftmost |
| CompanyId.MatchAtExact | main.py:120 | trying the pattern at one index returns `seg` iff `/company/` + `seg` + `/` stands there with `seg` non-empty and slash-free |
| CompanyId.SearchFromLeftmost | main.py:120-123 | the search from `i` returns the leftmost match at or after `i`, or None when there is none |
| CompanyId.ExtractIsLeftmostMatch | main.py:119-123 | a result is a non-empty, slash-free segment of a match with no match further left; None means no match anywhere |
| CompanyId.ExtractFindsLeftmost | main.py:119-123 | the leftmost match's segment is the result |
| CompanyId.MatchShape | main.py:120 | where a match's slashes stand |
| CompanyId.ExtractExamples | main.py:119-123 | `/company/TCS/consolidated/` gives `TCS`; `/company/TCS` and `/company//x/` give None |
| PyText.TrimStartSpec | main.py:55-57 | leading whitespace is removed, all of it and nothing else |
| PyText.TrimEndSpec | main.py:55-57 | trailing whitespace is removed, all of it and nothing else |
| PyText.TrimDotsSpec | main.py:55 | trailing full stops are removed, all of them and nothing else |
| PyText.StripSpec | main.py:55-57 | strip keeps the middle of the text, with no whitespace at either end |
| PyText.DigitsIsRun | main.py:74 | the decimal digits of `n` form a digit run of value `n` |
| PyText.StripUnchanged | main.py:55 | text without whitespace at its ends is its own strip |
| PyText.DecimalShape | main.py:74 | a printed integer starts with no whitespace and ends in a digit |
| PyText.ParseIntDecimal | main.py:74 | `int(str(n)) == n` |
| PyText.DotEndsNoRun | main.py:55-74 | a digit run never ends in a full stop |
| PyText.ParseIntRejectsDot | main.py:55-74 | `int()` refuses a label ending in a full stop |
| PyText.RankLabelDecimal | main.py:55-74 | `int("<n>.".strip().rstrip('.')) == n` |
| PyText.Strip | main.py:55-57 | `str.strip()`; stated by PyText.StripSpec and PyText.TrimStartSkips / PyText.TrimEndSkips |
| PyText.TrimDots | main.py:55 | `str.rstrip('.')`; stated by PyText.TrimDotsSpec and PyText.TrimDotsSkips |
| PyText.ParseInt | main.py:74 | `int()` in base 10; its round trip with `str()` is stated by PyText.ParseIntDecimal, its refusal of a trailing full stop by PyText.ParseIntRejectsDot |
| PyText.TrimStartSkips | main.py:55-57 | `lstrip()` passes over any whitespace prefix |
| PyText.TrimEndSkips | main.py:55-57 | `rstrip()` passes over any whitespace suffix |
| PyText.TrimDotsSkips | main.py:55 | `rstrip('.')` passes over any suffix of full stops |
| PyText.RankLabelPadded | main.py:55-74 | a cell holding `str(n)`, any full stops after it and whitespace around reads back as `n` through strip, `rstrip('.')` and `int()` |
| PyDict.Empty | main.py:42 | `{}` is a valid empty dict |
| PyDict.Set | main.py:73 | assignment stores the value; a present key keeps its place, a new key goes last, other keys are unchanged |
| PyDict.SetAll | main.py:54-79 | the assignments keep the dict valid and its key order extends the old one |
| PyDict.SetAllSnoc | main.py:73 | one more item is one more assignment |
| PyDict.SetAllAppend | main.py:44-81 | assigning two runs of items is assigning the first, then the second |
| PyDict.ItemKeysSpec | main.py:73 | the keys the items carry are exactly the item keys |
| PyDict.SetAllKeys | main.py:73 | the keys afterwards are the old keys plus the item keys |
| PyDict.SetAllLastWins | main.py:73 | a key holds the value of the last item carrying it |
| PyDict.SetAllUntouched | main.py:73 | a key no item carries keeps its value |
| PyDict.SetAllHas | main.py:73 | a key is present afterwards iff it was before or an item carries it |
| PyDict.SetAllOrder | main.py:73-84 | a new key is placed after every key inserted before it |
| Wrappers.MapAll | main.py:54-79 | on success there is one result per row |
| Wrappers.MapAllOutcome | main.py:54-79 | success iff every row succeeds, each result in place; otherwise the error of the first row that fails |
| Wrappers.MapAllSnoc | main.py:54-79 | one more row that reads extends the results |
| Wrappers.MapAllSnocErr | main.py:54-79 | one more row that fails gives its error |
| Wrappers.MapAllAppend | main.py:44-81 | mapping two runs is mapping the first, then the second |
| Wrappers.MapAllErrorPersists | main.py:54-79 | once a row has failed, later rows do not change the outcome |
| Watcher.RunTurn | main.py:127-148 | one turn: a build error ends the program with the table unchanged; otherwise the report is `Detect`, the gem lines and table are the detector's, the chart opened is the reported company's, and the kept snapshot is rotated only on a report |
| Watcher.NextPrevious | main.py:131-148 | defines the snapshot kept for the next turn; stated by Watcher.QuietTurnKeepsSnapshot, Watcher.ReportRotates, Watcher.EmptyNameIsNotReported and Watcher.UnchangedScreenerIsQuiet |
| Watcher.QuietTurnKeepsSnapshot | main.py:129-148 | a turn with no qualifying company keeps the old snapshot and opens nothing |
| Watcher.ReportRotates | main.py:131-148 | a report for a named company keeps the current snapshot and opens its chart |
| Watcher.EmptyNameIsNotReported | main.py:131 | a report for the empty name is dropped by the truthiness test |
| Watcher.UnchangedScreenerIsQuiet | main.py:125-131 | comparing a snapshot with itself reports nothing and keeps it |

## Left out

- Fetching the screener pages (`requests.get`) and HTML parsing with
  BeautifulSoup are outside the model. The pages are given as already parsed
  rows, so a missing cell or link (an `AttributeError` or `IndexError` in
  Python) is not modelled.
- The float conversions of the price cells and the computation and rounding of
  the decline from the all-time high are floating point. That decline is an
  input `real`. Only the `ZeroDivisionError` for a zero all-time high is
  modelled, and it comes before the rank conversion, as in the source. A
  `ValueError` from `float()`, and NaN or infinite values, are not modelled.
- PyText.ParseInt: accepts ASCII digits only. Python's `int()` also accepts
  other Unicode decimal digits.
- PyText.ParseInt: accepts a digit run of any length. Python 3.11 and later
  refuse a decimal string of more than 4300 digits with a `ValueError`.
- Logging is not modelled as text. The gem log is returned as a sequence of
  `(name, decline)` notes, and the stock log line has no model.
- The desktop notification, the opening of the browser and `time.sleep(3600)`
  are outside the model. The browser is represented only by the link it would
  open. The endless `while True:` is modelled as one turn (`Watcher.RunTurn`).
- The start-up snapshot is taken by the same builder, `GetAllStockPositions`.
  `RunTurn` receives the kept snapshot as a parameter.
- An exception ends the Python program. The model returns it as `Err`.
- SQLite details are not modelled: the connection, table creation,
  `conn.commit()`, the `created_at`/`modified_at` timestamp columns, and
  integer width. Integers are unbounded.
- `gem is True` is modelled as a boolean test. This is exact, since the flag is
  always a Python `bool`.
- Builder.ReadPages: it and the lemmas about the page loop are proved for any
  row reader. Only `Builder.GetAllStockPositions` fixes the reader to
  `ParseRow`.
