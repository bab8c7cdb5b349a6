# Consumer complaints report: a Dafny model

This project models the reporting core of `consumer_complaints`, in Dafny.

The core takes records of consumer complaints and produces one summary row per
(year, product). Each row is `[product, year, number of complaints, number of distinct
companies, highest percentage of the complaints that went to a single company]`. The rows
are ordered by product.

Two parts of `src/consumer_complaints.py` are modelled:

- `max_percentage` (`percentages.dfy`, module `Percentages`). It counts the entries of a
  non-empty list and turns each count into a rounded percentage of the list length. It
  returns the largest of these. The rounding is exact rational arithmetic. The tie rule is
  a parameter: `HalfEven` is Python's `round` as the code calls it, and `HalfUp` is the
  convention its documentation states.
- The aggregation scan of `generate_report` (`report.dfy`, module `Report`).
  - `GenerateReport` walks the records with the same local variables as the source:
    `current_year`, `current_product`, `product_complaint_counter`, `at_least_one_complaint`,
    `bad_companies` and `summarized_data`.
  - One loop turn (`ScanRecord`) dispatches on the source's four branches:
    - `ContinueRun`: same key;
    - `SwitchRun`: new product, or new year;
    - `FinishScan`: the last record.
  - Each appended row is followed by the in-place sort by product, which is the stable
    insertion `InsertByProduct`.
  - Every function and method of the scan takes the tie rule as its first argument.
    `GenerateReport(HalfEven, …)` is the program as written. `GenerateReport(HalfUp, …)`
    is the program with the rounding its documentation states.
  - Every method is proved against a pure specification. `Grouping.Runs` cuts the records
    into maximal runs of equal (year, product) key. `Report.SummaryRow` maps a run to its
    row. `Report.StateAfter` gives the values of the local variables after the first `i`
    records.

`grouping.dfy` (module `Grouping`) holds the record, its key (year = text before the first
`-` of the date, product as stored) and the run partition. `lexicographic.dfy` holds
Python's ordering of `str` values, which the sorts use.

The scan is proved correct for input in any order: it emits one row per maximal run. The
input order the source produces with `sorted` matters only for the lemmas that talk about
distinct keys and ascending years. Those lemmas require `KeySorted`.

## Model

| member | source | states |
|---|---|---|
| Percentages.Round | src/consumer_complaints.py:40 | definition of `round(100 * count / len)` on exact rationals, under the given tie rule; see `RoundIsNearest` |
| Percentages.RoundIsNearest | src/consumer_complaints.py:33-40 | the rounded value is an integer nearest to a / n; an exact half goes up under `HalfUp` and to the even neighbour under `HalfEven` (Python's `round`) |
| Percentages.RoundsToUnique | src/consumer_complaints.py:33-40 | at most one integer meets that rounding specification, so the rounding is determined by it |
| Percentages.RoundMonotone | src/consumer_complaints.py:40 | a larger count never gets a smaller rounded percentage |
| Percentages.PercentBounds | src/consumer_complaints.py:40 | a count of at most the list length gives at most 100, and the whole list gives exactly 100 |
| Percentages.Count | src/consumer_complaints.py:37 | definition of the `Counter` value of one entry; see `CountBound` |
| Percentages.CountBound | src/consumer_complaints.py:37 | a `Counter` value is at most the list length, and at least 1 for an entry of the list |
| Percentages.MaxOf | src/consumer_complaints.py:43 | definition of `max` over a non-empty list; see `MaxOfIsMax` |
| Percentages.MaxOfIsMax | src/consumer_complaints.py:43 | `max` returns an element of its argument that no element exceeds |
| Percentages.MaxCount | src/consumer_complaints.py:37 | the largest count lies between 1 and the list length, no entry occurs more often, and some entry occurs that often |
| Percentages.MaxPercentage | src/consumer_complaints.py:18-43 | definition of `max_percentage`: the largest rounded percentage over the entries; see `MaxPercentageIsLargestShare` and `MaxPercentageOfMaxCount` |
| Percentages.MaxPercentageIsLargestShare | src/consumer_complaints.py:37-43 | `max_percentage` of a non-empty list is at most 100, no entry has a larger rounded share, and some entry has exactly that share |
| Percentages.MaxPercentageOfMaxCount | src/consumer_complaints.py:37-43 | `max_percentage` equals 100 × (largest count) / (length), rounded, under either tie rule |
| Percentages.UniformGivesHundred | src/testsuite.py:36-49 | a list made of a single repeated value, such as `["b","b","b","b"]`, `[1]` or `["a"]`, gives 100 |
| Percentages.TwoPairs | src/testsuite.py:53-54 | `["a","a","b","b"]` gives 50 |
| Percentages.TwoPairsAndOne | src/testsuite.py:57-58 | `["a","a","b","b","c"]` gives 40 |
| Percentages.AllDistinct | src/testsuite.py:61-62 | `["a","b","c"]` gives 33 |
| Percentages.TwoOfThree | src/consumer_complaints.py:22 | any list `[x, x, y]` with x ≠ y gives 67 under either tie rule |
| Percentages.TwoThirds | src/consumer_complaints.py:22 | the documented example `["a","a","b"]` gives 67 under both tie rules, not the 66 the documentation shows |
| Percentages.TieRoundsDownAsWritten | src/consumer_complaints.py:34-40 | five equal entries out of eight (62.5) give 62 with Python's `round` and 63 with the documented rule |
| Percentages.HalfPercent | src/consumer_complaints.py:34-40 | the boundary of the documented convention: 100 / 200 = 0.5 rounds to 1 with the documented rule and to 0 with Python's `round` |
| Percentages.RulesAgreeOffTies | src/consumer_complaints.py:34-40 | the two tie rules give the same result unless the largest share is exactly a half-integer |
| Lexicographic.StrLe | src/consumer_complaints.py:80 | definition of Python's `<=` on `str`, character by character, a proper prefix first; see `StrLeTotal`, `StrLeTrans`, `StrLeAntisym` |
| Lexicographic.StrLeTotal | src/consumer_complaints.py:80 | any two strings are ordered one way or the other by Python's `str` comparison |
| Lexicographic.StrLeTrans | src/consumer_complaints.py:80 | Python's `str` comparison is transitive |
| Lexicographic.StrLeAntisym | src/consumer_complaints.py:80 | two strings each not greater than the other are equal |
| Grouping.Year | src/consumer_complaints.py:105-107 | definition of `date_received.split("-")[0]`; see `YearIsFirstField` |
| Grouping.KeyOf | src/consumer_complaints.py:105-109 | definition of a record's (year, product) key; see `YearIsFirstField` and `Runs` |
| Grouping.YearIsFirstField | src/consumer_complaints.py:105-107 | the year is a prefix of the date that contains no `-`, and it is followed by a `-` unless it is the whole date |
| Grouping.KeyLe | src/consumer_complaints.py:80 | definition of the tuple order on (year, product); see `KeyLeTrans`, `KeyLeAntisym` |
| Grouping.KeyLeTrans | src/consumer_complaints.py:80 | the (year, product) tuple order is transitive |
| Grouping.KeyLeAntisym | src/consumer_complaints.py:80 | two keys each not greater than the other are equal |
| Grouping.Runs | src/consumer_complaints.py:101-332 | the runs are non-empty, there are none exactly when there are no records, and the last run ends with the last record |
| Grouping.RunsPartition | src/consumer_complaints.py:101-332 | the runs laid end to end give back the records; each run has one key; neighbouring runs have different keys |
| Grouping.SortedRunsAreKeys | src/consumer_complaints.py:80-332 | on input sorted by (year, product) there is exactly one run per distinct key |
| Grouping.SortedRunKeysAscend | src/consumer_complaints.py:80-332 | on sorted input the run keys strictly ascend |
| Report.DistinctBound | src/consumer_complaints.py:95-124 | a non-empty list of companies has between 1 and its length distinct companies |
| Report.RowData | src/consumer_complaints.py:134-135 | definition of the row built from product, year and `bad_companies`; see `SummaryRowMeaning` |
| Report.SummaryRow | src/consumer_complaints.py:134-135 | definition of a run's row, through `RowData`; see `SummaryRowMeaning` and `EmittedRowsMatchRuns` |
| Report.SummaryRowMeaning | src/consumer_complaints.py:134-135 | a run's row has the run's key and its length as count, between 1 and that many distinct companies, and the rounded share of its most frequent company (at most 100) |
| Report.RowsOfAt | src/consumer_complaints.py:134-138 | row j of the emission is the row of run j |
| Report.EmittedRowsMatchRuns | src/consumer_complaints.py:134-135 | every emitted row describes its own run and nothing else: key, count, distinct companies and top share are those of that run |
| Report.InsertByProduct | src/consumer_complaints.py:138-141 | definition of append followed by the stable sort by product; see `InsertPermutes`, `InsertKeepsOrder`, `InsertIsStable` |
| Report.OrderByProduct | src/consumer_complaints.py:138-146 | definition of the rows after each emission was appended and re-sorted; see `OrderByProductIsStableSort` |
| Report.InsertPermutes | src/consumer_complaints.py:138-141 | append-and-sort adds exactly the new row |
| Report.InsertKeepsOrder | src/consumer_complaints.py:138-141 | append-and-sort keeps `summarized_data` ordered by product |
| Report.InsertIsStable | src/consumer_complaints.py:138-141 | append-and-sort puts the new row after the rows of its own product and keeps the rows of every product in their order |
| Report.InsertAtEnd | src/consumer_complaints.py:138-141 | a row whose product is not below any other goes to the end |
| Report.ResortIsIdentity | src/consumer_complaints.py:141-146 | sorting a list already ordered by product changes nothing, so the second sort in a row is a no-op |
| Report.OrderByProductIsStableSort | src/consumer_complaints.py:138-146 | the repeated append-and-sort yields the emitted rows ordered by product, as a permutation, with each product's rows in emission order |
| Report.TotalOrdered | src/consumer_complaints.py:138-141 | sorting leaves the sum of the counts unchanged |
| Report.TotalOfRuns | src/consumer_complaints.py:116-124 | the counts of the runs' rows add up to the number of records in the runs |
| Report.SummarizedData | src/consumer_complaints.py:86-332 | definition of the report: an error on empty input, else the emitted rows ordered by product; see `ReportShape` and `GenerateReport` |
| Report.ReportShape | src/consumer_complaints.py:101-332 | the report has one row per run; its counts sum to the number of records; it is ordered by product, with each product's rows in emission order; every row has 1 ≤ distinct ≤ count and a top share ≤ 100 |
| Report.SortedReportRowPerKey | src/consumer_complaints.py:80-332 | on sorted input the report has one row per distinct (year, product) |
| Report.SortedEmissionAscends | src/consumer_complaints.py:80-332 | on sorted input the rows are emitted in strictly ascending (year, product) order |
| Report.SortedReportYearsAscend | src/consumer_complaints.py:80-146 | on sorted input the rows of one product appear in the report in strictly ascending year |
| Report.SingleRecord | src/consumer_complaints.py:86-240 | one record gives the single row `[product, year, 1, 1, 100]` |
| Report.ThreeRecordReport | src/consumer_complaints.py:86-240 | three records of one (year, product), two against one company and one against another, give the single row `[product, year, 3, 2, 67]` under either tie rule |
| Report.StateAfter | src/consumer_complaints.py:86-124 | before any record, the key is the first record's and nothing is accumulated; afterwards the key is that of the last record read, the counter is the length of `bad_companies` and the set holds its distinct entries; after all records `summarized_data` is the ordered report |
| Report.FirstRecord | src/consumer_complaints.py:93-124 | the first record is counted into empty accumulators under the first record's key |
| Report.FirstRecordState | src/consumer_complaints.py:86-124 | after the first record the key is that record's, the counter is 1, the set and the list hold its company alone, and `summarized_data` is empty unless that record was the last |
| Report.StepSameKey | src/consumer_complaints.py:112-124 | a record of the current key adds one to the count, its company to the set and to the list, and changes neither the key nor the rows emitted so far (except at the last record, which closes the run) |
| Report.NewKeyOpensRun | src/consumer_complaints.py:154-332 | after a change of key the accumulators hold the new record alone, so nothing of the previous group leaks into the next |
| Report.StepNewKey | src/consumer_complaints.py:130-332 | a change of key inserts the row of the run just closed and restarts the accumulators from the new record |
| Report.ClosedBeforeLast | src/consumer_complaints.py:130-214 | a change of key before the last record inserts the row of the run in progress, built from the accumulators, into `summarized_data` |
| Report.ClosedAtLast | src/consumer_complaints.py:243-332 | a change of key at the last record inserts the closed run's row and then the row of the new record alone |
| Report.CloseBothRuns | src/consumer_complaints.py:243-332 | at the last record after a change of key, the rows of both the closed run and the one-record run are inserted |
| Report.CountRecord | src/consumer_complaints.py:116-124 | the counter grows by one, the company joins the set and is appended to the list |
| Report.RestartRun | src/consumer_complaints.py:154-168 | after clearing and seeding, the accumulators hold exactly the one company |
| Report.EmitRow | src/consumer_complaints.py:134-141 | the row built from the accumulators, with the distinct count taken from the set, is inserted stably by product |
| Report.ContinueRun | src/consumer_complaints.py:112-124 | a same-key record before the last moves the accumulators to their state after that record |
| Report.SwitchRun | src/consumer_complaints.py:130-214 | a new-key record before the last emits the closed run's row and moves every variable to its state after that record, with the key set to the new record's |
| Report.FinishScan | src/consumer_complaints.py:217-332 | at the last record, under either branch, `summarized_data` becomes the full report |
| Report.ScanRecord | src/consumer_complaints.py:103-332 | one loop turn moves every variable from its state after i records to its state after i + 1 |
| Report.GenerateReport | src/consumer_complaints.py:86-332 | the scan yields exactly the specified report; it fails exactly on an empty input, where `sorted_data[0]` raises |

## Left out

- Reading and writing the CSV files (lines 73-75 and 337-341) and the `main` entry point
  with `sys.argv` (lines 351-361) are not part of this model. They are I/O.
  `GenerateReport` returns the rows that line 341 writes, since `generate_report` itself
  returns nothing.
- Python's `sorted` at line 80 is not modelled: the records arrive in the order it would
  produce. The methods accept any order. The lemmas that depend on the order require
  `KeySorted`.
- Floating-point division at line 40 is replaced by exact rational rounding. Near a tie,
  where a quotient is not exact in binary, the float result could fall on the other side
  of the tie from the exact one.
- Percentages.MaxPercentage: requires a non-empty list. `max_percentage([])` raises
  `ValueError` at line 43 (`max` of an empty sequence), and that error path is not
  modelled. The scan calls it only on a `bad_companies` that holds at least one company.
- Report.ScanRecord: after the last record, only `summarized_data` is stated. The final
  values of the other locals are not used by the source and are not tracked.
- The in-place `append`, `clear` and `add` on the lists and the set are modelled as new
  values assigned to local variables. Nothing else holds a reference to them.
- The test suite imports `is_correct_date_format`, which does not exist in
  `src/consumer_complaints.py`. No date validation is modelled, and no lower-casing of
  products.
- The test suite's `assertTrue(value, expected)` calls do not compare their arguments. The
  lemmas state the comparisons those tests evidently intend.

## Findings

| source | as written | input that shows it | evidently intended | confidence | as-written member | corrected member |
|---|---|---|---|---|---|---|
| src/consumer_complaints.py:40 | `round(...)` rounds an exact half to the even neighbour | `[1, 1, 1, 1, 1, 2, 3, 4]`: the top share is 5/8 = 62.5, which is exact in binary floating point, and it gives 62 | 63, since line 34 says a half rounds up | high; not executed | Percentages.TieRoundsDownAsWritten | Percentages.RoundIsNearest |
