/**
 The aggregation pass of `generate_report` (src/consumer_complaints.py): one scan over the
 records, already sorted by (year, product), that emits a row per maximal run of equal key
 and keeps the emitted rows ordered by product. Reading and writing the CSV files is not
 part of this model; the records arrive as a sequence and the rows leave as one. Every
 function and method takes the tie rule of `max_percentage` first: `HalfEven` is the program
 as written, `HalfUp` the rounding its documentation states.
 */
module Report {
  import opened Lexicographic
  import opened Percentages
  import opened Grouping

  /** One report line `[product, year, count, distinct companies, max_percentage]`. */
  datatype Row = Row(product: string, year: string, complaints: nat, companies: nat, topShare: nat)

  /** The only failure of the pass: no record at all (`sorted_data[0]` raises IndexError). */
  datatype Error = EmptyInput

  datatype Result<T> = Ok(value: T) | Err(error: Error)

  /** The company of every record of a run, in order: `bad_companies` once the run is closed. */
  function CompaniesOf(run: seq<Complaint>): seq<string>
  {
    seq(|run|, i requires 0 <= i < |run| => run[i].company)
  }

  /** The distinct values of a list: `at_least_one_complaint`. */
  function Distinct(cs: seq<string>): set<string>
  {
    set c | c in cs
  }

  /** Between one and |cs| distinct values occur in a non-empty list. */
  lemma {:induction false} DistinctBound(cs: seq<string>)
    ensures |Distinct(cs)| <= |cs|
    ensures cs != [] ==> |Distinct(cs)| >= 1
  {
    if cs != [] {
      var p := cs[..|cs| - 1];
      assert cs == p + [Last(cs)];
      DistinctBound(p);
      assert Distinct(cs) == Distinct(p) + {Last(cs)};
      assert Last(cs) in Distinct(cs);
    }
  }

  lemma DistinctSnoc(cs: seq<string>, c: string)
    ensures Distinct(cs + [c]) == Distinct(cs) + {c}
  {
  }

  /** The row `[current_product, current_year, counter, distinct, max_percentage]` built from
      the accumulators. */
  function RowData(mode: Rounding, product: string, year: string, bad: seq<string>): Row
    requires bad != []
  {
    Row(product, year, |bad|, |Distinct(bad)|, MaxPercentage(mode, bad))
  }

  /** The row emitted for a closed run, built from that run's records alone. */
  function SummaryRow(mode: Rounding, run: seq<Complaint>): Row
    requires run != []
  {
    RowData(mode, run[0].product, Year(run[0].dateReceived), CompaniesOf(run))
  }

  /** What a row says about its run: key, size, distinct companies between 1 and the size,
      and the rounded share of the most frequent company. */
  lemma SummaryRowMeaning(mode: Rounding, run: seq<Complaint>)
    requires run != []
    ensures var row := SummaryRow(mode, run);
      && Key(row.year, row.product) == RunKey(run)
      && row.complaints == |run|
      && 1 <= row.companies <= row.complaints
      && row.topShare == Round(mode, 100 * MaxCount(CompaniesOf(run)), |run|)
      && row.topShare <= 100
  {
    DistinctBound(CompaniesOf(run));
    MaxPercentageOfMaxCount(mode, CompaniesOf(run));
    MaxPercentageIsLargestShare(mode, CompaniesOf(run));
  }

  /** The rows of a sequence of runs, one per run, in emission order. */
  function RowsOf(mode: Rounding, runs: seq<seq<Complaint>>): seq<Row>
    requires forall i :: 0 <= i < |runs| ==> runs[i] != []
  {
    if runs == [] then [] else RowsOf(mode, runs[..|runs| - 1]) + [SummaryRow(mode, Last(runs))]
  }

  /** Row j of the emission is the summary of run j. */
  lemma {:induction false} RowsOfAt(mode: Rounding, runs: seq<seq<Complaint>>)
    requires forall i :: 0 <= i < |runs| ==> runs[i] != []
    ensures |RowsOf(mode, runs)| == |runs|
    ensures forall j :: 0 <= j < |runs| ==> RowsOf(mode, runs)[j] == SummaryRow(mode, runs[j])
  {
    if runs != [] {
      var init, rows := runs[..|runs| - 1], RowsOf(mode, runs);
      RowsOfAt(mode, init);
      assert rows == RowsOf(mode, init) + [SummaryRow(mode, Last(runs))];
      forall j | 0 <= j < |runs|
        ensures rows[j] == SummaryRow(mode, runs[j])
      {
        if j < |init| {
          assert rows[j] == RowsOf(mode, init)[j] && runs[j] == init[j];
        }
      }
    }
  }

  /** Every row the pass emits, in emission order. */
  function EmittedRows(mode: Rounding, s: seq<Complaint>): seq<Row>
  {
    RowsOf(mode, Runs(s))
  }

  /** Rows ordered by product, `row[0]`. */
  predicate SortedByProduct(rows: seq<Row>)
  {
    forall i, j :: 0 <= i < j < |rows| ==> StrLe(rows[i].product, rows[j].product)
  }

  /** `summarized_data.append(row)` followed by `summarized_data.sort(key=lambda row: row[0])`
      on a list already ordered by product: the stable sort leaves `row` after every row
      whose product is not greater than its own and before the others. */
  function InsertByProduct(rows: seq<Row>, row: Row): seq<Row>
  {
    if rows == [] then [row]
    else if StrLt(row.product, rows[0].product) then [row] + rows
    else [rows[0]] + InsertByProduct(rows[1..], row)
  }

  /** `summarized_data` after the given rows were appended one by one, each followed by the
      in-place sort by product. */
  function OrderByProduct(rows: seq<Row>): seq<Row>
  {
    if rows == [] then [] else InsertByProduct(OrderByProduct(rows[..|rows| - 1]), Last(rows))
  }

  /** The rows of product `p`, in order. */
  function WithProduct(rows: seq<Row>, p: string): seq<Row>
  {
    if rows == [] then []
    else (if rows[0].product == p then [rows[0]] else []) + WithProduct(rows[1..], p)
  }

  lemma {:induction false} WithProductAppend(a: seq<Row>, b: seq<Row>, p: string)
    ensures WithProduct(a + b, p) == WithProduct(a, p) + WithProduct(b, p)
  {
    if a == [] {
      assert a + b == b;
    } else {
      assert (a + b)[0] == a[0] && (a + b)[1..] == a[1..] + b;
      WithProductAppend(a[1..], b, p);
    }
  }

  /** A product smaller than the first of an ordered list occurs nowhere in it. */
  lemma {:induction false} WithProductBelow(rows: seq<Row>, p: string)
    requires SortedByProduct(rows) && rows != [] && StrLt(p, rows[0].product)
    ensures WithProduct(rows, p) == []
  {
    if |rows| > 1 {
      assert StrLe(rows[0].product, rows[1].product);
      StrLeTrans(p, rows[0].product, rows[1].product);
      if p == rows[1].product {
        StrLeAntisym(p, rows[0].product);
      }
      WithProductBelow(rows[1..], p);
    }
  }

  /** The append-and-sort step adds exactly `row`. */
  lemma {:induction false} InsertPermutes(rows: seq<Row>, row: Row)
    ensures multiset(InsertByProduct(rows, row)) == multiset(rows) + multiset{row}
  {
    if rows != [] && !StrLt(row.product, rows[0].product) {
      InsertPermutes(rows[1..], row);
      assert rows == [rows[0]] + rows[1..];
    }
  }

  /** Placing `row` in front of rows whose products are all at least its own keeps order. */
  lemma InsertFrontKeepsOrder(rows: seq<Row>, row: Row)
    requires SortedByProduct(rows) && rows != [] && StrLt(row.product, rows[0].product)
    ensures SortedByProduct([row] + rows)
  {
    var r := [row] + rows;
    forall j | 0 < j < |r| ensures StrLe(row.product, r[j].product) {
      if j > 1 {
        StrLeTrans(row.product, rows[0].product, rows[j - 1].product);
      }
    }
  }

  /** Whatever lands behind the first row of an ordered list has a product at least its own. */
  lemma InsertBehindHead(rows: seq<Row>, row: Row)
    requires SortedByProduct(rows) && rows != [] && !StrLt(row.product, rows[0].product)
    ensures forall j :: 0 <= j < |InsertByProduct(rows[1..], row)| ==>
      StrLe(rows[0].product, InsertByProduct(rows[1..], row)[j].product)
  {
    var tail := rows[1..];
    var t := InsertByProduct(tail, row);
    InsertPermutes(tail, row);
    assert StrLe(rows[0].product, row.product) by {
      StrLeTotal(row.product, rows[0].product);
      if row.product == rows[0].product {
        StrLeRefl(row.product);
      }
    }
    forall j | 0 <= j < |t| ensures StrLe(rows[0].product, t[j].product) {
      assert t[j] in multiset(t);
      if t[j] != row {
        assert t[j] in multiset(tail);
        var k :| 0 <= k < |tail| && tail[k] == t[j];
        assert rows[k + 1] == tail[k];
      }
    }
  }

  /** The append-and-sort step keeps the list ordered by product. */
  lemma {:induction false} InsertKeepsOrder(rows: seq<Row>, row: Row)
    requires SortedByProduct(rows)
    ensures SortedByProduct(InsertByProduct(rows, row))
  {
    if rows == [] {
    } else if StrLt(row.product, rows[0].product) {
      InsertFrontKeepsOrder(rows, row);
    } else {
      var tail := rows[1..];
      InsertKeepsOrder(tail, row);
      InsertBehindHead(rows, row);
      var t := InsertByProduct(tail, row);
      assert InsertByProduct(rows, row) == [rows[0]] + t;
    }
  }

  lemma WithProductSingle(row: Row, p: string)
    ensures WithProduct([row], p) == if row.product == p then [row] else []
  {
    assert [row][1..] == [];
  }

  /** Placing `row` in front of an ordered list whose products all exceed its own keeps the
      rows of every product in order. */
  lemma InsertFrontIsStable(rows: seq<Row>, row: Row, p: string)
    requires SortedByProduct(rows) && (rows == [] || StrLt(row.product, rows[0].product))
    ensures WithProduct(InsertByProduct(rows, row), p) == WithProduct(rows, p) + WithProduct([row], p)
  {
    var single := WithProduct([row], p);
    WithProductSingle(row, p);
    if rows == [] {
      assert WithProduct(rows, p) == [];
      assert [] + single == single;
    } else {
      assert InsertByProduct(rows, row) == [row] + rows;
      WithProductAppend([row], rows, p);
      var others := WithProduct(rows, p);
      if row.product == p {
        WithProductBelow(rows, p);
        assert single + [] == [] + single;
      } else {
        assert single == [];
        assert [] + others == others + [];
      }
    }
  }

  /** The append-and-sort step is stable: `row` lands after the rows of its own product and
      the rows of every other product keep their order. */
  lemma {:induction false} InsertIsStable(rows: seq<Row>, row: Row, p: string)
    requires SortedByProduct(rows)
    ensures WithProduct(InsertByProduct(rows, row), p) == WithProduct(rows, p) + WithProduct([row], p)
  {
    if rows == [] || StrLt(row.product, rows[0].product) {
      InsertFrontIsStable(rows, row, p);
    } else {
      SortedTail(rows);
      InsertIsStable(rows[1..], row, p);
      InsertBehindIsStable(rows, row, p);
    }
  }

  lemma SortedTail(rows: seq<Row>)
    requires SortedByProduct(rows) && rows != []
    ensures SortedByProduct(rows[1..])
  {
    forall i, j | 0 <= i < j < |rows| - 1 ensures StrLe(rows[1..][i].product, rows[1..][j].product) {
      assert rows[1..][i] == rows[i + 1] && rows[1..][j] == rows[j + 1];
    }
  }

  /** A row that goes past the head of the list leaves the head where it was. */
  lemma InsertBehindIsStable(rows: seq<Row>, row: Row, p: string)
    requires rows != [] && !StrLt(row.product, rows[0].product)
    requires WithProduct(InsertByProduct(rows[1..], row), p) == WithProduct(rows[1..], p) + WithProduct([row], p)
    ensures WithProduct(InsertByProduct(rows, row), p) == WithProduct(rows, p) + WithProduct([row], p)
  {
    var head, tail := rows[0], rows[1..];
    var ins := InsertByProduct(rows, row);
    assert ins == [head] + InsertByProduct(tail, row);
    assert ins[0] == head && ins[1..] == InsertByProduct(tail, row);
    var h: seq<Row> := if head.product == p then [head] else [];
    var w, single := WithProduct(tail, p), WithProduct([row], p);
    assert WithProduct(ins, p) == h + (w + single);
    assert WithProduct(rows, p) == h + w;
    assert h + (w + single) == (h + w) + single;
  }

  /** The repeated append-and-sort is a stable sort by product: ordered by product, a
      permutation of the emitted rows, and the rows of each product in emission order. */
  lemma {:induction false} OrderByProductIsStableSort(rows: seq<Row>)
    ensures SortedByProduct(OrderByProduct(rows))
    ensures multiset(OrderByProduct(rows)) == multiset(rows)
    ensures forall p :: WithProduct(OrderByProduct(rows), p) == WithProduct(rows, p)
  {
    if rows != [] {
      var init := rows[..|rows| - 1];
      assert rows == init + [Last(rows)];
      OrderByProductIsStableSort(init);
      InsertKeepsOrder(OrderByProduct(init), Last(rows));
      InsertPermutes(OrderByProduct(init), Last(rows));
      forall p ensures WithProduct(OrderByProduct(rows), p) == WithProduct(rows, p) {
        InsertIsStable(OrderByProduct(init), Last(rows), p);
        WithProductAppend(init, [Last(rows)], p);
      }
    }
  }

  /** A row whose product is not below any product of an ordered list goes to its end. */
  lemma {:induction false} InsertAtEnd(rows: seq<Row>, row: Row)
    requires forall i :: 0 <= i < |rows| ==> StrLe(rows[i].product, row.product)
    ensures InsertByProduct(rows, row) == rows + [row]
  {
    if rows != [] {
      if StrLt(row.product, rows[0].product) {
        StrLeAntisym(row.product, rows[0].product);
      }
      InsertAtEnd(rows[1..], row);
      assert rows == [rows[0]] + rows[1..];
    }
  }

  /** Sorting by product a list already ordered by product changes nothing: the second
      `summarized_data.sort` in a row, and each sort on a list ordered before the append,
      leave the rows where they are. */
  lemma {:induction false} ResortIsIdentity(rows: seq<Row>)
    requires SortedByProduct(rows)
    ensures OrderByProduct(rows) == rows
  {
    if rows != [] {
      var init := rows[..|rows| - 1];
      assert SortedByProduct(init) by {
        assert forall i :: 0 <= i < |init| ==> init[i] == rows[i];
      }
      ResortIsIdentity(init);
      InsertAtEnd(init, Last(rows));
      assert init + [Last(rows)] == rows;
    }
  }

  /** The total of the complaint counts. */
  function TotalComplaints(rows: seq<Row>): nat
  {
    if rows == [] then 0 else rows[0].complaints + TotalComplaints(rows[1..])
  }

  lemma {:induction false} TotalAppend(a: seq<Row>, b: seq<Row>)
    ensures TotalComplaints(a + b) == TotalComplaints(a) + TotalComplaints(b)
  {
    if a == [] {
      assert a + b == b;
    } else {
      assert (a + b)[0] == a[0] && (a + b)[1..] == a[1..] + b;
      TotalAppend(a[1..], b);
    }
  }

  lemma {:induction false} TotalInsert(rows: seq<Row>, row: Row)
    ensures TotalComplaints(InsertByProduct(rows, row)) == TotalComplaints(rows) + row.complaints
  {
    if rows != [] && !StrLt(row.product, rows[0].product) {
      TotalInsert(rows[1..], row);
    }
  }

  lemma {:induction false} TotalOrdered(rows: seq<Row>)
    ensures TotalComplaints(OrderByProduct(rows)) == TotalComplaints(rows)
  {
    if rows != [] {
      var init := rows[..|rows| - 1];
      assert rows == init + [Last(rows)];
      TotalOrdered(init);
      TotalInsert(OrderByProduct(init), Last(rows));
      TotalAppend(init, [Last(rows)]);
    }
  }

  /** Each run contributes its length, so the counts add up to the records the runs hold. */
  lemma {:induction false} TotalOfRuns(mode: Rounding, runs: seq<seq<Complaint>>)
    requires forall i :: 0 <= i < |runs| ==> runs[i] != []
    ensures TotalComplaints(RowsOf(mode, runs)) == |Flatten(runs)|
  {
    if runs != [] {
      TotalOfRuns(mode, runs[..|runs| - 1]);
      TotalAppend(RowsOf(mode, runs[..|runs| - 1]), [SummaryRow(mode, Last(runs))]);
    }
  }

  /** The report the pass produces for the sorted records `s`. */
  function SummarizedData(mode: Rounding, s: seq<Complaint>): Result<seq<Row>>
  {
    if s == [] then Err(EmptyInput) else Ok(OrderByProduct(EmittedRows(mode, s)))
  }

  /** Number of rows, conservation of complaints, per-row bounds, and order of the report. */
  lemma ReportShape(mode: Rounding, s: seq<Complaint>)
    requires s != []
    ensures var rows := SummarizedData(mode, s).value;
      && |rows| == |Runs(s)|
      && TotalComplaints(rows) == |s|
      && SortedByProduct(rows)
      && (forall p :: WithProduct(rows, p) == WithProduct(EmittedRows(mode, s), p))
      && (forall row :: row in rows ==> 1 <= row.companies <= row.complaints && row.topShare <= 100)
  {
    var emitted := EmittedRows(mode, s);
    var rows := OrderByProduct(emitted);
    RunsPartition(s);
    RowsOfAt(mode, Runs(s));
    OrderByProductIsStableSort(emitted);
    assert |rows| == |multiset(rows)| == |multiset(emitted)| == |emitted|;
    TotalOrdered(emitted);
    TotalOfRuns(mode, Runs(s));
    forall row | row in rows ensures 1 <= row.companies <= row.complaints && row.topShare <= 100 {
      assert row in multiset(emitted);
      var j :| 0 <= j < |emitted| && emitted[j] == row;
      SummaryRowMeaning(mode, Runs(s)[j]);
    }
  }

  /** Each emitted row describes exactly its own run: nothing of another run leaks in. */
  lemma EmittedRowsMatchRuns(mode: Rounding, s: seq<Complaint>)
    ensures |EmittedRows(mode, s)| == |Runs(s)|
    ensures forall j :: 0 <= j < |Runs(s)| ==>
      var row, run := EmittedRows(mode, s)[j], Runs(s)[j];
      && Key(row.year, row.product) == RunKey(run)
      && row.complaints == |run|
      && row.companies == |Distinct(CompaniesOf(run))|
      && 1 <= row.companies <= row.complaints
      && row.topShare == Round(mode, 100 * MaxCount(CompaniesOf(run)), |run|)
  {
    RowsOfAt(mode, Runs(s));
    forall j | 0 <= j < |Runs(s)|
      ensures 1 <= EmittedRows(mode, s)[j].companies <= EmittedRows(mode, s)[j].complaints
      ensures EmittedRows(mode, s)[j].topShare == Round(mode, 100 * MaxCount(CompaniesOf(Runs(s)[j])), |Runs(s)[j]|)
    {
      SummaryRowMeaning(mode, Runs(s)[j]);
    }
  }

  /** On records sorted by (year, product) the report has one row per distinct pair. */
  lemma SortedReportRowPerKey(mode: Rounding, s: seq<Complaint>)
    requires s != [] && KeySorted(s)
    ensures |SummarizedData(mode, s).value| == |KeysOf(s)|
  {
    ReportShape(mode, s);
    SortedRunsAreKeys(s);
  }

  /** On sorted records the rows are emitted in strictly ascending (year, product) order. */
  lemma SortedEmissionAscends(mode: Rounding, s: seq<Complaint>)
    requires KeySorted(s)
    ensures AscendingKeys(EmittedRows(mode, s))
  {
    var emitted := EmittedRows(mode, s);
    EmittedRowsMatchRuns(mode, s);
    SortedRunKeysAscend(s);
    forall i, j | 0 <= i < j < |emitted| ensures KeyLt(RowKey(emitted[i]), RowKey(emitted[j])) {
      assert RowKey(emitted[i]) == RunKey(Runs(s)[i]);
      assert RowKey(emitted[j]) == RunKey(Runs(s)[j]);
    }
  }

  /** On sorted records, the rows of one product appear in the report in ascending year. */
  lemma SortedReportYearsAscend(mode: Rounding, s: seq<Complaint>, p: string)
    requires s != [] && KeySorted(s)
    ensures var rows := WithProduct(SummarizedData(mode, s).value, p);
      forall i, j :: 0 <= i < j < |rows| ==> StrLt(rows[i].year, rows[j].year)
  {
    ReportShape(mode, s);
    SortedEmissionAscends(mode, s);
    AscendingFilter(EmittedRows(mode, s), p);
  }

  function RowKey(row: Row): Key
  {
    Key(row.year, row.product)
  }

  predicate KeyLt(k1: Key, k2: Key)
  {
    KeyLe(k1, k2) && k1 != k2
  }

  predicate AscendingKeys(rows: seq<Row>)
  {
    forall i, j :: 0 <= i < j < |rows| ==> KeyLt(RowKey(rows[i]), RowKey(rows[j]))
  }

  /** Keeping the rows of one product keeps keys strictly ascending, and rows of one product
      with strictly ascending keys have strictly ascending years. */
  lemma {:induction false} AscendingFilter(rows: seq<Row>, p: string)
    requires AscendingKeys(rows)
    ensures AscendingKeys(WithProduct(rows, p))
    ensures forall i, j :: 0 <= i < j < |WithProduct(rows, p)| ==>
      StrLt(WithProduct(rows, p)[i].year, WithProduct(rows, p)[j].year)
  {
    var f := WithProduct(rows, p);
    if rows != [] {
      var tail := rows[1..];
      assert AscendingKeys(tail) by {
        assert forall i :: 0 <= i < |tail| ==> tail[i] == rows[i + 1];
      }
      AscendingFilter(tail, p);
      var ft := WithProduct(tail, p);
      WithProductMembers(tail, p);
      if rows[0].product == p {
        assert f == [rows[0]] + ft;
        forall j | 0 <= j < |ft| ensures KeyLt(RowKey(rows[0]), RowKey(ft[j])) {
          var k :| 0 <= k < |tail| && tail[k] == ft[j];
          assert tail[k] == rows[k + 1];
        }
      }
    }
    forall i, j | 0 <= i < j < |f| ensures StrLt(f[i].year, f[j].year) {
      WithProductMembers(rows, p);
      assert f[i].product == p && f[j].product == p;
      assert KeyLt(RowKey(f[i]), RowKey(f[j]));
    }
  }

  lemma {:induction false} WithProductMembers(rows: seq<Row>, p: string)
    ensures forall j :: 0 <= j < |WithProduct(rows, p)| ==>
      WithProduct(rows, p)[j].product == p && WithProduct(rows, p)[j] in rows
  {
    if rows != [] {
      WithProductMembers(rows[1..], p);
    }
  }

  /** A single record gives the single row [product, year, 1, 1, 100]. */
  lemma SingleRecord(mode: Rounding, c: Complaint)
    ensures SummarizedData(mode, [c]) == Ok([Row(c.product, Year(c.dateReceived), 1, 1, 100)])
  {
    RunsSnoc([], c);
    assert [] + [c] == [c];
    assert Runs([c]) == [[c]];
    var companies := CompaniesOf([c]);
    assert companies == [c.company];
    assert Distinct(companies) == {c.company};
    UniformGivesHundred(mode, companies);
    var row := SummaryRow(mode, [c]);
    assert row == Row(c.product, Year(c.dateReceived), 1, 1, 100);
    assert [[c]][..0] == [];
    assert RowsOf(mode, [[c]]) == [row];
    assert OrderByProduct([row]) == InsertByProduct([], row) by {
      assert [row][..0] == [];
    }
  }

  /** Three complaints about one product in one year, two of them against the same company
      and one against another, give the single row [product, year, 3, 2, 67] under either
      tie rule. */
  lemma ThreeRecordReport(mode: Rounding, date1: string, date2: string, date3: string,
                          product: string, company: string, other: string)
    requires Year(date1) == Year(date2) == Year(date3) && company != other
    ensures SummarizedData(mode, [Complaint(date1, product, company),
                                  Complaint(date2, product, company),
                                  Complaint(date3, product, other)])
      == Ok([Row(product, Year(date1), 3, 2, 67)])
  {
    var a, b, c := Complaint(date1, product, company), Complaint(date2, product, company),
                   Complaint(date3, product, other);
    ThreeRecordRuns(a, b, c);
    ThreeRecordRow(mode, a, b, c);
    SingleRunRows(mode, [a, b, c]);
  }

  /** The row of a run of three records whose companies are x, x, y with x != y. */
  lemma ThreeRecordRow(mode: Rounding, a: Complaint, b: Complaint, c: Complaint)
    requires a.company == b.company != c.company
    ensures SummaryRow(mode, [a, b, c]) == Row(a.product, Year(a.dateReceived), 3, 2, 67)
  {
    var companies := CompaniesOf([a, b, c]);
    assert companies == [a.company, a.company, c.company];
    assert Distinct(companies) == {a.company, c.company};
    TwoOfThree(mode, a.company, c.company);
  }

  /** A single run gives a single row: the ordering has nothing to move. */
  lemma SingleRunRows(mode: Rounding, run: seq<Complaint>)
    requires run != []
    ensures OrderByProduct(RowsOf(mode, [run])) == [SummaryRow(mode, run)]
  {
    var row := SummaryRow(mode, run);
    assert [run][..0] == [];
    assert RowsOf(mode, [run]) == [row];
    assert OrderByProduct([row]) == [row] by {
      assert [row][..0] == [];
    }
  }


  /** Three records of one key form a single run. */
  lemma ThreeRecordRuns(a: Complaint, b: Complaint, c: Complaint)
    requires KeyOf(a) == KeyOf(b) == KeyOf(c)
    ensures Runs([a, b, c]) == [[a, b, c]]
  {
    RunsSnoc([], a);
    assert [] + [a] == [a];
    RunsSnoc([a], b);
    assert [a] + [b] == [a, b];
    RunsSnoc([a, b], c);
    assert [a, b] + [c] == [a, b, c];
  }

  lemma CompaniesSnoc(run: seq<Complaint>, c: Complaint)
    ensures CompaniesOf(run + [c]) == CompaniesOf(run) + [c.company]
  {
  }

  lemma RowsOfSnoc(mode: Rounding, runs: seq<seq<Complaint>>, run: seq<Complaint>)
    requires forall i :: 0 <= i < |runs| ==> runs[i] != []
    requires run != []
    ensures RowsOf(mode, runs + [run]) == RowsOf(mode, runs) + [SummaryRow(mode, run)]
  {
    assert (runs + [run])[..|runs|] == runs;
  }

  lemma OrderByProductSnoc(rows: seq<Row>, row: Row)
    ensures OrderByProduct(rows + [row]) == InsertByProduct(OrderByProduct(rows), row)
  {
    assert (rows + [row])[..|rows|] == rows;
  }

  /** Closing the last of the runs `rs` inserts its row into the rows of the others. */
  lemma CloseLastRun(mode: Rounding, rs: seq<seq<Complaint>>)
    requires rs != [] && forall i :: 0 <= i < |rs| ==> rs[i] != []
    ensures var run := Last(rs);
      OrderByProduct(RowsOf(mode, rs)) == InsertByProduct(OrderByProduct(RowsOf(mode, rs[..|rs| - 1])),
                                                    RowData(mode, run[0].product, Year(run[0].dateReceived), CompaniesOf(run)))
  {
    assert RowsOf(mode, rs) == RowsOf(mode, rs[..|rs| - 1]) + [SummaryRow(mode, Last(rs))];
    OrderByProductSnoc(RowsOf(mode, rs[..|rs| - 1]), SummaryRow(mode, Last(rs)));
  }

  /** The local variables of `generate_report` that the scan updates: `current_year`,
      `current_product`, `product_complaint_counter`, `at_least_one_complaint`,
      `bad_companies` and `summarized_data`. */
  datatype ScanState = ScanState(year: string, product: string, counter: nat, seen: set<string>,
                                 bad: seq<string>, summarized: seq<Row>)

  /** The state the scan is in after the first `i` of the records `s`. Before the first
      record the key is that of the first record and nothing is accumulated. Afterwards the
      accumulators describe the run in progress, whose key is that of the last record read,
      and `summarized_data` holds the rows of the runs already closed, ordered by product;
      after the last record, the rows of all runs. */
  function StateAfter(mode: Rounding, s: seq<Complaint>, i: nat): (st: ScanState)
    requires 0 < |s| && i <= |s|
    ensures i == 0 ==> st.bad == [] && st.summarized == [] && Key(st.year, st.product) == KeyOf(s[0])
    ensures i > 0 ==> st.bad != [] && Key(st.year, st.product) == KeyOf(s[i - 1])
    ensures st.counter == |st.bad| && st.seen == Distinct(st.bad)
    ensures i == |s| ==> st.summarized == OrderByProduct(EmittedRows(mode, s))
  {
    if i == 0 then
      assert Distinct([]) == {};
      ScanState(Year(s[0].dateReceived), s[0].product, 0, {}, [], [])
    else
      var p := s[..i];
      LastRunKey(p);
      assert Last(p) == s[i - 1];
      assert i == |s| ==> p == s;
      var rs := Runs(p);
      var run := Last(rs);
      var bad := CompaniesOf(run);
      ScanState(Year(run[0].dateReceived), run[0].product, |bad|, Distinct(bad), bad,
                OrderByProduct(RowsOf(mode, if i < |s| then rs[..|rs| - 1] else rs)))
  }

  /** The first record opens the first run: it alone is counted. */
  lemma {:induction false} FirstRecord(mode: Rounding, s: seq<Complaint>)
    requires 0 < |s|
    ensures var st, st', c := StateAfter(mode, s, 0), StateAfter(mode, s, 1), s[0];
      && st'.year == st.year && st'.product == st.product
      && st'.counter == st.counter + 1 && st'.seen == st.seen + {c.company} && st'.bad == st.bad + [c.company]
      && (1 < |s| ==> st'.summarized == st.summarized)
      && (1 == |s| ==> st'.summarized == InsertByProduct(st.summarized, RowData(mode, st.product, st.year, st'.bad)))
  {
    var c := s[0];
    FirstRecordState(mode, s);
    assert CompaniesOf([c]) == [c.company];
    assert InsertByProduct([], SummaryRow(mode, [c])) == [SummaryRow(mode, [c])];
  }

  /** After the first record, the accumulators hold that record alone, and `summarized_data`
      is still empty unless that record was the last. */
  lemma FirstRecordState(mode: Rounding, s: seq<Complaint>)
    requires 0 < |s|
    ensures var st, c := StateAfter(mode, s, 1), s[0];
      && st.year == Year(c.dateReceived) && st.product == c.product
      && st.counter == 1 && st.seen == {c.company} && st.bad == [c.company]
      && st.summarized == if 1 < |s| then [] else [SummaryRow(mode, [c])]
  {
    var c, st := s[0], StateAfter(mode, s, 1);
    assert Runs(s[..1]) == [[c]] by {
      assert s[..1] == [] + [c];
      RunsSnoc([], c);
    }
    StateOfRuns(mode, s, 1);
    assert st.bad == [c.company] by {
      assert CompaniesOf([c]) == [c.company];
    }
    assert st.seen == {c.company} by {
      DistinctSnoc([], c.company);
    }
    assert st.summarized == if 1 < |s| then [] else [SummaryRow(mode, [c])] by {
      if 1 < |s| {
        assert [[c]][..0] == [];
      } else {
        RowsOfSnoc(mode, [], [c]);
        OrderByProductSnoc([], SummaryRow(mode, [c]));
      }
    }
  }

  /** A record of the current key joins the run in progress: it is counted and its company
      remembered; at the last record that run is then closed and its row inserted. */
  lemma {:induction false} StepSameKey(mode: Rounding, s: seq<Complaint>, i: nat)
    requires i < |s| && Key(StateAfter(mode, s, i).year, StateAfter(mode, s, i).product) == KeyOf(s[i])
    ensures var st, st', c := StateAfter(mode, s, i), StateAfter(mode, s, i + 1), s[i];
      && st'.year == st.year && st'.product == st.product
      && st'.counter == st.counter + 1 && st'.seen == st.seen + {c.company} && st'.bad == st.bad + [c.company]
      && (i + 1 < |s| ==> st'.summarized == st.summarized)
      && (i + 1 == |s| ==> st'.summarized == InsertByProduct(st.summarized, RowData(mode, st.product, st.year, st'.bad)))
  {
    if i == 0 {
      FirstRecord(mode, s);
    } else {
      var c, p := s[i], s[..i];
      assert s[..i + 1] == p + [c];
      RunsSnoc(p, c);
      var rs := Runs(p);
      var rs' := Runs(p + [c]);
      var run := Last(rs) + [c];
      assert rs' == rs[..|rs| - 1] + [run];
      assert run[0] == Last(rs)[0];
      CompaniesSnoc(Last(rs), c);
      DistinctSnoc(CompaniesOf(Last(rs)), c.company);
      assert rs'[..|rs'| - 1] == rs[..|rs| - 1];
      if i + 1 == |s| {
        CloseLastRun(mode, rs');
      }
    }
  }

  /** A record of another key closes the run in progress, whose row is inserted by product,
      and opens a run of its own; at the last record that run is closed too. */
  lemma {:induction false} StepNewKey(mode: Rounding, s: seq<Complaint>, i: nat)
    requires i < |s| && Key(StateAfter(mode, s, i).year, StateAfter(mode, s, i).product) != KeyOf(s[i])
    ensures StateAfter(mode, s, i).bad != []
    ensures var st, st', c := StateAfter(mode, s, i), StateAfter(mode, s, i + 1), s[i];
      && st'.year == Year(c.dateReceived) && st'.product == c.product
      && st'.counter == 1 && st'.seen == {c.company} && st'.bad == [c.company]
      && var closed := InsertByProduct(st.summarized, RowData(mode, st.product, st.year, st.bad));
      && (i + 1 < |s| ==> st'.summarized == closed)
      && (i + 1 == |s| ==> st'.summarized == InsertByProduct(closed, RowData(mode, c.product, Year(c.dateReceived), [c.company])))
  {
    NewKeyOpensRun(mode, s, i);
    NewKeyClosesRun(mode, s, i);
  }

  /** After a change of key, the run in progress holds the new record alone. */
  lemma NewKeyOpensRun(mode: Rounding, s: seq<Complaint>, i: nat)
    requires i < |s| && Key(StateAfter(mode, s, i).year, StateAfter(mode, s, i).product) != KeyOf(s[i])
    ensures StateAfter(mode, s, i).bad != []
    ensures var st', c := StateAfter(mode, s, i + 1), s[i];
      && st'.year == Year(c.dateReceived) && st'.product == c.product
      && st'.counter == 1 && st'.seen == {c.company} && st'.bad == [c.company]
  {
    var c, p := s[i], s[..i];
    assert i > 0;
    assert s[..i + 1] == p + [c];
    RunsSnoc(p, c);
    assert Runs(p + [c]) == Runs(p) + [[c]];
    assert CompaniesOf([c]) == [c.company];
    DistinctSnoc([], c.company);
    assert Distinct([]) == {};
  }

  /** After a change of key, the row of the run just ended has been inserted, and at the
      last record also that of the new one-record run. */
  lemma NewKeyClosesRun(mode: Rounding, s: seq<Complaint>, i: nat)
    requires i < |s| && Key(StateAfter(mode, s, i).year, StateAfter(mode, s, i).product) != KeyOf(s[i])
    ensures StateAfter(mode, s, i).bad != []
    ensures var st, st', c := StateAfter(mode, s, i), StateAfter(mode, s, i + 1), s[i];
      var closed := InsertByProduct(st.summarized, RowData(mode, st.product, st.year, st.bad));
      && (i + 1 < |s| ==> st'.summarized == closed)
      && (i + 1 == |s| ==> st'.summarized == InsertByProduct(closed, RowData(mode, c.product, Year(c.dateReceived), [c.company])))
  {
    if i + 1 < |s| {
      ClosedBeforeLast(mode, s, i);
    } else {
      ClosedAtLast(mode, s, i);
    }
  }

  /** A change of key before the last record inserts the closed run's row. */
  lemma ClosedBeforeLast(mode: Rounding, s: seq<Complaint>, i: nat)
    requires i + 1 < |s| && Key(StateAfter(mode, s, i).year, StateAfter(mode, s, i).product) != KeyOf(s[i])
    ensures var st := StateAfter(mode, s, i);
      st.bad != [] && StateAfter(mode, s, i + 1).summarized
        == InsertByProduct(st.summarized, RowData(mode, st.product, st.year, st.bad))
  {
    var c, p := s[i], s[..i];
    assert i > 0;
    assert s[..i + 1] == p + [c];
    RunsSnoc(p, c);
    var rs := Runs(p);
    assert Runs(s[..i + 1]) == rs + [[c]];
    StateOfRuns(mode, s, i);
    StateOfRuns(mode, s, i + 1);
    assert (rs + [[c]])[..|rs|] == rs;
    CloseLastRun(mode, rs);
  }

  /** A change of key at the last record inserts the rows of the closed run and of the new
      one-record run. */
  lemma ClosedAtLast(mode: Rounding, s: seq<Complaint>, i: nat)
    requires i + 1 == |s| && Key(StateAfter(mode, s, i).year, StateAfter(mode, s, i).product) != KeyOf(s[i])
    ensures var st, c := StateAfter(mode, s, i), s[i];
      st.bad != [] && StateAfter(mode, s, i + 1).summarized
        == InsertByProduct(InsertByProduct(st.summarized, RowData(mode, st.product, st.year, st.bad)),
                           RowData(mode, c.product, Year(c.dateReceived), [c.company]))
  {
    var c, p := s[i], s[..i];
    assert i > 0;
    assert s[..i + 1] == p + [c];
    RunsSnoc(p, c);
    var rs := Runs(p);
    assert Runs(s[..i + 1]) == rs + [[c]];
    StateOfRuns(mode, s, i);
    StateOfRuns(mode, s, i + 1);
    CloseBothRuns(mode, rs, c);
  }

  /** The state after i > 0 records, read off the runs of those records: the run in
      progress is the last one, and every earlier run has been emitted. */
  lemma StateOfRuns(mode: Rounding, s: seq<Complaint>, i: nat)
    requires 0 < i <= |s|
    ensures var rs, st := Runs(s[..i]), StateAfter(mode, s, i);
      && rs != [] && Last(rs) != []
      && st.year == Year(Last(rs)[0].dateReceived) && st.product == Last(rs)[0].product
      && st.bad == CompaniesOf(Last(rs))
      && st.summarized == OrderByProduct(RowsOf(mode, if i < |s| then rs[..|rs| - 1] else rs))
  {
  }

  /** At the last record, after a change of key: the run in progress and the new
      one-record run are both closed. */
  lemma CloseBothRuns(mode: Rounding, rs: seq<seq<Complaint>>, c: Complaint)
    requires rs != [] && forall i :: 0 <= i < |rs| ==> rs[i] != []
    ensures var run := Last(rs);
      OrderByProduct(RowsOf(mode, rs + [[c]])) ==
        InsertByProduct(InsertByProduct(OrderByProduct(RowsOf(mode, rs[..|rs| - 1])),
                                        RowData(mode, run[0].product, Year(run[0].dateReceived), CompaniesOf(run))),
                        RowData(mode, c.product, Year(c.dateReceived), [c.company]))
  {
    var single := SummaryRow(mode, [c]);
    RowsOfSnoc(mode, rs, [c]);
    OrderByProductSnoc(RowsOf(mode, rs), single);
    assert CompaniesOf([c]) == [c.company];
    CloseLastRun(mode, rs);
  }

  /** Emitting the row of a closed run: `row_data` is built from the accumulators, appended
      to `summarized_data`, and the list re-sorted by product; on a list already ordered by
      product that re-sort is the stable insertion `InsertByProduct`. */
  method EmitRow(mode: Rounding, summarized: seq<Row>, product: string, year: string, counter: nat,
                 seen: set<string>, bad: seq<string>) returns (summarized': seq<Row>)
    requires bad != [] && counter == |bad| && seen == Distinct(bad)
    ensures summarized' == InsertByProduct(summarized, RowData(mode, product, year, bad))
  {
    var rowData := Row(product, year, counter, |seen|, MaxPercentage(mode, bad));
    summarized' := InsertByProduct(summarized, rowData);
  }

  /** Lines 116-124: count one more complaint and remember its company. */
  method CountRecord(counter: nat, seen: set<string>, bad: seq<string>, company: string)
      returns (counter': nat, seen': set<string>, bad': seq<string>)
    ensures counter' == counter + 1 && seen' == seen + {company} && bad' == bad + [company]
  {
    counter' := counter + 1;
    bad' := bad + [company];
    seen' := seen;
    if company !in seen' {
      seen' := seen' + {company};
    }
  }

  /** Lines 154-168: clear the accumulators, then count the record that opens the new run. */
  method RestartRun(company: string) returns (counter': nat, seen': set<string>, bad': seq<string>)
    ensures counter' == 1 && seen' == {company} && bad' == [company]
  {
    bad' := [];
    counter' := 0;
    seen' := {};
    bad' := bad' + [company];
    counter' := counter' + 1;
    seen' := seen' + {company};
  }

  /** Lines 112-124: a record of the current key, not the last one, is counted and its
      company remembered; the key and the emitted rows stay as they are. */
  method ContinueRun(mode: Rounding, s: seq<Complaint>, i: nat, counter: nat, seen: set<string>, bad: seq<string>)
      returns (counter': nat, seen': set<string>, bad': seq<string>)
    requires i + 1 < |s| && Key(StateAfter(mode, s, i).year, StateAfter(mode, s, i).product) == KeyOf(s[i])
    requires counter == StateAfter(mode, s, i).counter && seen == StateAfter(mode, s, i).seen && bad == StateAfter(mode, s, i).bad
    ensures counter' == StateAfter(mode, s, i + 1).counter && seen' == StateAfter(mode, s, i + 1).seen
    ensures bad' == StateAfter(mode, s, i + 1).bad
    ensures StateAfter(mode, s, i + 1).year == StateAfter(mode, s, i).year
    ensures StateAfter(mode, s, i + 1).product == StateAfter(mode, s, i).product
    ensures StateAfter(mode, s, i + 1).summarized == StateAfter(mode, s, i).summarized
  {
    StepSameKey(mode, s, i);
    counter', seen', bad' := CountRecord(counter, seen, bad, s[i].company);
  }

  /** Lines 130-171 and 174-214: a record of another key, not the last one, closes the run
      in progress (its row is emitted) and the accumulators restart from this record. */
  method SwitchRun(mode: Rounding, s: seq<Complaint>, i: nat, year: string, product: string, counter: nat,
                   seen: set<string>, bad: seq<string>, summarized: seq<Row>)
      returns (counter': nat, seen': set<string>, bad': seq<string>, summarized': seq<Row>)
    requires i + 1 < |s| && Key(year, product) != KeyOf(s[i])
    requires year == StateAfter(mode, s, i).year && product == StateAfter(mode, s, i).product
    requires counter == StateAfter(mode, s, i).counter && seen == StateAfter(mode, s, i).seen
    requires bad == StateAfter(mode, s, i).bad && summarized == StateAfter(mode, s, i).summarized
    ensures counter' == StateAfter(mode, s, i + 1).counter && seen' == StateAfter(mode, s, i + 1).seen
    ensures bad' == StateAfter(mode, s, i + 1).bad && summarized' == StateAfter(mode, s, i + 1).summarized
    ensures StateAfter(mode, s, i + 1).year == Year(s[i].dateReceived)
    ensures StateAfter(mode, s, i + 1).product == s[i].product
  {
    StepNewKey(mode, s, i);
    summarized' := EmitRow(mode, summarized, product, year, counter, seen, bad);
    counter', seen', bad' := RestartRun(s[i].company);
  }

  /** Lines 217-332: the last record. Of the current key, it is counted and the run closed;
      of another key, the run in progress is closed, the accumulators restart from this
      record, and its own run is closed as well. Afterwards `summarized_data` is the report. */
  method FinishScan(mode: Rounding, s: seq<Complaint>, i: nat, year: string, product: string, counter: nat,
                    seen: set<string>, bad: seq<string>, summarized: seq<Row>)
      returns (summarized': seq<Row>)
    requires i + 1 == |s|
    requires year == StateAfter(mode, s, i).year && product == StateAfter(mode, s, i).product
    requires counter == StateAfter(mode, s, i).counter && seen == StateAfter(mode, s, i).seen
    requires bad == StateAfter(mode, s, i).bad && summarized == StateAfter(mode, s, i).summarized
    ensures summarized' == OrderByProduct(EmittedRows(mode, s))
  {
    var company := s[i].company;
    var newYear := Year(s[i].dateReceived);
    var newProduct := s[i].product;
    var currentYear, currentProduct := year, product;
    var productComplaintCounter, atLeastOneComplaint, badCompanies := counter, seen, bad;
    if newYear == currentYear && newProduct == currentProduct {
      StepSameKey(mode, s, i);
      productComplaintCounter, atLeastOneComplaint, badCompanies :=
        CountRecord(productComplaintCounter, atLeastOneComplaint, badCompanies, company);
      summarized' := EmitRow(mode, summarized, currentProduct, currentYear, productComplaintCounter,
                             atLeastOneComplaint, badCompanies);
    } else {
      StepNewKey(mode, s, i);
      summarized' := EmitRow(mode, summarized, currentProduct, currentYear, productComplaintCounter,
                             atLeastOneComplaint, badCompanies);
      productComplaintCounter, atLeastOneComplaint, badCompanies := RestartRun(company);
      currentProduct := newProduct;
      if newYear != currentYear {
        currentYear := newYear;
      }
      summarized' := EmitRow(mode, summarized', currentProduct, currentYear, productComplaintCounter,
                             atLeastOneComplaint, badCompanies);
    }
  }

  /** Lines 103-332: one turn of the loop, dispatching on the source's four branches. Before
      the last record the accumulators move from their state after `i` records to their
      state after `i + 1`; at the last record `summarized_data` becomes the report. */
  method ScanRecord(mode: Rounding, s: seq<Complaint>, i: nat, year: string, product: string, counter: nat,
                    seen: set<string>, bad: seq<string>, summarized: seq<Row>)
      returns (year': string, product': string, counter': nat, seen': set<string>,
               bad': seq<string>, summarized': seq<Row>)
    requires i < |s|
    requires year == StateAfter(mode, s, i).year && product == StateAfter(mode, s, i).product
    requires counter == StateAfter(mode, s, i).counter && seen == StateAfter(mode, s, i).seen
    requires bad == StateAfter(mode, s, i).bad && summarized == StateAfter(mode, s, i).summarized
    ensures i + 1 < |s| ==> year' == StateAfter(mode, s, i + 1).year && product' == StateAfter(mode, s, i + 1).product
    ensures i + 1 < |s| ==> counter' == StateAfter(mode, s, i + 1).counter && seen' == StateAfter(mode, s, i + 1).seen
    ensures i + 1 < |s| ==> bad' == StateAfter(mode, s, i + 1).bad
    ensures summarized' == StateAfter(mode, s, i + 1).summarized
  {
    var n := |s|;
    var newYear := Year(s[i].dateReceived);
    var newProduct := s[i].product;
    year', product', counter', seen', bad', summarized' := year, product, counter, seen, bad, summarized;
    if newYear == year && newProduct == product && i < n - 1 {
      counter', seen', bad' := ContinueRun(mode, s, i, counter, seen, bad);
    } else if newYear == year && newProduct != product && i < n - 1 {
      counter', seen', bad', summarized' := SwitchRun(mode, s, i, year, product, counter, seen, bad, summarized);
      product' := newProduct;
    } else if newYear != year && i < n - 1 {
      counter', seen', bad', summarized' := SwitchRun(mode, s, i, year, product, counter, seen, bad, summarized);
      product' := newProduct;
      year' := newYear;
    } else {
      summarized' := FinishScan(mode, s, i, year, product, counter, seen, bad, summarized);
    }
  }

  /** The scan of `generate_report`: one pass over the records with the accumulators
      `current_year`, `current_product`, `product_complaint_counter`,
      `at_least_one_complaint` and `bad_companies`, and the report `summarized_data`
      kept ordered by product. */
  method GenerateReport(mode: Rounding, sortedData: seq<Complaint>) returns (result: Result<seq<Row>>)
    ensures result == SummarizedData(mode, sortedData)
    ensures result.Err? <==> sortedData == []
  {
    if |sortedData| == 0 {
      return Err(EmptyInput);
    }
    var n := |sortedData|;
    var currentYear := Year(sortedData[0].dateReceived);
    var currentProduct := sortedData[0].product;
    var productComplaintCounter := 0;
    var atLeastOneComplaint: set<string> := {};
    var badCompanies: seq<string> := [];
    var summarizedData: seq<Row> := [];
    var rowCounter: nat := 0;
    while rowCounter < n
      invariant rowCounter <= n
      invariant rowCounter < n ==> currentYear == StateAfter(mode, sortedData, rowCounter).year
      invariant rowCounter < n ==> currentProduct == StateAfter(mode, sortedData, rowCounter).product
      invariant rowCounter < n ==> productComplaintCounter == StateAfter(mode, sortedData, rowCounter).counter
      invariant rowCounter < n ==> atLeastOneComplaint == StateAfter(mode, sortedData, rowCounter).seen
      invariant rowCounter < n ==> badCompanies == StateAfter(mode, sortedData, rowCounter).bad
      invariant summarizedData == StateAfter(mode, sortedData, rowCounter).summarized
    {
      currentYear, currentProduct, productComplaintCounter, atLeastOneComplaint, badCompanies, summarizedData :=
        ScanRecord(mode, sortedData, rowCounter, currentYear, currentProduct, productComplaintCounter,
                   atLeastOneComplaint, badCompanies, summarizedData);
      rowCounter := rowCounter + 1;
    }
    return Ok(summarizedData);
  }
}
