/**
 * The order `get_all` lists reports in: symbol ascending, report year
 * descending, report quarter ascending with NULL first (SQL Server's
 * placement of NULL in an ascending sort). The database leaves rows that tie
 * on all three in no particular order; the model breaks such ties by id.
 */
module ReportOrder {
  import opened Wrappers
  import opened ReportModel

  // ---------------------------------------------------------------------------
  // Strings in code-point order
  // ---------------------------------------------------------------------------

  predicate StrLt(a: string, b: string)
    decreases |a|
  {
    |b| > 0 && (|a| == 0 || a[0] < b[0] || (a[0] == b[0] && StrLt(a[1..], b[1..])))
  }

  lemma {:induction false} StrLtIrreflexive(a: string)
    ensures !StrLt(a, a)
    decreases |a|
  {
    if |a| > 0 {
      StrLtIrreflexive(a[1..]);
    }
  }

  lemma {:induction false} StrLtTransitive(a: string, b: string, c: string)
    requires StrLt(a, b) && StrLt(b, c)
    ensures StrLt(a, c)
    decreases |a|
  {
    if |a| > 0 && a[0] == b[0] && b[0] == c[0] {
      StrLtTransitive(a[1..], b[1..], c[1..]);
    }
  }

  lemma {:induction false} StrLtTotal(a: string, b: string)
    ensures a == b || StrLt(a, b) || StrLt(b, a)
    decreases |a|
  {
    if |a| > 0 && |b| > 0 && a[0] == b[0] {
      StrLtTotal(a[1..], b[1..]);
      if a[1..] == b[1..] {
        assert a == [a[0]] + a[1..] && b == [b[0]] + b[1..];
      }
    }
  }

  // ---------------------------------------------------------------------------
  // ORDER BY symbol, report_year DESC, report_quarter
  // ---------------------------------------------------------------------------

  /** NULL sorts before every quarter; quarters compare as numbers. */
  predicate QuarterLt(a: Option<int>, b: Option<int>) {
    (a.None? && b.Some?) || (a.Some? && b.Some? && a.value < b.value)
  }

  /** `a` comes strictly before `b` in the SQL ordering. */
  predicate OrderedBefore(a: Report, b: Report) {
    || StrLt(a.symbol, b.symbol)
    || (a.symbol == b.symbol && a.reportYear > b.reportYear)
    || (a.symbol == b.symbol && a.reportYear == b.reportYear && QuarterLt(a.reportQuarter, b.reportQuarter))
  }

  /** `a` and `b` tie on every ORDER BY column. */
  predicate SameRank(a: Report, b: Report) {
    a.symbol == b.symbol && a.reportYear == b.reportYear && a.reportQuarter == b.reportQuarter
  }

  /** The order of the listing: the SQL ordering, ties broken by id. */
  predicate RowLt(x: Row, y: Row) {
    OrderedBefore(x.report, y.report) || (SameRank(x.report, y.report) && x.id < y.id)
  }

  lemma OrderedBeforeAsymmetric(a: Report, b: Report)
    ensures OrderedBefore(a, b) ==> !OrderedBefore(b, a) && !SameRank(a, b)
  {
    StrLtIrreflexive(a.symbol);
    if StrLt(a.symbol, b.symbol) && StrLt(b.symbol, a.symbol) {
      StrLtTransitive(a.symbol, b.symbol, a.symbol);
    }
  }

  lemma RowLtAsymmetric(x: Row, y: Row)
    ensures RowLt(x, y) ==> !RowLt(y, x)
  {
    OrderedBeforeAsymmetric(x.report, y.report);
    OrderedBeforeAsymmetric(y.report, x.report);
  }

  lemma RowLtTransitive(x: Row, y: Row, z: Row)
    requires RowLt(x, y) && RowLt(y, z)
    ensures RowLt(x, z)
  {
    var a, b, c := x.report, y.report, z.report;
    if StrLt(a.symbol, b.symbol) && StrLt(b.symbol, c.symbol) {
      StrLtTransitive(a.symbol, b.symbol, c.symbol);
    }
  }

  /** Rows with different ids are always comparable. */
  lemma RowLtTotal(x: Row, y: Row)
    requires x.id != y.id
    ensures RowLt(x, y) || RowLt(y, x)
  {
    StrLtTotal(x.report.symbol, y.report.symbol);
  }

  // ---------------------------------------------------------------------------
  // Sorting
  // ---------------------------------------------------------------------------

  predicate Sorted(rs: seq<Row>) {
    forall i, j :: 0 <= i < j < |rs| ==> RowLt(rs[i], rs[j])
  }

  predicate DistinctIds(rs: seq<Row>) {
    forall i, j :: 0 <= i < j < |rs| ==> rs[i].id != rs[j].id
  }

  /** A list sorted by `RowLt` never lists a row after one the SQL ordering puts later. */
  lemma SortedRespectsSqlOrder(rs: seq<Row>, i: int, j: int)
    requires Sorted(rs) && 0 <= i < j < |rs|
    ensures !OrderedBefore(rs[j].report, rs[i].report)
  {
    RowLtAsymmetric(rs[i], rs[j]);
  }

  function Insert(x: Row, rs: seq<Row>): (r: seq<Row>)
    requires Sorted(rs)
    requires forall i :: 0 <= i < |rs| ==> rs[i].id != x.id
    ensures Sorted(r)
    ensures multiset(r) == multiset(rs) + multiset{x}
    decreases |rs|
  {
    if |rs| == 0 then [x]
    else if RowLt(x, rs[0]) then
      assert Sorted([x] + rs) by {
        forall j | 0 < j < |rs| ensures RowLt(x, rs[j]) {
          RowLtTransitive(x, rs[0], rs[j]);
        }
      }
      [x] + rs
    else
      RowLtTotal(x, rs[0]);
      var tail := Insert(x, rs[1..]);
      assert rs == [rs[0]] + rs[1..];
      assert Sorted([rs[0]] + tail) by {
        forall j | 0 <= j < |tail| ensures RowLt(rs[0], tail[j]) {
          assert tail[j] in multiset(tail);
          if tail[j] != x {
            assert tail[j] in multiset(rs[1..]);
            var k :| 0 <= k < |rs[1..]| && rs[1..][k] == tail[j];
          }
        }
      }
      [rs[0]] + tail
  }

  /** Insertion sort into `RowLt` order. */
  function Sort(rs: seq<Row>): (r: seq<Row>)
    requires DistinctIds(rs)
    ensures Sorted(r)
    ensures multiset(r) == multiset(rs)
    decreases |rs|
  {
    if |rs| == 0 then []
    else
      var rest := Sort(rs[1..]);
      assert forall i :: 0 <= i < |rest| ==> rest[i].id != rs[0].id by {
        forall i | 0 <= i < |rest| ensures rest[i].id != rs[0].id {
          assert rest[i] in multiset(rs[1..]);
          var k :| 0 <= k < |rs[1..]| && rs[1..][k] == rest[i];
          assert rs[k + 1] == rest[i];
        }
      }
      assert rs == [rs[0]] + rs[1..];
      Insert(rs[0], rest)
  }
}
