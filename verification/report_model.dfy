/**
 * The `financial_reports` table as an immutable value.
 *
 * A report is identified by a store-assigned id and, independently, by its
 * business key (symbol, report_type, report_year, report_quarter). The body
 * of a report is opaque: a map from column name to value. The table knows its
 * body columns, which is what `hasattr(report, key)` consults in the
 * repository's update paths.
 */
module ReportModel {
  import opened Wrappers
  import opened Text

  /** A body column value: SQL NULL, a number or a text. */
  datatype Value = Null | Num(n: int) | Str(s: string)

  /** The business identity of a report; a missing quarter is SQL NULL. */
  datatype BusinessKey = BusinessKey(symbol: string, reportType: string, reportYear: int, reportQuarter: Option<int>)

  datatype Report = Report(
    symbol: string,
    reportType: string,
    reportYear: int,
    reportQuarter: Option<int>,
    content: map<string, Value>)
  {
    function Key(): BusinessKey {
      BusinessKey(symbol, reportType, reportYear, reportQuarter)
    }
  }

  /** A report together with its id, as the repository hands it out. */
  datatype Row = Row(id: nat, report: Report)

  /** The attribute names that are not body columns. */
  const KeyAttributes: set<string> := {"id", "symbol", "report_type", "report_year", "report_quarter"}

  /**
   * The table: its body columns, its rows by id, and the next id the identity
   * column will hand out.
   */
  datatype TableState = TableState(columns: set<string>, rows: map<nat, Report>, nextId: nat)

  /** Every id in the table was handed out before `nextId`. */
  ghost predicate WellFormed(t: TableState) {
    forall id :: id in t.rows ==> id < t.nextId
  }

  type Table = t: TableState | WellFormed(t) witness TableState({}, map[], 0)

  /** No two rows share a business key (the table's unique constraint). */
  ghost predicate UniqueKeys(rows: map<nat, Report>) {
    forall a, b :: a in rows && b in rows && rows[a].Key() == rows[b].Key() ==> a == b
  }

  /** Every row carries exactly the table's body columns. */
  ghost predicate UniformColumns(t: Table) {
    && t.columns !! KeyAttributes
    && forall id :: id in t.rows ==> t.rows[id].content.Keys == t.columns
  }

  /** The store invariant every repository operation preserves. */
  ghost predicate Valid(t: Table) {
    UniformColumns(t) && UniqueKeys(t.rows)
  }

  /** Some row of `t` has business key `k`. */
  predicate KeyTaken(t: Table, k: BusinessKey) {
    exists id :: id in t.rows && t.rows[id].Key() == k
  }

  /** Some row other than `id` has business key `k`. */
  predicate KeyTakenByOther(t: Table, id: nat, k: BusinessKey) {
    exists other :: other in t.rows && other != id && t.rows[other].Key() == k
  }

  /** The business keys present in `t`. */
  ghost function KeySet(t: Table): set<BusinessKey> {
    set id | id in t.rows :: t.rows[id].Key()
  }

  /**
   * A report payload as the scraper hands it to `add` and `upsert`: the four
   * business-key fields (the quarter may be absent) and the remaining
   * field:value pairs, which may name columns the table does not have.
   */
  datatype Payload = Payload(
    symbol: string,
    reportType: string,
    reportYear: int,
    reportQuarter: Option<int>,
    fields: map<string, Value>)
  {
    /** The key the payload is stored under: the symbol as given. */
    function StoredKey(): BusinessKey {
      BusinessKey(symbol, reportType, reportYear, reportQuarter)
    }

    /** The key `upsert` looks the payload up under: the symbol lower-cased. */
    function LookupKey(): BusinessKey {
      BusinessKey(Lower(symbol), reportType, reportYear, reportQuarter)
    }
  }

  /**
   * The field:value mapping `update` receives. Each business-key field may be
   * absent (`None`); `reportQuarter == Some(None)` sets the quarter to NULL.
   */
  datatype Patch = Patch(
    symbol: Option<string>,
    reportType: Option<string>,
    reportYear: Option<int>,
    reportQuarter: Option<Option<int>>,
    fields: map<string, Value>)

  datatype RepoError =
    | UnknownField          // the report constructor rejects a keyword that is not a mapped attribute
    | DuplicateKey(key: BusinessKey)  // the unique constraint on the business key rejects the write
    | MultipleResults       // `scalar_one_or_none` saw more than one row
    | NegativePagination    // the database rejects a negative OFFSET or row count

  // ---------------------------------------------------------------------------
  // The WHERE clause of `find_duplicate`, in SQL's three-valued terms
  // ---------------------------------------------------------------------------

  /** SQL `column = v`: not true when the column is NULL. */
  predicate SqlEquals(column: Option<int>, v: int) {
    column.Some? && column.value == v
  }

  /** SQL `column IS NULL`. */
  predicate SqlIsNull(column: Option<int>) {
    column.None?
  }

  /**
   * The rows `find_duplicate` selects: the lower-cased symbol, type and year
   * by equality, then `quarter = q` when a quarter is given and
   * `quarter IS NULL` when it is not.
   */
  predicate MatchesQuery(r: Report, symbol: string, reportType: string, reportYear: int, reportQuarter: Option<int>) {
    && r.symbol == Lower(symbol)
    && r.reportType == reportType
    && r.reportYear == reportYear
    && (if reportQuarter.Some? then SqlEquals(r.reportQuarter, reportQuarter.value)
        else SqlIsNull(r.reportQuarter))
  }

  /** The two quarter branches together amount to plain equality of business keys. */
  lemma MatchesQueryIsKeyEquality(r: Report, symbol: string, reportType: string, reportYear: int, reportQuarter: Option<int>)
    ensures MatchesQuery(r, symbol, reportType, reportYear, reportQuarter)
        <==> r.Key() == BusinessKey(Lower(symbol), reportType, reportYear, reportQuarter)
  {
  }
}
