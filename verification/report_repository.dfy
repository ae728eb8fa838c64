/**
 * `ReportRepository`: each method is a pure function from the table to the
 * new table and the method's return value (or the error it raises).
 *
 * Commits, refreshes and sessions disappear: a function that returns
 * `(t', Ok(..))` committed `t'`; one that returns an error leaves the table
 * as it was before the failing statement.
 */
module ReportRepository {
  import opened Wrappers
  import opened Text
  import opened ReportModel
  import opened ReportOrder

  // ---------------------------------------------------------------------------
  // Enumerating and filtering rows
  // ---------------------------------------------------------------------------

  function IdsOf(rs: seq<Row>): (ids: seq<nat>)
    ensures |ids| == |rs|
    ensures forall i :: 0 <= i < |rs| ==> ids[i] == rs[i].id
  {
    seq(|rs|, i requires 0 <= i < |rs| => rs[i].id)
  }

  /** The rows of `rows` with id below `n` whose report satisfies `p`, by ascending id. */
  function SelectBelow(rows: map<nat, Report>, n: nat, p: Report -> bool): (rs: seq<Row>)
    ensures forall i :: 0 <= i < |rs| ==> rs[i].id < n && rs[i].id in rows && rs[i].report == rows[rs[i].id] && p(rs[i].report)
    ensures forall i, j :: 0 <= i < j < |rs| ==> rs[i].id < rs[j].id
    decreases n
  {
    if n == 0 then []
    else
      var before := SelectBelow(rows, n - 1, p);
      if n - 1 in rows && p(rows[n - 1]) then before + [Row(n - 1, rows[n - 1])] else before
  }

  /** Every row below `n` whose report satisfies `p` is selected. */
  lemma {:induction false} SelectBelowComplete(rows: map<nat, Report>, n: nat, p: Report -> bool)
    ensures forall id :: id < n && id in rows && p(rows[id]) ==> id in IdsOf(SelectBelow(rows, n, p))
    decreases n
  {
    if n > 0 {
      SelectBelowComplete(rows, n - 1, p);
      var before := SelectBelow(rows, n - 1, p);
      var rs := SelectBelow(rows, n, p);
      forall id | id < n && id in rows && p(rows[id]) ensures id in IdsOf(rs) {
        if id == n - 1 {
          assert IdsOf(rs)[|rs| - 1] == id;
        } else {
          var k :| 0 <= k < |before| && IdsOf(before)[k] == id;
          assert rs[k] == before[k];
          assert IdsOf(rs)[k] == id;
        }
      }
    }
  }

  /** The rows of `t` whose report satisfies `p`, by ascending id. */
  function Select(t: Table, p: Report -> bool): (rs: seq<Row>)
    ensures forall i :: 0 <= i < |rs| ==> rs[i].id in t.rows && rs[i].report == t.rows[rs[i].id] && p(rs[i].report)
    ensures forall id :: id in t.rows && p(t.rows[id]) ==> id in IdsOf(rs)
    ensures forall i, j :: 0 <= i < j < |rs| ==> rs[i].id < rs[j].id
  {
    var rs := SelectBelow(t.rows, t.nextId, p);
    SelectBelowComplete(t.rows, t.nextId, p);
    rs
  }

  // ---------------------------------------------------------------------------
  // Building and changing reports
  // ---------------------------------------------------------------------------

  /** `FinancialReport(**data)`: every table column, set from the payload or NULL. */
  function NewReport(columns: set<string>, p: Payload): (r: Report)
    ensures r.Key() == p.StoredKey()
    ensures r.content.Keys == columns
    ensures forall c :: c in columns && c in p.fields ==> r.content[c] == p.fields[c]
    ensures forall c :: c in columns && c !in p.fields ==> r.content[c] == Null
  {
    Report(p.symbol, p.reportType, p.reportYear, p.reportQuarter,
           map c | c in columns :: if c in p.fields then p.fields[c] else Null)
  }

  /**
   * `setattr(report, key, value)` for every key the report has as an
   * attribute; keys it does not have are skipped.
   */
  function ApplyPatch(r: Report, patch: Patch): (r': Report)
    ensures r'.symbol == patch.symbol.GetOr(r.symbol)
    ensures r'.reportType == patch.reportType.GetOr(r.reportType)
    ensures r'.reportYear == patch.reportYear.GetOr(r.reportYear)
    ensures r'.reportQuarter == patch.reportQuarter.GetOr(r.reportQuarter)
    ensures r'.content.Keys == r.content.Keys
    ensures forall c :: c in r.content && c in patch.fields ==> r'.content[c] == patch.fields[c]
    ensures forall c :: c in r.content && c !in patch.fields ==> r'.content[c] == r.content[c]
  {
    Report(
      patch.symbol.GetOr(r.symbol),
      patch.reportType.GetOr(r.reportType),
      patch.reportYear.GetOr(r.reportYear),
      patch.reportQuarter.GetOr(r.reportQuarter),
      map c | c in r.content :: if c in patch.fields then patch.fields[c] else r.content[c])
  }

  /** The overwrite `upsert` performs on an existing row: every field of the payload but the id. */
  function PayloadPatch(p: Payload): Patch {
    Patch(Some(p.symbol), Some(p.reportType), Some(p.reportYear), Some(p.reportQuarter), p.fields)
  }

  /** The table with row `id` replaced by `r`. */
  function Replace(t: Table, id: nat, r: Report): (t': Table)
    requires id in t.rows
    ensures t'.columns == t.columns && t'.nextId == t.nextId
    ensures t'.rows.Keys == t.rows.Keys && t'.rows[id] == r
    ensures forall other :: other in t.rows && other != id ==> t'.rows[other] == t.rows[other]
  {
    TableState(t.columns, t.rows[id := r], t.nextId)
  }

  /** The table with `r` added under the next id. */
  function InsertRow(t: Table, r: Report): (t': Table)
    ensures t'.columns == t.columns && t'.nextId == t.nextId + 1
    ensures t.nextId !in t.rows
    ensures t'.rows == t.rows[t.nextId := r]
    ensures |t'.rows| == |t.rows| + 1
  {
    var rows := t.rows[t.nextId := r];
    assert rows.Keys == t.rows.Keys + {t.nextId};
    TableState(t.columns, rows, t.nextId + 1)
  }

  lemma InsertKeepsUnique(t: Table, r: Report)
    requires r.content.Keys == t.columns
    requires Valid(t) && !KeyTaken(t, r.Key())
    ensures Valid(InsertRow(t, r))
  {
  }

  lemma ReplaceKeepsUnique(t: Table, id: nat, r: Report)
    requires id in t.rows && r.content.Keys == t.columns
    requires Valid(t) && !KeyTakenByOther(t, id, r.Key())
    ensures Valid(Replace(t, id, r))
  {
  }

  // ---------------------------------------------------------------------------
  // The repository methods
  // ---------------------------------------------------------------------------

  /**
   * `add`: inserts the payload as a new row with a fresh id. The report
   * constructor rejects a field the table has no column for; the unique
   * constraint rejects a business key already present.
   */
  function Add(t: Table, p: Payload): (res: (Table, Result<Row, RepoError>))
    ensures !(p.fields.Keys <= t.columns) ==> res == (t, Err(UnknownField))
    ensures p.fields.Keys <= t.columns && KeyTaken(t, p.StoredKey()) ==> res == (t, Err(DuplicateKey(p.StoredKey())))
    ensures res.1.Ok? ==>
      var row := res.1.value;
      && row.id !in t.rows
      && row.report.Key() == p.StoredKey()
      && row.id == t.nextId && res.0.nextId == t.nextId + 1
      && row.report == NewReport(t.columns, p)
      && (forall c :: c in p.fields ==> c in row.report.content && row.report.content[c] == p.fields[c])
      && res.0.rows == t.rows[row.id := row.report]
      && |res.0.rows| == |t.rows| + 1
      && res.0.columns == t.columns
    ensures res.1.Ok? <==> p.fields.Keys <= t.columns && !KeyTaken(t, p.StoredKey())
    ensures res.0.columns == t.columns
    ensures Valid(t) ==> Valid(res.0)
  {
    if !(p.fields.Keys <= t.columns) then (t, Err(UnknownField))
    else if KeyTaken(t, p.StoredKey()) then (t, Err(DuplicateKey(p.StoredKey())))
    else
      var r := NewReport(t.columns, p);
      var t' := InsertRow(t, r);
      assert Valid(t) ==> Valid(t') by {
        if Valid(t) {
          InsertKeepsUnique(t, r);
        }
      }
      (t', Ok(Row(t.nextId, r)))
  }

  /** The table after a run of inserts, and the rows inserted. */
  datatype Added = Added(table: Table, rows: seq<Row>)

  /**
   * The flush of `add_bulk`: the reports are inserted in order under
   * consecutive ids, and the first one whose business key is already taken
   * (by the table or by an earlier report of the batch) raises.
   */
  function InsertEach(t: Table, ps: seq<Payload>): (res: Result<Added, RepoError>)
    ensures res.Ok? ==> |res.value.rows| == |ps|
    ensures res.Ok? ==> res.value.table.columns == t.columns && res.value.table.nextId == t.nextId + |ps|
    ensures res.Ok? && Valid(t) ==> Valid(res.value.table)
    decreases |ps|
  {
    if |ps| == 0 then Ok(Added(t, []))
    else
      var r := NewReport(t.columns, ps[0]);
      if KeyTaken(t, r.Key()) then Err(DuplicateKey(r.Key()))
      else
        var t1 := InsertRow(t, r);
        assert Valid(t) ==> Valid(t1) by {
          if Valid(t) {
            InsertKeepsUnique(t, r);
          }
        }
        match InsertEach(t1, ps[1..])
        case Err(e) => Err(e)
        case Ok(rest) => Ok(Added(rest.table, [Row(t.nextId, r)] + rest.rows))
  }

  /** Every field of every payload of the batch is a column of the table. */
  predicate AllFieldsKnown(t: Table, ps: seq<Payload>) {
    forall i :: 0 <= i < |ps| ==> ps[i].fields.Keys <= t.columns
  }

  /**
   * `add_bulk`: every report object is built first, so a payload with an
   * unknown field raises before anything reaches the database; then the
   * batch is flushed and committed as one transaction, so a duplicate key
   * anywhere in it leaves the table unchanged.
   */
  function AddBulk(t: Table, ps: seq<Payload>): (res: (Table, Result<seq<Row>, RepoError>))
    ensures res.1.Err? ==> res.0 == t
    ensures !AllFieldsKnown(t, ps) ==> res.1 == Err(UnknownField)
    ensures res.1.Ok? ==> |res.1.value| == |ps| && res.0.columns == t.columns
    ensures Valid(t) ==> Valid(res.0)
  {
    if !AllFieldsKnown(t, ps) then (t, Err(UnknownField))
    else
      match InsertEach(t, ps)
      case Err(e) => (t, Err(e))
      case Ok(added) => (added.table, Ok(added.rows))
  }

  /** `get_by_id`. */
  function GetById(t: Table, id: nat): (r: Option<Report>)
    ensures r.Some? <==> id in t.rows
    ensures r.Some? ==> r.value == t.rows[id]
  {
    if id in t.rows then Some(t.rows[id]) else None
  }

  /** `get_by_symbol`: the rows whose stored symbol equals the lower-cased query. */
  function GetBySymbol(t: Table, symbol: string): (rs: seq<Row>)
    ensures forall i :: 0 <= i < |rs| ==> rs[i].id in t.rows && rs[i].report == t.rows[rs[i].id]
    ensures forall i :: 0 <= i < |rs| ==> rs[i].report.symbol == Lower(symbol)
    ensures forall id :: id in t.rows && t.rows[id].symbol == Lower(symbol) ==> id in IdsOf(rs)
    ensures forall i, j :: 0 <= i < j < |rs| ==> rs[i].id != rs[j].id
  {
    var s := Lower(symbol);
    Select(t, (r: Report) => r.symbol == s)
  }

  /**
   * `find_duplicate`: the row matching the business key (lower-cased symbol,
   * NULL-aware quarter), none, or the error `scalar_one_or_none` raises when
   * more than one row matches.
   */
  function FindDuplicate(t: Table, symbol: string, reportType: string, reportYear: int, reportQuarter: Option<int>)
    : (res: Result<Option<Row>, RepoError>)
    ensures res.Ok? && res.value.Some? ==>
      var row := res.value.value;
      row.id in t.rows && t.rows[row.id] == row.report
      && MatchesQuery(row.report, symbol, reportType, reportYear, reportQuarter)
    ensures res.Ok? && res.value.None? ==>
      forall id :: id in t.rows ==> !MatchesQuery(t.rows[id], symbol, reportType, reportYear, reportQuarter)
    ensures res.Err? <==> res == Err(MultipleResults)
    ensures res.Err? <==> exists a, b ::
      && a in t.rows && b in t.rows && a != b
      && MatchesQuery(t.rows[a], symbol, reportType, reportYear, reportQuarter)
      && MatchesQuery(t.rows[b], symbol, reportType, reportYear, reportQuarter)
  {
    var matches := Select(t, (r: Report) => MatchesQuery(r, symbol, reportType, reportYear, reportQuarter));
    if |matches| == 0 then
      assert IdsOf(matches) == [];
      Ok(None)
    else if |matches| == 1 then
      assert forall a ::
          a in t.rows && MatchesQuery(t.rows[a], symbol, reportType, reportYear, reportQuarter) ==> a == matches[0].id
      by {
        forall a | a in t.rows && MatchesQuery(t.rows[a], symbol, reportType, reportYear, reportQuarter)
          ensures a == matches[0].id {
          assert a in IdsOf(matches);
        }
      }
      Ok(Some(matches[0]))
    else
      assert matches[0].id != matches[1].id;
      Err(MultipleResults)
  }

  /**
   * `update`: no row with that id gives `None` and no change; otherwise every
   * patch field the row has is set, the rest of the patch is ignored, and
   * the unique constraint rejects a patch that would duplicate another row's
   * business key.
   */
  function Update(t: Table, id: nat, patch: Patch): (res: (Table, Result<Option<Row>, RepoError>))
    ensures id !in t.rows ==> res == (t, Ok(None))
    ensures res.1.Err? ==> res.0 == t
    ensures res.1.Ok? && id in t.rows ==>
      && res.1.value == Some(Row(id, ApplyPatch(t.rows[id], patch)))
      && res.0.rows.Keys == t.rows.Keys
      && res.0.rows[id] == ApplyPatch(t.rows[id], patch)
      && (forall other :: other in t.rows && other != id ==> res.0.rows[other] == t.rows[other])
    ensures id in t.rows ==> (res.1.Err? <==> KeyTakenByOther(t, id, ApplyPatch(t.rows[id], patch).Key()))
    ensures Valid(t) ==> Valid(res.0)
  {
    if id !in t.rows then (t, Ok(None))
    else
      var r := ApplyPatch(t.rows[id], patch);
      if KeyTakenByOther(t, id, r.Key()) then (t, Err(DuplicateKey(r.Key())))
      else
        var t' := Replace(t, id, r);
        assert Valid(t) ==> Valid(t') by {
          if Valid(t) {
            ReplaceKeepsUnique(t, id, r);
          }
        }
        (t', Ok(Some(Row(id, r))))
  }

  /**
   * `upsert`: looks the payload up by business key; a match is overwritten
   * in place (same id, `created == false`), otherwise the payload is
   * inserted (`created == true`).
   */
  function Upsert(t: Table, p: Payload): (res: (Table, Result<(Row, bool), RepoError>))
    ensures res.1.Err? ==> res.0 == t
    ensures res.1.Ok? ==> (res.1.value.1 <==> !KeyTaken(t, p.LookupKey()))
    ensures res.1.Ok? && !res.1.value.1 ==>
      var row := res.1.value.0;
      && row.id in t.rows
      && t.rows[row.id].Key() == p.LookupKey()
      && row.report == ApplyPatch(t.rows[row.id], PayloadPatch(p))
      && res.0.rows.Keys == t.rows.Keys
      && res.0.rows[row.id] == row.report
      && (forall other :: other in t.rows && other != row.id ==> res.0.rows[other] == t.rows[other])
    ensures res.1.Ok? && res.1.value.1 ==>
      var row := res.1.value.0;
      && row.id !in t.rows
      && row.report == NewReport(t.columns, p)
      && res.0.rows == t.rows[row.id := row.report]
      && |res.0.rows| == |t.rows| + 1
    ensures res.1.Ok? ==>
      var row := res.1.value.0;
      row.id in res.0.rows && res.0.rows[row.id] == row.report && row.report.Key() == p.StoredKey()
    ensures res.0.columns == t.columns
    ensures Valid(t) ==> Valid(res.0)
  {
    match FindDuplicate(t, p.symbol, p.reportType, p.reportYear, p.reportQuarter)
    case Err(e) => (t, Err(e))
    case Ok(Some(row)) =>
      MatchesQueryIsKeyEquality(row.report, p.symbol, p.reportType, p.reportYear, p.reportQuarter);
      var r := ApplyPatch(row.report, PayloadPatch(p));
      if KeyTakenByOther(t, row.id, r.Key()) then (t, Err(DuplicateKey(r.Key())))
      else
        var t' := Replace(t, row.id, r);
        assert Valid(t) ==> Valid(t') by {
          if Valid(t) {
            ReplaceKeepsUnique(t, row.id, r);
          }
        }
        (t', Ok((Row(row.id, r), false)))
    case Ok(None) =>
      assert !KeyTaken(t, p.LookupKey()) by {
        forall id | id in t.rows ensures t.rows[id].Key() != p.LookupKey() {
          MatchesQueryIsKeyEquality(t.rows[id], p.symbol, p.reportType, p.reportYear, p.reportQuarter);
        }
      }
      var (t', added) := Add(t, p);
      if added.Err? then (t', Err(added.error))
      else (t', Ok((added.value, true)))
  }

  /** The counts `upsert_bulk` reports. */
  datatype BulkStats = BulkStats(created: nat, updated: nat, total: nat)

  /** What the loop of `upsert_bulk` has counted so far. */
  datatype Tally = Tally(created: nat, updated: nat)

  /**
   * The loop of `upsert_bulk`: each item is upserted and committed on its
   * own; a failure stops the loop with the earlier items already committed.
   */
  function UpsertEach(t: Table, ps: seq<Payload>): (res: (Table, Result<Tally, RepoError>))
    ensures res.1.Ok? ==> res.1.value.created + res.1.value.updated == |ps|
    ensures Valid(t) && res.1.Ok? ==> |res.0.rows| == |t.rows| + res.1.value.created
    ensures res.0.columns == t.columns
    ensures Valid(t) ==> Valid(res.0)
    decreases |ps|
  {
    if |ps| == 0 then (t, Ok(Tally(0, 0)))
    else
      var first := Upsert(t, ps[0]);
      if first.1.Err? then (first.0, Err(first.1.error))
      else
        var rest := UpsertEach(first.0, ps[1..]);
        if rest.1.Err? then rest
        else if first.1.value.1 then (rest.0, Ok(Tally(rest.1.value.created + 1, rest.1.value.updated)))
        else (rest.0, Ok(Tally(rest.1.value.created, rest.1.value.updated + 1)))
  }

  /**
   * `upsert_bulk`: created and updated add up to the total, and the table
   * grows by exactly the number created.
   */
  function UpsertBulk(t: Table, ps: seq<Payload>): (res: (Table, Result<BulkStats, RepoError>))
    ensures res.1.Ok? ==> res.1.value.created + res.1.value.updated == res.1.value.total == |ps|
    ensures Valid(t) && res.1.Ok? ==> |res.0.rows| == |t.rows| + res.1.value.created
    ensures Valid(t) ==> Valid(res.0)
  {
    var each := UpsertEach(t, ps);
    if each.1.Err? then (each.0, Err(each.1.error))
    else (each.0, Ok(BulkStats(each.1.value.created, each.1.value.updated, |ps|)))
  }

  /** `delete`: true exactly when the id was present; no other row changes. */
  function Delete(t: Table, id: nat): (res: (Table, bool))
    ensures res.1 <==> id in t.rows
    ensures id !in res.0.rows
    ensures forall other :: other != id ==> (other in res.0.rows <==> other in t.rows)
    ensures forall other :: other in res.0.rows ==> res.0.rows[other] == t.rows[other]
    ensures |res.0.rows| == if id in t.rows then |t.rows| - 1 else |t.rows|
    ensures Valid(t) ==> Valid(res.0)
  {
    if id in t.rows then
      var t' := TableState(t.columns, t.rows - {id}, t.nextId);
      assert t'.rows.Keys == t.rows.Keys - {id};
      (t', true)
    else (t, false)
  }

  /** The ids whose stored symbol equals the lower-cased query. */
  function SymbolIds(t: Table, symbol: string): set<nat> {
    set id | id in t.rows && t.rows[id].symbol == Lower(symbol)
  }

  /** The values a list mentions. */
  ghost function Elems(xs: seq<nat>): set<nat> {
    set x | x in xs
  }

  lemma {:induction false} DistinctCard(xs: seq<nat>)
    requires forall i, j :: 0 <= i < j < |xs| ==> xs[i] != xs[j]
    ensures |Elems(xs)| == |xs|
    decreases |xs|
  {
    if |xs| > 0 {
      var tail := xs[1..];
      assert forall i, j :: 0 <= i < j < |tail| ==> tail[i] != tail[j] by {
        forall i, j | 0 <= i < j < |tail| ensures tail[i] != tail[j] {
          assert tail[i] == xs[i + 1] && tail[j] == xs[j + 1];
        }
      }
      DistinctCard(tail);
      assert xs[0] !in Elems(tail) by {
        forall j | 0 <= j < |tail| ensures tail[j] != xs[0] {
          assert tail[j] == xs[j + 1];
        }
      }
      assert Elems(xs) == Elems(tail) + {xs[0]} by {
        assert xs == [xs[0]] + tail;
      }
    }
  }

  /** A list of distinct rows that mentions exactly the ids `ids` has `|ids|` entries. */
  lemma ListedIdsCard(rs: seq<Row>, ids: set<nat>)
    requires DistinctIds(rs)
    requires forall i :: 0 <= i < |rs| ==> rs[i].id in ids
    requires forall id :: id in ids ==> id in IdsOf(rs)
    ensures |rs| == |ids|
  {
    var xs := IdsOf(rs);
    DistinctCard(xs);
    assert Elems(xs) == ids;
  }

  /** `count_by_symbol`: the number of rows `get_by_symbol` lists. */
  function CountBySymbol(t: Table, symbol: string): (n: nat)
    ensures n == |GetBySymbol(t, symbol)|
  {
    ListedIdsCard(GetBySymbol(t, symbol), SymbolIds(t, symbol));
    |SymbolIds(t, symbol)|
  }

  /**
   * `delete_by_symbol`: removes exactly the rows whose stored symbol equals
   * the lower-cased query and returns how many there were.
   */
  function DeleteBySymbol(t: Table, symbol: string): (res: (Table, nat))
    ensures forall id :: id in res.0.rows <==> id in t.rows && t.rows[id].symbol != Lower(symbol)
    ensures forall id :: id in res.0.rows ==> res.0.rows[id] == t.rows[id]
    ensures res.1 == CountBySymbol(t, symbol)
    ensures |res.0.rows| + res.1 == |t.rows|
    ensures CountBySymbol(res.0, symbol) == 0
    ensures Valid(t) ==> Valid(res.0)
  {
    var gone := SymbolIds(t, symbol);
    var t' := TableState(t.columns, t.rows - gone, t.nextId);
    assert t'.rows.Keys == t.rows.Keys - gone;
    assert gone <= t.rows.Keys;
    assert SymbolIds(t', symbol) == {};
    (t', |gone|)
  }

  /** `count`: the number of rows the full listing holds. */
  function Count(t: Table): (n: nat)
    ensures n == |Listing(t)|
  {
    ListedIdsCard(Listing(t), t.rows.Keys);
    |t.rows|
  }

  // ---------------------------------------------------------------------------
  // get_all
  // ---------------------------------------------------------------------------

  /** Every entry of `rs` is a row of `t`, as stored. */
  ghost predicate RowsOf(t: Table, rs: seq<Row>) {
    forall i :: 0 <= i < |rs| ==> rs[i].id in t.rows && rs[i].report == t.rows[rs[i].id]
  }

  /** Every row of `t` appears in `rs`. */
  ghost predicate Covers(t: Table, rs: seq<Row>) {
    forall id :: id in t.rows ==> id in IdsOf(rs)
  }

  /** No row of `rs` comes after one that the SQL ordering puts later. */
  predicate InSqlOrder(rs: seq<Row>) {
    forall i, j :: 0 <= i < j < |rs| ==> !OrderedBefore(rs[j].report, rs[i].report)
  }

  /** Every row of `t`, by ascending id. */
  function AllRows(t: Table): (rs: seq<Row>)
    ensures RowsOf(t, rs) && Covers(t, rs) && DistinctIds(rs)
  {
    Select(t, (r: Report) => true)
  }

  lemma SameElements(a: seq<Row>, b: seq<Row>)
    requires multiset(a) == multiset(b)
    ensures forall x :: x in a <==> x in b
  {
    forall x ensures x in a <==> x in b {
      assert x in a <==> x in multiset(a);
      assert x in b <==> x in multiset(b);
    }
  }

  /** A reordering of the rows of `t` lists the same rows. */
  lemma PermutationListsTable(t: Table, all: seq<Row>, rs: seq<Row>)
    requires RowsOf(t, all) && Covers(t, all)
    requires multiset(all) == multiset(rs)
    requires Sorted(rs)
    ensures RowsOf(t, rs) && Covers(t, rs) && DistinctIds(rs)
  {
    SameElements(all, rs);
    forall i | 0 <= i < |rs| ensures rs[i].id in t.rows && rs[i].report == t.rows[rs[i].id] {
      assert rs[i] in all;
    }
    forall id | id in t.rows ensures id in IdsOf(rs) {
      var k :| 0 <= k < |all| && IdsOf(all)[k] == id;
      assert all[k] in rs;
      var j :| 0 <= j < |rs| && rs[j] == all[k];
      assert IdsOf(rs)[j] == id;
    }
    forall i, j | 0 <= i < j < |rs| ensures rs[i].id != rs[j].id {
      RowLtAsymmetric(rs[i], rs[j]);
    }
  }

  /** Every row of `t` in the listing order. */
  function Listing(t: Table): (rs: seq<Row>)
    ensures RowsOf(t, rs) && Covers(t, rs) && DistinctIds(rs) && Sorted(rs)
  {
    var all := AllRows(t);
    var rs := Sort(all);
    PermutationListsTable(t, all, rs);
    rs
  }

  /** A slice of the listing lists rows of `t`, distinct and in SQL order. */
  lemma PageOfListing(t: Table, all: seq<Row>, lo: nat, hi: nat)
    requires RowsOf(t, all) && Sorted(all) && DistinctIds(all) && lo <= hi <= |all|
    ensures RowsOf(t, all[lo..hi]) && DistinctIds(all[lo..hi]) && InSqlOrder(all[lo..hi])
  {
    var page := all[lo..hi];
    assert forall i :: 0 <= i < |page| ==> page[i] == all[lo + i];
    forall i, j | 0 <= i < j < |page| ensures !OrderedBefore(page[j].report, page[i].report) {
      SortedRespectsSqlOrder(all, lo + i, lo + j);
    }
  }

  /** Python truthiness of an optional int: `None` and `0` count as not given. */
  predicate Given(o: Option<int>) {
    o.Some? && o.value != 0
  }

  /** Where the page starts in a listing of `n` rows. */
  function PageStart(n: nat, offset: Option<int>): (k: nat)
    ensures k <= n
  {
    if Given(offset) && offset.value > 0 then (if offset.value < n then offset.value else n) else 0
  }

  /** Where the page ends in a listing of `n` rows. */
  function PageEnd(n: nat, limit: Option<int>, start: nat): (k: nat)
    requires start <= n
    ensures start <= k <= n
  {
    if Given(limit) && limit.value > 0 && start + limit.value < n then start + limit.value else n
  }

  /** Entry `i` of a slice is entry `lo + i` of the list. */
  lemma SliceIndex(s: seq<Row>, lo: nat, hi: nat)
    requires lo <= hi <= |s|
    ensures |s[lo..hi]| == hi - lo
    ensures forall i :: 0 <= i < hi - lo ==> s[lo..hi][i] == s[lo + i]
  {
  }

  /** The slice a page cuts from a list of rows, index by index. */
  lemma PageWindow(all: seq<Row>, limit: Option<int>, offset: Option<int>)
    requires limit.None? || limit.value >= 0
    requires offset.None? || offset.value >= 0
    ensures
      var start := PageStart(|all|, offset);
      var page := all[start..PageEnd(|all|, limit, start)];
      var skip := if offset.Some? then offset.value else 0;
      && 0 <= skip
      && |page| == (if skip >= |all| then 0
                    else if Given(limit) && limit.value < |all| - skip then limit.value
                    else |all| - skip)
      && forall i :: 0 <= i < |page| ==> page[i] == all[skip + i]
  {
    var start := PageStart(|all|, offset);
    SliceIndex(all, start, PageEnd(|all|, limit, start));
  }

  /** The rows of one page of the listing. */
  function Page(t: Table, limit: Option<int>, offset: Option<int>): (page: seq<Row>)
    ensures RowsOf(t, page) && DistinctIds(page) && InSqlOrder(page)
    ensures Given(limit) && limit.value > 0 ==> |page| <= limit.value
    ensures !Given(limit) && !Given(offset) ==> page == Listing(t)
    ensures var n := |Listing(t)|; var start := PageStart(n, offset);
            page == Listing(t)[start..PageEnd(n, limit, start)]
  {
    var all := Listing(t);
    var start := PageStart(|all|, offset);
    var end := PageEnd(|all|, limit, start);
    PageOfListing(t, all, start, end);
    all[start..end]
  }

  /**
   * `get_all`: the listing, with `offset` rows skipped and at most `limit`
   * rows kept when they are given; a negative value is rejected by the
   * database.
   */
  function GetAll(t: Table, limit: Option<int>, offset: Option<int>): (res: Result<seq<Row>, RepoError>)
    ensures res.Err? <==> (limit.Some? && limit.value < 0) || (offset.Some? && offset.value < 0)
    ensures res.Ok? ==> RowsOf(t, res.value) && DistinctIds(res.value) && InSqlOrder(res.value)
    ensures res.Ok? && Given(limit) ==> |res.value| <= limit.value
    ensures res.Ok? && !Given(limit) && !Given(offset) ==> Covers(t, res.value)
    ensures res.Ok? ==>
      var all := Listing(t);
      var skip := if offset.Some? then offset.value else 0;
      && 0 <= skip
      && |res.value| == (if skip >= |all| then 0
                         else if Given(limit) && limit.value < |all| - skip then limit.value
                         else |all| - skip)
      && forall i :: 0 <= i < |res.value| ==> res.value[i] == all[skip + i]
  {
    if (limit.Some? && limit.value < 0) || (offset.Some? && offset.value < 0) then Err(NegativePagination)
    else
      var page := Page(t, limit, offset);
      var all := Listing(t);
      var start := PageStart(|all|, offset);
      var end := PageEnd(|all|, limit, start);
      PageWindow(all, limit, offset);
      Ok(page)
  }
}
