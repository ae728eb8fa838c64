/**
 * Properties of `ReportRepository` that relate several calls: lookups
 * ignore the case of the query, `add_bulk` succeeds exactly on a batch of
 * fresh keys, `upsert` converges on one row per business key, `upsert_bulk`
 * counts what it creates, and the counting methods agree with the listing
 * methods.
 */
module ReportLemmas {
  import opened Wrappers
  import opened Text
  import opened ReportModel
  import opened ReportOrder
  import opened ReportRepository

  // ---------------------------------------------------------------------------
  // Lookups
  // ---------------------------------------------------------------------------

  /** On a table that keeps its unique constraint, `find_duplicate` never raises. */
  lemma FindDuplicateNeverRaises(t: Table, symbol: string, reportType: string, reportYear: int, reportQuarter: Option<int>)
    requires Valid(t)
    ensures FindDuplicate(t, symbol, reportType, reportYear, reportQuarter).Ok?
  {
    forall a, b | a in t.rows && b in t.rows
      && MatchesQuery(t.rows[a], symbol, reportType, reportYear, reportQuarter)
      && MatchesQuery(t.rows[b], symbol, reportType, reportYear, reportQuarter)
      ensures a == b
    {
      MatchesQueryIsKeyEquality(t.rows[a], symbol, reportType, reportYear, reportQuarter);
      MatchesQueryIsKeyEquality(t.rows[b], symbol, reportType, reportYear, reportQuarter);
    }
  }

  /**
   * A query without a quarter only ever finds a row whose quarter is NULL,
   * and a query with quarter `q` only a row whose quarter is `q`.
   */
  lemma NullQuarterIsItsOwnPartition(t: Table, symbol: string, reportType: string, reportYear: int, reportQuarter: Option<int>)
    ensures
      var res := FindDuplicate(t, symbol, reportType, reportYear, reportQuarter);
      res.Ok? && res.value.Some? ==> res.value.value.report.reportQuarter == reportQuarter
  {
  }

  /** Every symbol lookup gives the same answer for a query and its lower-case form. */
  lemma SymbolLookupIgnoresCase(t: Table, symbol: string)
    ensures GetBySymbol(t, symbol) == GetBySymbol(t, Lower(symbol))
    ensures CountBySymbol(t, symbol) == CountBySymbol(t, Lower(symbol))
    ensures DeleteBySymbol(t, symbol) == DeleteBySymbol(t, Lower(symbol))
    ensures forall reportType, reportYear, reportQuarter ::
      FindDuplicate(t, symbol, reportType, reportYear, reportQuarter)
        == FindDuplicate(t, Lower(symbol), reportType, reportYear, reportQuarter)
  {
    LowerIdempotent(symbol);
  }

  /** A report `add` stores is what `get_by_id` then returns. */
  lemma AddThenGet(t: Table, p: Payload)
    ensures
      var res := Add(t, p);
      res.1.Ok? ==> GetById(res.0, res.1.value.id) == Some(res.1.value.report)
  {
  }

  /** After `delete(id)`, `get_by_id(id)` finds nothing and every other lookup by id is unchanged. */
  lemma DeleteThenGet(t: Table, id: nat, other: nat)
    ensures GetById(Delete(t, id).0, id) == None
    ensures other != id ==> GetById(Delete(t, id).0, other) == GetById(t, other)
  {
  }

  // ---------------------------------------------------------------------------
  // Counting agrees with listing
  // ---------------------------------------------------------------------------

  /** `count()` is the length of the unpaginated `get_all()`. */
  lemma CountIsListingLength(t: Table)
    ensures GetAll(t, None, None).Ok?
    ensures Count(t) == |GetAll(t, None, None).value|
  {
  }

  /** `count_by_symbol(s)` is the length of `get_by_symbol(s)`. */
  lemma CountBySymbolIsListingLength(t: Table, symbol: string)
    ensures CountBySymbol(t, symbol) == |GetBySymbol(t, symbol)|
  {
  }

  /** After `delete_by_symbol(s)`, `get_by_symbol(s)` lists nothing. */
  lemma DeleteBySymbolEmptiesLookup(t: Table, symbol: string)
    ensures GetBySymbol(DeleteBySymbol(t, symbol).0, symbol) == []
  {
    CountBySymbolIsListingLength(DeleteBySymbol(t, symbol).0, symbol);
  }

  // ---------------------------------------------------------------------------
  // get_all pagination
  // ---------------------------------------------------------------------------

  /** A limit or offset of 0 is the same as none at all. */
  lemma ZeroPaginationIsIgnored(t: Table, limit: Option<int>, offset: Option<int>)
    ensures GetAll(t, Some(0), offset) == GetAll(t, None, offset)
    ensures GetAll(t, limit, Some(0)) == GetAll(t, limit, None)
  {
  }

  /**
   * Without pagination `get_all` is the whole listing. Otherwise the page is
   * the slice of the listing that skips `offset` rows (all of them when the
   * listing is shorter) and keeps the next `limit` rows, or as many as
   * remain; a limit of 0 keeps them all. With `ZeroPaginationIsIgnored`
   * this covers the calls that omit the limit or the offset.
   */
  lemma PageIsSliceOfListing(t: Table, limit: nat, offset: nat, lo: nat, hi: nat)
    requires lo == if offset < |Listing(t)| then offset else |Listing(t)|
    requires hi == if limit > 0 && lo + limit < |Listing(t)| then lo + limit else |Listing(t)|
    ensures GetAll(t, None, None) == Ok(Listing(t))
    ensures GetAll(t, Some(limit), Some(offset)) == Ok(Listing(t)[lo..hi])
  {
    var all := Listing(t);
    assert PageStart(|all|, Some(offset)) == lo;
    assert PageEnd(|all|, Some(limit), lo) == hi;
  }

  // ---------------------------------------------------------------------------
  // update
  // ---------------------------------------------------------------------------

  /** `update` behaves as if the patch named only fields the row has: the others are ignored. */
  lemma UpdateIgnoresUnknownFields(t: Table, id: nat, patch: Patch)
    requires id in t.rows
    ensures
      var known := map c | c in patch.fields && c in t.rows[id].content :: patch.fields[c];
      Update(t, id, patch) == Update(t, id, patch.(fields := known))
  {
    var known := map c | c in patch.fields && c in t.rows[id].content :: patch.fields[c];
    assert ApplyPatch(t.rows[id], patch) == ApplyPatch(t.rows[id], patch.(fields := known));
  }

  // ---------------------------------------------------------------------------
  // add_bulk
  // ---------------------------------------------------------------------------

  /** After inserting `r`, a key is taken exactly when it was taken before or is `r`'s. */
  lemma KeyTakenAfterInsert(t: Table, r: Report, k: BusinessKey)
    ensures KeyTaken(InsertRow(t, r), k) <==> KeyTaken(t, k) || r.Key() == k
  {
    var t1 := InsertRow(t, r);
    if KeyTaken(t1, k) && !KeyTaken(t, k) {
      var id :| id in t1.rows && t1.rows[id].Key() == k;
      assert id == t.nextId;
    }
    if r.Key() == k {
      assert t1.rows[t.nextId].Key() == k;
    }
    if KeyTaken(t, k) {
      var id :| id in t.rows && t.rows[id].Key() == k;
      assert t1.rows[id] == t.rows[id];
    }
  }

  /** No payload's key is taken in `t`, and no two payloads share a key. */
  ghost predicate FreshKeys(t: Table, ps: seq<Payload>) {
    && (forall i :: 0 <= i < |ps| ==> !KeyTaken(t, ps[i].StoredKey()))
    && (forall i, j :: 0 <= i < j < |ps| ==> ps[i].StoredKey() != ps[j].StoredKey())
  }

  /** Inserting the first payload of a fresh batch leaves the rest of it fresh, and conversely. */
  lemma FreshKeysCons(t: Table, ps: seq<Payload>)
    requires |ps| > 0 && !KeyTaken(t, ps[0].StoredKey())
    ensures FreshKeys(InsertRow(t, NewReport(t.columns, ps[0])), ps[1..]) <==> FreshKeys(t, ps)
  {
    var r := NewReport(t.columns, ps[0]);
    var tail := ps[1..];
    forall i | 0 <= i < |tail|
      ensures KeyTaken(InsertRow(t, r), tail[i].StoredKey()) <==> KeyTaken(t, tail[i].StoredKey()) || ps[0].StoredKey() == tail[i].StoredKey()
    {
      KeyTakenAfterInsert(t, r, tail[i].StoredKey());
    }
    assert forall i :: 0 < i < |ps| ==> ps[i] == tail[i - 1];
  }

  /** The flush of a batch succeeds exactly when its keys are fresh. */
  lemma {:induction false} InsertEachOkIffFresh(t: Table, ps: seq<Payload>)
    ensures InsertEach(t, ps).Ok? <==> FreshKeys(t, ps)
    decreases |ps|
  {
    if |ps| > 0 {
      var r := NewReport(t.columns, ps[0]);
      if !KeyTaken(t, r.Key()) {
        InsertEachOkIffFresh(InsertRow(t, r), ps[1..]);
        FreshKeysCons(t, ps);
      }
    }
  }

  /** The ids of `t'` are those of `t` plus `n` fresh ones from `t.nextId`. */
  ghost predicate IdsGrow(t: Table, t': Table, n: nat) {
    forall id :: id in t'.rows <==> id in t.rows || t.nextId <= id < t.nextId + n
  }

  /** Every row of `t` is still in `t'`, unchanged. */
  ghost predicate KeepsRows(t: Table, t': Table) {
    forall id :: id in t.rows ==> id in t'.rows && t'.rows[id] == t.rows[id]
  }

  /** The reports `add_bulk` builds from a batch, in order. */
  function Built(columns: set<string>, ps: seq<Payload>): (rs: seq<Report>)
    ensures |rs| == |ps|
    ensures forall i :: 0 <= i < |ps| ==> rs[i] == NewReport(columns, ps[i])
  {
    seq(|ps|, i requires 0 <= i < |ps| => NewReport(columns, ps[i]))
  }

  /** `m` holds `rs[i]` under id `base + i`. */
  ghost predicate StoredFrom(m: map<nat, Report>, base: nat, rs: seq<Report>) {
    forall id: nat :: base <= id < base + |rs| ==> id in m && m[id] == rs[id - base]
  }

  /** Payload `i` is stored in `t'` under id `t.nextId + i`. */
  ghost predicate StoresBatch(t: Table, t': Table, ps: seq<Payload>) {
    StoredFrom(t'.rows, t.nextId, Built(t.columns, ps))
  }

  /**
   * After a successful flush the table holds the old rows unchanged plus
   * one new row per payload, under consecutive ids from `nextId`.
   */
  ghost predicate Extends(t: Table, t': Table, ps: seq<Payload>) {
    IdsGrow(t, t', |ps|) && KeepsRows(t, t') && StoresBatch(t, t', ps)
  }

  lemma IdsGrowCons(t: Table, r: Report, t2: Table, n: nat)
    requires IdsGrow(InsertRow(t, r), t2, n)
    ensures IdsGrow(t, t2, n + 1)
  {
  }

  lemma KeepsRowsCons(t: Table, r: Report, t2: Table)
    requires KeepsRows(InsertRow(t, r), t2)
    ensures KeepsRows(t, t2)
  {
    forall id | id in t.rows ensures id in t2.rows && t2.rows[id] == t.rows[id] {
      assert InsertRow(t, r).rows[id] == t.rows[id];
    }
  }

  /** A map that holds `r0` at `base` and `rs` from `base + 1` holds `[r0] + rs` from `base`. */
  lemma StoredFromCons(m: map<nat, Report>, base: nat, next: nat, r0: Report, rs: seq<Report>)
    requires base in m && m[base] == r0
    requires next == base + 1 && StoredFrom(m, next, rs)
    ensures StoredFrom(m, base, [r0] + rs)
  {
    var all := [r0] + rs;
    forall id: nat | base <= id < base + |all| ensures id in m && m[id] == all[id - base] {
      if id > base {
        assert all[id - base] == rs[id - next];
      }
    }
  }

  lemma BuiltCons(columns: set<string>, ps: seq<Payload>)
    requires |ps| > 0
    ensures Built(columns, ps) == [NewReport(columns, ps[0])] + Built(columns, ps[1..])
  {
  }

  lemma StoresBatchCons(t: Table, ps: seq<Payload>, t2: Table)
    requires |ps| > 0
    requires KeepsRows(InsertRow(t, NewReport(t.columns, ps[0])), t2)
    requires StoresBatch(InsertRow(t, NewReport(t.columns, ps[0])), t2, ps[1..])
    ensures StoresBatch(t, t2, ps)
  {
    var r0 := NewReport(t.columns, ps[0]);
    var t1 := InsertRow(t, r0);
    assert t.nextId in t1.rows && t1.rows[t.nextId] == r0;
    BuiltCons(t.columns, ps);
    StoredFromCons(t2.rows, t.nextId, t1.nextId, r0, Built(t1.columns, ps[1..]));
  }

  /** `Extends` for a batch follows from `Extends` for its tail after the first insert. */
  lemma ExtendsCons(t: Table, ps: seq<Payload>, t2: Table)
    requires |ps| > 0
    requires Extends(InsertRow(t, NewReport(t.columns, ps[0])), t2, ps[1..])
    ensures Extends(t, t2, ps)
  {
    var r := NewReport(t.columns, ps[0]);
    IdsGrowCons(t, r, t2, |ps| - 1);
    KeepsRowsCons(t, r, t2);
    StoresBatchCons(t, ps, t2);
  }

  lemma {:induction false} InsertEachExtends(t: Table, ps: seq<Payload>)
    ensures InsertEach(t, ps).Ok? ==> Extends(t, InsertEach(t, ps).value.table, ps)
    decreases |ps|
  {
    if |ps| > 0 && InsertEach(t, ps).Ok? {
      var t1 := InsertRow(t, NewReport(t.columns, ps[0]));
      InsertEachExtends(t1, ps[1..]);
      ExtendsCons(t, ps, InsertEach(t1, ps[1..]).value.table);
    }
  }

  /** The rows a successful flush returns: payload `i` under id `nextId + i`. */
  lemma {:induction false} InsertEachRows(t: Table, ps: seq<Payload>)
    ensures
      var res := InsertEach(t, ps);
      res.Ok? ==> forall i :: 0 <= i < |ps| ==> res.value.rows[i] == Row(t.nextId + i, NewReport(t.columns, ps[i]))
    decreases |ps|
  {
    var res := InsertEach(t, ps);
    if |ps| > 0 && res.Ok? {
      var r := NewReport(t.columns, ps[0]);
      var t1 := InsertRow(t, r);
      var tail := ps[1..];
      InsertEachRows(t1, tail);
      var rest := InsertEach(t1, tail).value.rows;
      assert res.value.rows == [Row(t.nextId, r)] + rest;
      forall i | 0 < i < |ps| ensures res.value.rows[i] == Row(t.nextId + i, NewReport(t.columns, ps[i])) {
        assert tail[i - 1] == ps[i];
        assert res.value.rows[i] == rest[i - 1];
      }
    }
  }

  /**
   * `add_bulk` succeeds exactly when every field is a known column and the
   * batch's keys are fresh; the table then gains one row per payload, with
   * consecutive ids from `nextId`, and the old rows are untouched.
   */
  lemma AddBulkOutcome(t: Table, ps: seq<Payload>)
    ensures AddBulk(t, ps).1.Ok? <==> AllFieldsKnown(t, ps) && FreshKeys(t, ps)
    ensures
      var res := AddBulk(t, ps);
      res.1.Ok? ==>
        && Extends(t, res.0, ps)
        && forall i :: 0 <= i < |ps| ==> res.1.value[i] == Row(t.nextId + i, NewReport(t.columns, ps[i]))
  {
    InsertEachOkIffFresh(t, ps);
    InsertEachExtends(t, ps);
    InsertEachRows(t, ps);
  }

  /** A batch of one behaves like `add`. */
  lemma AddBulkOfOne(t: Table, p: Payload)
    ensures AddBulk(t, [p]).1.Ok? <==> Add(t, p).1.Ok?
    ensures AddBulk(t, [p]).1.Ok? ==> AddBulk(t, [p]).0 == Add(t, p).0 && AddBulk(t, [p]).1.value == [Add(t, p).1.value]
    ensures AddBulk(t, [p]).1.Err? ==> AddBulk(t, [p]).1.error == Add(t, p).1.error
  {
    assert [p][0] == p && [p][1..] == [];
    assert AllFieldsKnown(t, [p]) <==> p.fields.Keys <= t.columns;
    var r := NewReport(t.columns, p);
    if !KeyTaken(t, r.Key()) {
      var t1 := InsertRow(t, r);
      assert InsertEach(t1, []) == Ok(Added(t1, []));
    }
  }

  // ---------------------------------------------------------------------------
  // upsert
  // ---------------------------------------------------------------------------

  /** With a lower-case symbol, the key `upsert` looks up is the key it stores. */
  lemma LowerPayloadKeys(p: Payload)
    requires IsLower(p.symbol)
    ensures p.LookupKey() == p.StoredKey()
  {
    LowerFixesLower(p.symbol);
  }

  /**
   * `upsert` on a business key that is present overwrites that row: same id,
   * same number of rows, `created == false`, every payload field applied.
   */
  lemma UpsertExistingKey(t: Table, p: Payload)
    requires Valid(t) && IsLower(p.symbol)
    requires KeyTaken(t, p.LookupKey())
    ensures
      var res := Upsert(t, p);
      && res.1.Ok? && !res.1.value.1
      && |res.0.rows| == |t.rows|
      && t.rows[res.1.value.0.id].Key() == p.LookupKey()
      && (forall c :: c in p.fields && c in t.columns ==> res.0.rows[res.1.value.0.id].content[c] == p.fields[c])
  {
    LowerPayloadKeys(p);
    FindDuplicateNeverRaises(t, p.symbol, p.reportType, p.reportYear, p.reportQuarter);
    var found := FindDuplicate(t, p.symbol, p.reportType, p.reportYear, p.reportQuarter);
    var id :| id in t.rows && t.rows[id].Key() == p.LookupKey();
    MatchesQueryIsKeyEquality(t.rows[id], p.symbol, p.reportType, p.reportYear, p.reportQuarter);
    var row := found.value.value;
    MatchesQueryIsKeyEquality(row.report, p.symbol, p.reportType, p.reportYear, p.reportQuarter);
    var r := ApplyPatch(row.report, PayloadPatch(p));
    assert !KeyTakenByOther(t, row.id, r.Key());
    var res := Upsert(t, p);
    assert res.0.rows.Keys == t.rows.Keys;
  }

  /** `upsert` on a new business key inserts one row: `created == true`, one more row. */
  lemma UpsertNewKey(t: Table, p: Payload)
    requires Valid(t) && IsLower(p.symbol) && p.fields.Keys <= t.columns
    requires !KeyTaken(t, p.LookupKey())
    ensures
      var res := Upsert(t, p);
      && res.1.Ok? && res.1.value.1
      && |res.0.rows| == |t.rows| + 1
      && res.1.value.0.id !in t.rows
      && res.0.rows[res.1.value.0.id].Key() == p.LookupKey()
  {
    LowerPayloadKeys(p);
    FindDuplicateNeverRaises(t, p.symbol, p.reportType, p.reportYear, p.reportQuarter);
  }

  /** Adding a row under a fresh id adds its key to the key set. */
  lemma KeySetAfterInsert(t: Table, t': Table, id: nat, r: Report)
    requires id !in t.rows && t'.rows == t.rows[id := r]
    ensures KeySet(t') == KeySet(t) + {r.Key()}
  {
    forall k | k in KeySet(t') ensures k in KeySet(t) + {r.Key()} {
      var j :| j in t'.rows && t'.rows[j].Key() == k;
      if j != id {
        assert t.rows[j].Key() == k;
      }
    }
    forall k | k in KeySet(t) ensures k in KeySet(t') {
      var j :| j in t.rows && t.rows[j].Key() == k;
      assert t'.rows[j].Key() == k;
    }
    assert t'.rows[id].Key() == r.Key();
  }

  /** Replacing a row by one with the same key keeps the key set. */
  lemma KeySetAfterReplace(t: Table, t': Table, id: nat, r: Report)
    requires id in t.rows && t'.rows.Keys == t.rows.Keys
    requires t'.rows[id] == r && r.Key() == t.rows[id].Key()
    requires forall other :: other in t.rows && other != id ==> t'.rows[other] == t.rows[other]
    ensures KeySet(t') == KeySet(t)
  {
    forall k | k in KeySet(t') ensures k in KeySet(t) {
      var j :| j in t'.rows && t'.rows[j].Key() == k;
      assert t.rows[j].Key() == k;
    }
    forall k | k in KeySet(t) ensures k in KeySet(t') {
      var j :| j in t.rows && t.rows[j].Key() == k;
      assert t'.rows[j].Key() == k;
    }
  }

  /**
   * With a lower-case symbol and known fields, `upsert` succeeds, reports a
   * creation exactly when the key was new, and the table's business keys
   * become the old keys plus the payload's.
   */
  lemma UpsertKeySet(t: Table, p: Payload)
    requires Valid(t) && IsLower(p.symbol) && p.fields.Keys <= t.columns
    ensures Upsert(t, p).1.Ok?
    ensures Upsert(t, p).1.value.1 <==> p.LookupKey() !in KeySet(t)
    ensures KeySet(Upsert(t, p).0) == KeySet(t) + {p.LookupKey()}
  {
    var k := p.LookupKey();
    LowerPayloadKeys(p);
    assert KeyTaken(t, k) <==> k in KeySet(t);
    var res := Upsert(t, p);
    if KeyTaken(t, k) {
      UpsertExistingKey(t, p);
      var row := res.1.value.0;
      KeySetAfterReplace(t, res.0, row.id, row.report);
    } else {
      UpsertNewKey(t, p);
      var row := res.1.value.0;
      KeySetAfterInsert(t, res.0, row.id, row.report);
    }
  }

  /** The rows of `t` whose business key is `k`. */
  ghost function RowsWithKey(t: Table, k: BusinessKey): set<nat> {
    set id | id in t.rows && t.rows[id].Key() == k
  }

  /** Under the unique constraint a row holding key `k` is the only one. */
  lemma OnlyRowWithKey(t: Table, id: nat, k: BusinessKey)
    requires Valid(t) && id in t.rows && t.rows[id].Key() == k
    ensures RowsWithKey(t, k) == {id}
  {
  }

  /**
   * `upsert` under the key of an existing row overwrites that row, which
   * stays the only one with the key.
   */
  lemma UpsertOverwritesOnlyRow(t: Table, p: Payload, id: nat)
    requires Valid(t) && IsLower(p.symbol) && p.fields.Keys <= t.columns
    requires id in t.rows && t.rows[id].Key() == p.LookupKey()
    ensures
      var res := Upsert(t, p);
      && res.1.Ok? && !res.1.value.1
      && res.1.value.0.id == id
      && |RowsWithKey(res.0, p.LookupKey())| == 1
      && (forall c :: c in p.fields ==> res.0.rows[id].content[c] == p.fields[c])
  {
    var k := p.LookupKey();
    UpsertExistingKey(t, p);
    var res := Upsert(t, p);
    OnlyRowWithKey(t, id, k);
    assert res.1.value.0.id in RowsWithKey(t, k);
    LowerPayloadKeys(p);
    OnlyRowWithKey(res.0, id, k);
  }

  /**
   * Upserting twice under one lower-case business key leaves exactly one row
   * for it; the second call reports an update of the row the first call
   * wrote, and its payload wins.
   */
  lemma UpsertTwiceConverges(t: Table, p1: Payload, p2: Payload)
    requires Valid(t) && IsLower(p1.symbol) && IsLower(p2.symbol)
    requires p1.fields.Keys <= t.columns && p2.fields.Keys <= t.columns
    requires p1.LookupKey() == p2.LookupKey()
    ensures
      var r1 := Upsert(t, p1);
      var r2 := Upsert(r1.0, p2);
      && r1.1.Ok? && r2.1.Ok? && !r2.1.value.1
      && r2.1.value.0.id == r1.1.value.0.id
      && |RowsWithKey(r2.0, p2.LookupKey())| == 1
      && (forall c :: c in p2.fields ==> r2.0.rows[r2.1.value.0.id].content[c] == p2.fields[c])
  {
    LowerPayloadKeys(p1);
    UpsertKeySet(t, p1);
    var r1 := Upsert(t, p1);
    UpsertOverwritesOnlyRow(r1.0, p2, r1.1.value.0.id);
  }

  /**
   * An upsert whose symbol is not lower-case finds the lower-case row but
   * then stores the symbol as given, so the row drops out of every symbol
   * lookup.
   */
  lemma MixedCaseUpsertHidesRow(t: Table, p: Payload, query: string)
    requires !IsLower(p.symbol)
    ensures
      var res := Upsert(t, p);
      res.1.Ok? ==> res.1.value.0.id !in SymbolIds(res.0, query)
  {
    var res := Upsert(t, p);
    if res.1.Ok? {
      assert res.0.rows[res.1.value.0.id].symbol == p.symbol;
      assert Lower(query) != p.symbol;
    }
  }

  // ---------------------------------------------------------------------------
  // upsert_bulk
  // ---------------------------------------------------------------------------

  /** The lower-cased business keys of a batch. */
  ghost function BatchKeys(ps: seq<Payload>): set<BusinessKey> {
    set i | 0 <= i < |ps| :: ps[i].LookupKey()
  }

  /** Every payload of the batch has a lower-case symbol and only known fields. */
  ghost predicate CleanBatch(t: Table, ps: seq<Payload>) {
    forall i :: 0 <= i < |ps| ==> IsLower(ps[i].symbol) && ps[i].fields.Keys <= t.columns
  }

  lemma BatchKeysCons(ps: seq<Payload>)
    requires |ps| > 0
    ensures BatchKeys(ps) == {ps[0].LookupKey()} + BatchKeys(ps[1..])
  {
    forall k | k in BatchKeys(ps) ensures k in {ps[0].LookupKey()} + BatchKeys(ps[1..]) {
      var i :| 0 <= i < |ps| && ps[i].LookupKey() == k;
      if i > 0 {
        assert ps[1..][i - 1] == ps[i];
      }
    }
    forall k | k in BatchKeys(ps[1..]) ensures k in BatchKeys(ps) {
      var i :| 0 <= i < |ps[1..]| && ps[1..][i].LookupKey() == k;
      assert ps[i + 1] == ps[1..][i];
    }
  }

  /** Adding `k` to a set grows it by one exactly when `k` was new. */
  lemma CardStep(a: set<BusinessKey>, a1: set<BusinessKey>, k: BusinessKey, isNew: bool)
    requires a1 == a + {k}
    requires isNew <==> k !in a
    ensures |a1| - |a| == (if isNew then 1 else 0)
  {
    if !isNew {
      assert a1 == a;
    }
  }

  /** One step of the key-set union: `k` moves from the batch to the table. */
  lemma UnionStep(a: set<BusinessKey>, a1: set<BusinessKey>, b: set<BusinessKey>, b1: set<BusinessKey>, k: BusinessKey)
    requires a1 == a + {k} && b == {k} + b1
    ensures a1 + b1 == a + b
  {
  }

  /** `a + b` has `|a|` plus the number of elements of `b` outside `a`. */
  lemma UnionCard(a: set<BusinessKey>, b: set<BusinessKey>)
    ensures |a + b| == |a| + |b - a|
  {
    var d := b - a;
    assert a + b == a + d;
    assert a * d == {};
  }

  lemma {:induction false} UpsertEachKeys(t: Table, ps: seq<Payload>)
    requires Valid(t) && CleanBatch(t, ps)
    ensures UpsertEach(t, ps).1.Ok?
    ensures KeySet(UpsertEach(t, ps).0) == KeySet(t) + BatchKeys(ps)
    ensures UpsertEach(t, ps).1.value.created == |KeySet(UpsertEach(t, ps).0)| - |KeySet(t)|
    decreases |ps|
  {
    if |ps| > 0 {
      var first := Upsert(t, ps[0]);
      UpsertKeySet(t, ps[0]);
      var t1 := first.0;
      var tail := ps[1..];
      assert CleanBatch(t1, tail);
      UpsertEachKeys(t1, tail);
      BatchKeysCons(ps);
      CardStep(KeySet(t), KeySet(t1), ps[0].LookupKey(), first.1.value.1);
      var rest := UpsertEach(t1, tail);
      assert UpsertEach(t, ps).0 == rest.0;
      assert UpsertEach(t, ps).1.value.created == rest.1.value.created + (if first.1.value.1 then 1 else 0);
      UnionStep(KeySet(t), KeySet(t1), BatchKeys(ps), BatchKeys(tail), ps[0].LookupKey());
    }
  }

  /**
   * `upsert_bulk` on a clean batch succeeds; it creates one row per business
   * key of the batch that the table did not hold, updates for every other
   * item, and the table ends up holding the union of the keys.
   */
  lemma UpsertBulkCountsNewKeys(t: Table, ps: seq<Payload>)
    requires Valid(t) && CleanBatch(t, ps)
    ensures
      var res := UpsertBulk(t, ps);
      && res.1.Ok?
      && res.1.value.created == |BatchKeys(ps) - KeySet(t)|
      && res.1.value.updated == |ps| - |BatchKeys(ps) - KeySet(t)|
      && res.1.value.total == |ps|
      && KeySet(res.0) == KeySet(t) + BatchKeys(ps)
  {
    UpsertEachKeys(t, ps);
    UnionCard(KeySet(t), BatchKeys(ps));
  }

  /**
   * `upsert_bulk` is not atomic: a batch is processed as its first part
   * followed by the rest, so the first part stays committed whatever happens
   * to the rest.
   */
  lemma {:induction false} UpsertEachSplits(t: Table, a: seq<Payload>, b: seq<Payload>)
    ensures
      var ra := UpsertEach(t, a);
      var whole := UpsertEach(t, a + b);
      ra.1.Err? ==> whole.0 == ra.0 && whole.1.Err? && whole.1.error == ra.1.error
    ensures
      var ra := UpsertEach(t, a);
      var whole := UpsertEach(t, a + b);
      ra.1.Ok? ==>
        var rb := UpsertEach(ra.0, b);
        && whole.0 == rb.0
        && (whole.1.Ok? <==> rb.1.Ok?)
        && (rb.1.Err? ==> whole.1.error == rb.1.error)
        && (rb.1.Ok? ==>
              && whole.1.value.created == ra.1.value.created + rb.1.value.created
              && whole.1.value.updated == ra.1.value.updated + rb.1.value.updated)
    decreases |a|
  {
    if |a| == 0 {
      assert a + b == b;
    } else {
      assert (a + b)[1..] == a[1..] + b;
      assert (a + b)[0] == a[0];
      var first := Upsert(t, a[0]);
      if first.1.Ok? {
        UpsertEachSplits(first.0, a[1..], b);
      }
    }
  }
}
