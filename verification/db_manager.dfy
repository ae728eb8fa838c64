/**
 * `DBManager`: the start-up procedure that checks the SQL Server instance,
 * the target database and its tables, and runs the Alembic migrations.
 *
 * The server and Alembic are replaced by an oracle (`Server`) that answers
 * every question the manager asks, and the manager's side effects become a
 * trace of events. Each method is a pure function from a `World` (the
 * server, the manager's cached engines and the trace so far) to the next
 * world and the method's answer.
 */
module DbManager {

  // ---------------------------------------------------------------------------
  // The environment
  // ---------------------------------------------------------------------------

  /** The two engines the manager caches: one on `master`, one on the target database. */
  datatype EngineKind = Master | Target

  /** What `command.upgrade(cfg, "head")` does. */
  datatype Upgrade =
    | Migrates   // applies the pending migrations
    | Fails      // raises SQLAlchemyError, RuntimeError or FileNotFoundError, which `sync_tables` catches
    | Escapes    // raises any other exception, which nothing in the manager catches

  /**
   * The SQL Server instance and the migration scripts as the manager sees
   * them. `masterUp` and `targetUp` say whether a statement on the master and
   * on the target database runs or raises a SQLAlchemyError.
   */
  datatype Server = Server(
    masterUp: bool,
    targetUp: bool,
    canCreate: bool,              // CREATE DATABASE succeeds
    databases: set<string>,       // the names in sys.databases
    tables: set<string>,          // the base tables of schema dbo in the target database
    upgrade: Upgrade,
    migrationTables: set<string>) // the tables the migrations at head create

  /**
   * A side effect of the manager, in the order it happens: an engine created
   * or disposed, or a statement the manager attempts. An attempt is logged
   * even when its server is down and the connection fails.
   */
  datatype Event =
    | EngineCreated(kind: EngineKind)
    | Ping                 // SELECT 1 on master
    | LookupDatabase       // SELECT 1 FROM sys.databases WHERE name = :db_name
    | CreateDatabase       // CREATE DATABASE [db_name]
    | ListTables           // SELECT TABLE_NAME FROM INFORMATION_SCHEMA.TABLES on the target
    | RunMigrations        // command.upgrade(cfg, "head")
    | EngineDisposed(kind: EngineKind)

  /** The server, the manager's state (`db_name` and its two engine slots) and the trace. */
  datatype World = World(server: Server, dbName: string, hasMaster: bool, hasTarget: bool, trace: seq<Event>)

  /** A method's answer: `Returned(b)` for a return value, `Raised` for an escaping exception. */
  datatype Outcome = Returned(value: bool) | Raised

  /** A new `DBManager`: no engine created yet, nothing done. */
  predicate Fresh(w: World) {
    !w.hasMaster && !w.hasTarget && w.trace == []
  }

  /** The tables `tables_exist` requires. */
  const RequiredTables: set<string> :=
    {"balance_sheet_items", "income_statement_items", "cash_flow_statement_items", "financial_reports"}

  function HasEngine(w: World, kind: EngineKind): bool {
    match kind
    case Master => w.hasMaster
    case Target => w.hasTarget
  }

  /** `w` with `events` appended to its trace. */
  function Log(w: World, events: seq<Event>): (w': World)
    ensures w'.server == w.server && w'.dbName == w.dbName
    ensures w'.hasMaster == w.hasMaster && w'.hasTarget == w.hasTarget
    ensures w'.trace == w.trace + events
  {
    w.(trace := w.trace + events)
  }

  /** How many times `e` occurs in `events`. */
  function Count(events: seq<Event>, e: Event): nat
    decreases |events|
  {
    if |events| == 0 then 0
    else Count(events[..|events| - 1], e) + (if events[|events| - 1] == e then 1 else 0)
  }

  lemma {:induction false} CountAppend(a: seq<Event>, b: seq<Event>, e: Event)
    ensures Count(a + b, e) == Count(a, e) + Count(b, e)
    decreases |b|
  {
    if |b| == 0 {
      assert a + b == a;
    } else {
      assert (a + b)[..|a + b| - 1] == a + b[..|b| - 1];
      assert (a + b)[|a + b| - 1] == b[|b| - 1];
      CountAppend(a, b[..|b| - 1], e);
    }
  }

  /** An event occurs in a trace exactly when it is counted there. */
  lemma {:induction false} CountPositiveIffIn(events: seq<Event>, e: Event)
    ensures Count(events, e) > 0 <==> e in events
    decreases |events|
  {
    if |events| > 0 {
      var init := events[..|events| - 1];
      CountPositiveIffIn(init, e);
      assert events == init + [events[|events| - 1]];
    }
  }

  // ---------------------------------------------------------------------------
  // Engine bookkeeping
  // ---------------------------------------------------------------------------

  /**
   * Every engine the manager holds was created exactly once in the trace and
   * every engine it does not hold was never created.
   */
  predicate Ledger(w: World) {
    forall kind: EngineKind :: Count(w.trace, EngineCreated(kind)) == (if HasEngine(w, kind) then 1 else 0)
  }

  /** A new manager's ledger is balanced. */
  lemma FreshLedger(w: World)
    requires Fresh(w)
    ensures Ledger(w)
  {
  }

  /** The events of `_get_engine(kind)`: a creation the first time, nothing after. */
  function NewEngine(w: World, kind: EngineKind): seq<Event> {
    if HasEngine(w, kind) then [] else [EngineCreated(kind)]
  }

  /**
   * `_get_engine(is_master)`: creates the engine on first use and returns the
   * cached one afterwards. The model assumes `create_engine` succeeds.
   */
  function GetEngine(w: World, kind: EngineKind): (w': World)
    ensures HasEngine(w', kind)
    ensures forall other: EngineKind :: other != kind ==> HasEngine(w', other) == HasEngine(w, other)
    ensures w'.server == w.server && w'.dbName == w.dbName
    ensures w'.trace == w.trace + NewEngine(w, kind)
    ensures Ledger(w) ==> Ledger(w')
  {
    var w' := match kind
      case Master => w.(hasMaster := true, trace := w.trace + NewEngine(w, kind))
      case Target => w.(hasTarget := true, trace := w.trace + NewEngine(w, kind));
    assert Ledger(w) ==> Ledger(w') by {
      if Ledger(w) {
        forall k: EngineKind ensures Count(w'.trace, EngineCreated(k)) == (if HasEngine(w', k) then 1 else 0) {
          CountAppend(w.trace, NewEngine(w, kind), EngineCreated(k));
        }
      }
    }
    w'
  }

  /** A second `_get_engine` for the same kind does nothing: the engine is cached. */
  lemma GetEngineCaches(w: World, kind: EngineKind)
    ensures GetEngine(GetEngine(w, kind), kind) == GetEngine(w, kind)
    ensures Count(GetEngine(w, kind).trace, EngineCreated(kind)) == Count(w.trace, EngineCreated(kind)) + (if HasEngine(w, kind) then 0 else 1)
  {
    CountAppend(w.trace, NewEngine(w, kind), EngineCreated(kind));
    var w1 := GetEngine(w, kind);
    assert w1.trace + [] == w1.trace;
  }

  /**
   * Under the ledger, however often the manager asks for an engine, each
   * engine is created at most once.
   */
  lemma EngineCreatedAtMostOnce(w: World, kind: EngineKind)
    requires Ledger(w)
    ensures Count(w.trace, EngineCreated(kind)) <= 1
  {
  }

  // ---------------------------------------------------------------------------
  // The probing methods
  // ---------------------------------------------------------------------------

  /** The world after a probe, and what the probe returned. */
  datatype Answer = Answer(world: World, ok: bool)

  /** `verify_conn`: runs SELECT 1 on master; a SQLAlchemyError means false. */
  function VerifyConn(w: World): (a: Answer)
    ensures a.ok <==> w.server.masterUp
    ensures a.world == Log(GetEngine(w, Master), [Ping])
  {
    Answer(Log(GetEngine(w, Master), [Ping]), w.server.masterUp)
  }

  /** `db_exists`: looks the target's name up in sys.databases through the master engine. */
  function DbExists(w: World): (a: Answer)
    ensures a.ok <==> w.server.masterUp && w.dbName in w.server.databases
    ensures a.world == Log(GetEngine(w, Master), [LookupDatabase])
  {
    Answer(Log(GetEngine(w, Master), [LookupDatabase]), w.server.masterUp && w.dbName in w.server.databases)
  }

  /**
   * `create_db`: true at once when `db_exists` says so; otherwise issues
   * CREATE DATABASE on master, and a SQLAlchemyError means false.
   */
  function CreateDb(w: World): (a: Answer)
    ensures a.ok ==> w.dbName in a.world.server.databases
    ensures a.ok <==> w.server.masterUp && (w.dbName in w.server.databases || w.server.canCreate)
    ensures a.world.server.databases <= w.server.databases + {w.dbName}
  {
    var check := DbExists(w);
    if check.ok then check
    else
      var w1 := Log(GetEngine(check.world, Master), [CreateDatabase]);
      if w.server.masterUp && w.server.canCreate then
        Answer(w1.(server := w1.server.(databases := w1.server.databases + {w.dbName})), true)
      else
        Answer(w1, false)
  }

  /**
   * `tables_exist`: false when the database is missing, without touching the
   * target; otherwise lists the target's base tables and checks that the
   * required four are among them.
   */
  function TablesExist(w: World): (a: Answer)
    ensures a.ok <==> w.server.masterUp && w.dbName in w.server.databases && w.server.targetUp && RequiredTables <= w.server.tables
    ensures a.world.server == w.server && a.world.dbName == w.dbName
  {
    var check := DbExists(w);
    if !check.ok then check
    else Answer(Log(GetEngine(check.world, Target), [ListTables]), w.server.targetUp && RequiredTables <= w.server.tables)
  }

  /** The world and outcome of a step that may raise. */
  datatype Step = Step(world: World, outcome: Outcome)

  /**
   * `sync_tables`: false when the database is missing, without running
   * Alembic; otherwise upgrades to head. The errors it catches mean false
   * and leave the tables as they were; any other error escapes.
   */
  function SyncTables(w: World): (s: Step)
    ensures !(w.server.masterUp && w.dbName in w.server.databases) ==>
      s.outcome == Returned(false) && s.world.trace == w.trace + NewEngine(w, Master) + [LookupDatabase]
    ensures s.outcome == Returned(true) <==> w.server.masterUp && w.dbName in w.server.databases && w.server.upgrade == Migrates
    ensures s.outcome == Raised <==> w.server.masterUp && w.dbName in w.server.databases && w.server.upgrade == Escapes
    ensures s.world.server == w.server.(tables := if s.outcome == Returned(true) then w.server.tables + w.server.migrationTables else w.server.tables)
    ensures s.world.dbName == w.dbName
  {
    var check := DbExists(w);
    if !check.ok then Step(check.world, Returned(false))
    else
      var w1 := Log(check.world, [RunMigrations]);
      match w.server.upgrade
      case Migrates => Step(w1.(server := w1.server.(tables := w1.server.tables + w1.server.migrationTables)), Returned(true))
      case Fails => Step(w1, Returned(false))
      case Escapes => Step(w1, Raised)
  }

  // ---------------------------------------------------------------------------
  // initialize and cleanup
  // ---------------------------------------------------------------------------

  /** The disposals `cleanup` performs: the target engine first, then master, each only if created. */
  function Disposals(w: World): seq<Event> {
    (if w.hasTarget then [EngineDisposed(Target)] else []) + (if w.hasMaster then [EngineDisposed(Master)] else [])
  }

  /** `cleanup` disposes each engine exactly when it exists, and creates none. */
  lemma DisposalsCount(w: World, kind: EngineKind)
    ensures Count(Disposals(w), EngineDisposed(kind)) == (if HasEngine(w, kind) then 1 else 0)
    ensures Count(Disposals(w), EngineCreated(kind)) == 0
  {
    var d := Disposals(w);
    var t := if w.hasTarget then [EngineDisposed(Target)] else [];
    var m := if w.hasMaster then [EngineDisposed(Master)] else [];
    CountAppend(t, m, EngineDisposed(kind));
    CountAppend(t, m, EngineCreated(kind));
    assert t == [] || t[..0] == [];
    assert m == [] || m[..0] == [];
  }

  /** `cleanup`: disposes the engines that exist. It does not clear the engine slots. */
  function Cleanup(w: World): (w': World)
    ensures w'.server == w.server && w'.hasMaster == w.hasMaster && w'.hasTarget == w.hasTarget
    ensures forall kind: EngineKind :: Count(w'.trace, EngineDisposed(kind)) == Count(w.trace, EngineDisposed(kind)) + (if HasEngine(w, kind) then 1 else 0)
    ensures forall kind: EngineKind :: Count(w'.trace, EngineCreated(kind)) == Count(w.trace, EngineCreated(kind))
  {
    var w' := Log(w, Disposals(w));
    forall kind: EngineKind
      ensures Count(w'.trace, EngineDisposed(kind)) == Count(w.trace, EngineDisposed(kind)) + (if HasEngine(w, kind) then 1 else 0)
      ensures Count(w'.trace, EngineCreated(kind)) == Count(w.trace, EngineCreated(kind))
    {
      DisposalsCount(w, kind);
      CountAppend(w.trace, Disposals(w), EngineDisposed(kind));
      CountAppend(w.trace, Disposals(w), EngineCreated(kind));
    }
    w'
  }

  /**
   * The body of `initialize`'s try block. A failed connection check raises
   * RuntimeError, which the handler of the same try block turns into false.
   * Only an error from the migrations escapes, and true means the required
   * tables are there at the end.
   */
  function InitBody(w: World): (s: Step)
    ensures !w.server.masterUp || w.dbName !in w.server.databases ==> s.outcome == Returned(false)
    ensures s.outcome == Raised <==> w.server.masterUp && w.dbName in w.server.databases && w.server.upgrade == Escapes
    ensures s.outcome == Returned(true) ==> RequiredTables <= s.world.server.tables
  {
    var conn := VerifyConn(w);
    if !conn.ok then Step(conn.world, Returned(false))
    else
      var found := DbExists(conn.world);
      if !found.ok then Step(found.world, Returned(false))
      else
        var before := TablesExist(found.world);
        var sync := SyncTables(before.world);
        if sync.outcome == Raised then sync
        else if !before.ok && sync.outcome == Returned(false) then sync
        else
          var after := TablesExist(sync.world);
          Step(after.world, Returned(after.ok))
  }

  /** `initialize`: the try block, then `cleanup` in the finally clause, on every path. */
  function Initialize(w: World): (s: Step)
    ensures s.world.trace == InitBody(w).world.trace + Disposals(InitBody(w).world)
    ensures s.outcome == InitBody(w).outcome
  {
    var body := InitBody(w);
    Step(Cleanup(body.world), body.outcome)
  }
}
