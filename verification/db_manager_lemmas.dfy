/**
 * Properties of `DBManager.initialize` and its helpers: which probes run on
 * which path, what the answer means, that `cleanup` runs last on every path
 * and disposes exactly the engines that were created, and that each engine
 * is created at most once.
 */
module DbManagerLemmas {
  import opened DbManager

  /** The state `tables_exist` reports on, once the database is known to exist. */
  predicate TablesReady(server: Server) {
    server.targetUp && RequiredTables <= server.tables
  }

  // ---------------------------------------------------------------------------
  // The helpers
  // ---------------------------------------------------------------------------

  /** With the database missing, `tables_exist` is false and never opens the target engine. */
  lemma TablesExistWithoutDatabase(w: World)
    requires !(w.server.masterUp && w.dbName in w.server.databases)
    ensures !TablesExist(w).ok
    ensures TablesExist(w).world == DbExists(w).world
    ensures TablesExist(w).world.hasTarget == w.hasTarget
    ensures ListTables !in TablesExist(w).world.trace[|w.trace|..]
  {
    var w' := TablesExist(w).world;
    assert w'.trace[|w.trace|..] == NewEngine(w, Master) + [LookupDatabase];
  }

  /** On an existing database, `tables_exist` is exactly the subset test on the target's tables. */
  lemma TablesExistIsSubsetTest(w: World)
    requires w.server.masterUp && w.dbName in w.server.databases
    ensures TablesExist(w).ok <==> TablesReady(w.server)
    ensures TablesExist(w).world.hasTarget
  {
  }

  /** `create_db` on an existing database returns true without issuing CREATE DATABASE. */
  lemma CreateDbWhenPresent(w: World)
    requires w.server.masterUp && w.dbName in w.server.databases
    ensures CreateDb(w).ok
    ensures CreateDb(w).world == DbExists(w).world
    ensures CreateDatabase !in CreateDb(w).world.trace[|w.trace|..]
  {
    var w' := CreateDb(w).world;
    assert w'.trace[|w.trace|..] == NewEngine(w, Master) + [LookupDatabase];
  }

  /** After a successful `create_db`, `db_exists` holds. */
  lemma CreateDbThenExists(w: World)
    requires CreateDb(w).ok
    ensures DbExists(CreateDb(w).world).ok
  {
  }

  /** Migrations that create the required tables make `tables_exist` true afterwards. */
  lemma SyncThenTablesExist(w: World)
    requires w.server.masterUp && w.dbName in w.server.databases && w.server.targetUp
    requires w.server.upgrade == Migrates && RequiredTables <= w.server.migrationTables
    ensures SyncTables(w).outcome == Returned(true)
    ensures TablesExist(SyncTables(w).world).ok
  {
    var s := SyncTables(w);
    assert s.world.server == w.server.(tables := w.server.tables + w.server.migrationTables);
  }

  // ---------------------------------------------------------------------------
  // The decision procedure of initialize
  // ---------------------------------------------------------------------------

  /**
   * An unreachable server: the RuntimeError raised for it is caught by the
   * same try block, so `initialize` returns false after the connection
   * check alone, and the engines it created are then disposed.
   */
  lemma InitUnreachable(w: World)
    requires !w.server.masterUp
    ensures Initialize(w).outcome == Returned(false)
    ensures Initialize(w).world.server == w.server
    ensures Initialize(w).world.trace == w.trace + NewEngine(w, Master) + [Ping] + Disposals(GetEngine(w, Master))
  {
  }

  /**
   * A missing database: `initialize` returns false after the lookup, never
   * creates the database and never runs the migrations.
   */
  lemma InitMissingDatabase(w: World)
    requires w.server.masterUp && w.dbName !in w.server.databases
    ensures Initialize(w).outcome == Returned(false)
    ensures Initialize(w).world.server == w.server
    ensures Initialize(w).world.trace == w.trace + NewEngine(w, Master) + [Ping, LookupDatabase] + Disposals(GetEngine(w, Master))
  {
    var w1 := GetEngine(w, Master);
    assert w1.hasMaster;
    assert Log(Log(w1, [Ping]), [LookupDatabase]).trace == w.trace + NewEngine(w, Master) + [Ping, LookupDatabase];
  }

  /**
   * A failed migration is fatal only when tables were missing: with the
   * tables in place `initialize` still returns true, otherwise false.
   */
  lemma InitSyncFailure(w: World)
    requires w.server.masterUp && w.dbName in w.server.databases
    requires w.server.upgrade == Fails
    ensures Initialize(w).outcome == Returned(TablesReady(w.server))
    ensures Initialize(w).world.server == w.server
  {
  }

  /** Migrations that succeed: the answer is the subset test on the migrated tables. */
  lemma InitMigrates(w: World)
    requires w.server.masterUp && w.dbName in w.server.databases
    requires w.server.upgrade == Migrates
    ensures Initialize(w).outcome == Returned(w.server.targetUp && RequiredTables <= w.server.tables + w.server.migrationTables)
    ensures Initialize(w).world.server.tables == w.server.tables + w.server.migrationTables
  {
  }

  /**
   * Once the connection and the database are there, and the migration does
   * not raise, `initialize` returns the final `tables_exist()`; it returns
   * true exactly when all three hold.
   */
  lemma InitAnswerIsFinalCheck(w: World)
    requires w.server.upgrade != Escapes
    ensures Initialize(w).outcome.Returned?
    ensures w.server.masterUp && w.dbName in w.server.databases ==>
      Initialize(w).outcome == Returned(TablesReady(Initialize(w).world.server))
    ensures Initialize(w).outcome == Returned(true) <==>
      w.server.masterUp && w.dbName in w.server.databases && TablesReady(Initialize(w).world.server)
  {
    if w.server.masterUp && w.dbName in w.server.databases {
      if w.server.upgrade == Fails {
        InitSyncFailure(w);
      } else {
        InitMigrates(w);
      }
    }
  }

  /** A migration error nobody catches escapes `initialize`, after `cleanup` disposed both engines. */
  lemma InitEscapes(w: World)
    requires w.server.masterUp && w.dbName in w.server.databases
    requires w.server.upgrade == Escapes
    ensures Initialize(w).outcome == Raised
    ensures Count(Initialize(w).world.trace, EngineDisposed(Master)) == Count(w.trace, EngineDisposed(Master)) + 1
    ensures Count(Initialize(w).world.trace, EngineDisposed(Target)) == Count(w.trace, EngineDisposed(Target)) + 1
  {
    var body := InitBody(w).world;
    assert body.hasMaster && body.hasTarget;
    BodySteady(w);
  }

  /** `initialize` touches nothing on the server but the tables, which the migrations can only add to. */
  lemma InitializeServer(w: World)
    ensures
      var server := Initialize(w).world.server;
      && server.(tables := w.server.tables) == w.server
      && w.server.tables <= server.tables <= w.server.tables + w.server.migrationTables
  {
    var conn := VerifyConn(w);
    if conn.ok {
      var found := DbExists(conn.world);
      if found.ok {
        var before := TablesExist(found.world);
        assert before.world.server == w.server;
        var sync := SyncTables(before.world);
        assert TablesExist(sync.world).world.server == sync.world.server;
      }
    }
  }

  /** A successful `initialize` succeeds again when repeated on the same manager. */
  lemma InitializeRepeatable(w: World)
    requires w.server.upgrade != Escapes
    requires Initialize(w).outcome == Returned(true)
    ensures Initialize(Initialize(w).world).outcome == Returned(true)
  {
    var w1 := Initialize(w).world;
    InitAnswerIsFinalCheck(w);
    InitializeServer(w);
    InitializeServer(w1);
    InitAnswerIsFinalCheck(w1);
  }

  // ---------------------------------------------------------------------------
  // Engines and cleanup
  // ---------------------------------------------------------------------------

  /**
   * `w'` follows `w`: the same manager, the ledger kept, no engine disposed
   * in between.
   */
  predicate Steady(w: World, w': World) {
    && w'.dbName == w.dbName
    && (Ledger(w) ==> Ledger(w'))
    && Count(w'.trace, EngineDisposed(Master)) == Count(w.trace, EngineDisposed(Master))
    && Count(w'.trace, EngineDisposed(Target)) == Count(w.trace, EngineDisposed(Target))
  }

  lemma SteadyTrans(a: World, b: World, c: World)
    requires Steady(a, b) && Steady(b, c)
    ensures Steady(a, c)
  {
  }

  /** Logging a probe that neither creates nor disposes an engine. */
  lemma LogSteady(w: World, e: Event)
    requires !e.EngineCreated? && !e.EngineDisposed?
    ensures Steady(w, Log(w, [e]))
  {
    assert [e][..0] == [];
    forall kind: EngineKind
      ensures Count(Log(w, [e]).trace, EngineCreated(kind)) == Count(w.trace, EngineCreated(kind))
      ensures Count(Log(w, [e]).trace, EngineDisposed(kind)) == Count(w.trace, EngineDisposed(kind))
    {
      CountAppend(w.trace, [e], EngineCreated(kind));
      CountAppend(w.trace, [e], EngineDisposed(kind));
    }
  }

  lemma GetEngineSteady(w: World, kind: EngineKind)
    ensures Steady(w, GetEngine(w, kind))
  {
    var n := NewEngine(w, kind);
    assert n == [] || n[..0] == [];
    CountAppend(w.trace, n, EngineDisposed(Master));
    CountAppend(w.trace, n, EngineDisposed(Target));
  }

  lemma ProbeSteady(w: World, kind: EngineKind, e: Event)
    requires !e.EngineCreated? && !e.EngineDisposed?
    ensures Steady(w, Log(GetEngine(w, kind), [e]))
  {
    GetEngineSteady(w, kind);
    LogSteady(GetEngine(w, kind), e);
    SteadyTrans(w, GetEngine(w, kind), Log(GetEngine(w, kind), [e]));
  }

  lemma TablesExistSteady(w: World)
    ensures Steady(w, TablesExist(w).world)
  {
    ProbeSteady(w, Master, LookupDatabase);
    var found := DbExists(w);
    if found.ok {
      ProbeSteady(found.world, Target, ListTables);
      SteadyTrans(w, found.world, TablesExist(w).world);
    }
  }

  lemma SyncTablesSteady(w: World)
    ensures Steady(w, SyncTables(w).world)
  {
    ProbeSteady(w, Master, LookupDatabase);
    var found := DbExists(w);
    if found.ok {
      LogSteady(found.world, RunMigrations);
      SteadyTrans(w, found.world, Log(found.world, [RunMigrations]));
    }
  }

  /** The try block of `initialize` keeps the ledger and disposes nothing. */
  lemma BodySteady(w: World)
    ensures Steady(w, InitBody(w).world)
  {
    ProbeSteady(w, Master, Ping);
    var conn := VerifyConn(w);
    if conn.ok {
      ProbeSteady(conn.world, Master, LookupDatabase);
      SteadyTrans(w, conn.world, DbExists(conn.world).world);
      var found := DbExists(conn.world);
      if found.ok {
        TablesExistSteady(found.world);
        SteadyTrans(w, found.world, TablesExist(found.world).world);
        var before := TablesExist(found.world);
        SyncTablesSteady(before.world);
        SteadyTrans(w, before.world, SyncTables(before.world).world);
        var sync := SyncTables(before.world);
        TablesExistSteady(sync.world);
        SteadyTrans(w, sync.world, TablesExist(sync.world).world);
      }
    }
  }

  /**
   * However many times `initialize` runs on one manager, each engine is
   * created at most once: the ledger survives every run.
   */
  lemma InitializeKeepsLedger(w: World, kind: EngineKind)
    requires Ledger(w)
    ensures Ledger(Initialize(w).world)
    ensures Count(Initialize(w).world.trace, EngineCreated(kind)) <= 1
  {
    BodySteady(w);
    EngineCreatedAtMostOnce(Initialize(w).world, kind);
  }

  /**
   * On a new manager, `cleanup` runs after everything else: the try block
   * disposes nothing, every disposal comes after it, and each engine is
   * disposed exactly as often as it was created, at most once. The master
   * engine is always created, so always disposed.
   */
  lemma CleanupRunsLast(w: World, kind: EngineKind)
    requires Fresh(w)
    ensures
      var body := InitBody(w).world;
      && Count(body.trace, EngineDisposed(kind)) == 0
      && Initialize(w).world.trace == body.trace + Disposals(body)
    ensures Count(Initialize(w).world.trace, EngineDisposed(kind)) == Count(Initialize(w).world.trace, EngineCreated(kind)) <= 1
    ensures Count(Initialize(w).world.trace, EngineDisposed(Master)) == 1
  {
    BodySteady(w);
    FreshLedger(w);
    var body := InitBody(w).world;
    assert body.hasMaster;
    InitializeKeepsLedger(w, kind);
  }
}
