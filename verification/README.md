# Financial-report store, database start-up and settings: a Dafny model

This project models three parts of a financial-statement backend:

- `ReportRepository`. It stores `Financial Report` rows and supports:
  - inserting one report or a batch;
  - looking a report up by id, by stock symbol (case-insensitively) or by business key (symbol, report type, year, quarter);
  - partial updates;
  - upserting one report or a batch;
  - deleting by id or by symbol;
  - listing in symbol / year-descending / quarter order, with pagination;
  - counting all rows or the rows of one symbol.
- `DBManager`. It brings the SQL Server database up at start-up:
  - checks the server connection;
  - checks that the target database exists;
  - checks the required tables;
  - runs the Alembic migrations;
  - disposes the cached engines in a `finally` clause.
- `Settings`:
  - its field validators;
  - loading from the environment, where every field's error is reported;
  - the ODBC connection string `get_db_url` builds.

## Modules

- `Wrappers` (wrappers.dfy): `Option` and `Result`.
- `Text` (text.dfy):
  - ASCII lower-casing;
  - Python's `str.strip`, with its set of whitespace characters;
  - decimal formatting and parsing of integers;
  - `str.split` and `str.join`.
- `ReportModel` (report_model.dfy): the data.
  - A report is its business key plus a map from body column to `Value`.
  - The table is a map from id to report, with the next id to hand out.
  - The `Table` subset type holds well-formedness: every id lies below `nextId`.
  - `Valid` is the store invariant, made of two parts:
    - uniform columns: every row carries exactly the table's body columns, and those columns are disjoint from the business-key attributes;
    - unique business keys: no two rows share a key.
  - Every write preserves `Valid`.
- `ReportOrder` (report_order.dfy):
  - the ORDER BY of `get_all`, as a strict total order on rows;
  - an insertion sort proved to permute and sort.
- `ReportRepository` (report_repository.dfy): each repository method is a pure function. It maps the table to the new table and the method's result, or the error the database raises.
- `ReportLemmas` (report_lemmas.dfy): properties that relate several calls.
- `DbManager` (db_manager.dfy): the start-up manager.
  - The server and Alembic become an oracle `Server` that answers each question the manager asks.
  - Side effects become a trace of events.
  - The two cached engine slots are flags in the `World`.
- `DbManagerLemmas` (db_manager_lemmas.dfy): the outcome of `initialize` in each server situation, and engine bookkeeping:
  - every engine is created at most once;
  - `cleanup` runs last and disposes exactly the created engines.
- `Odbc` (odbc.dfy):
  - ODBC attribute lists, where values may be in braces and a `}` inside braces is doubled;
  - a reader for such lists;
  - a writer proved to round-trip through the reader.
- `Config` (config.dfy): the settings, the validators, loading, and `get_db_url`'s connection string.

## Model

| member | source | states |
|---|---|---|
| ReportModel.MatchesQueryIsKeyEquality | backend/database/repositories/report.py:96-107 | The `find_duplicate` filter is equality of business keys. The NULL branch (`IS NULL`) and the valued branch (`= q`) together match a row exactly when its quarter equals the query's. |
| ReportOrder.RowLtTransitive | backend/database/repositories/report.py:236-240 | The listing order (symbol ascending, year descending, quarter ascending with NULL first, then id) is transitive. |
| ReportOrder.RowLtTotal | backend/database/repositories/report.py:236-240 | Any two rows with different ids are ordered one way or the other. |
| ReportOrder.Sort | backend/database/repositories/report.py:236-247 | Sorting returns a permutation of its input (same multiset) that is sorted in listing order. |
| ReportRepository.SelectBelowComplete | backend/database/repositories/report.py:73-76 | Filtering a table misses no row: every row satisfying the WHERE clause is selected. |
| ReportRepository.NewReport | backend/database/repositories/report.py:30 | `FinancialReport(**data)` has the payload's business key. It has exactly the table's columns: a given field holds its value and every other column is NULL. |
| ReportRepository.ApplyPatch | backend/database/repositories/report.py:125-127 | Every field the patch names and the row has is overwritten. Every other field keeps its old value. |
| ReportRepository.InsertKeepsUnique | backend/database/repositories/report.py:30-33 | Inserting a report whose key is not taken keeps the store invariant. |
| ReportRepository.ReplaceKeepsUnique | backend/database/repositories/report.py:125-129 | Replacing a row by one whose key no other row holds keeps the store invariant. |
| ReportRepository.Add | backend/database/repositories/report.py:21-34 | An unknown field raises and changes nothing. A taken business key raises a unique-constraint error and changes nothing. Otherwise the report is stored under a fresh id with its payload values, no other row changes, and the invariant is kept. |
| ReportRepository.AddBulk | backend/database/repositories/report.py:36-50 | A failing batch leaves the table as it was. A successful batch returns one row per payload. The invariant is kept. |
| ReportRepository.GetById | backend/database/repositories/report.py:52-62 | The result is present exactly when the id is stored, and is the stored report. |
| ReportRepository.GetBySymbol | backend/database/repositories/report.py:64-76 | It returns exactly the rows whose stored symbol equals the lower-cased query, each once. |
| ReportRepository.FindDuplicate | backend/database/repositories/report.py:78-109 | A found row matches the query. Finding nothing means no row matches. It raises exactly when two distinct rows match, as `scalar_one_or_none` does. |
| ReportRepository.Update | backend/database/repositories/report.py:111-130 | A missing id returns None and changes nothing. Otherwise the patched row is written, and the write fails (table unchanged) exactly when the patched key collides with another row. The invariant is kept. |
| ReportRepository.Upsert | backend/database/repositories/report.py:132-163 | `created` is true exactly when no row has the payload's lower-cased key. An update overwrites that row's fields under the same id. A creation stores a new row. The invariant is kept. |
| ReportRepository.UpsertEach | backend/database/repositories/report.py:176-184 | The created and updated counters add up to the number of items. The table grows by exactly the created count. |
| ReportRepository.UpsertBulk | backend/database/repositories/report.py:165-190 | `created + updated == total == len(reports_data)`. The table grows by `created` rows. |
| ReportRepository.Delete | backend/database/repositories/report.py:192-206 | Returns true exactly when the id was present. Only that row disappears, and the other rows are unchanged. |
| ReportRepository.DeleteBySymbol | backend/database/repositories/report.py:208-222 | Exactly the rows whose symbol equals the lower-cased query are removed. The returned row count is the number of such rows. No other row changes. |
| ReportRepository.Listing | backend/database/repositories/report.py:236-240 | The listing holds every row of the table once, sorted in listing order. |
| ReportRepository.GetAll | backend/database/repositories/report.py:224-247 | A negative limit or offset is an error. Otherwise the page holds distinct rows of the table in SQL order and at most `limit` rows when a limit is given. Without pagination it covers the table. With an offset it is the listing's rows from index `offset` on: row `i` of the page is row `offset + i` of the listing, and the page has `min(limit, n - offset)` rows (none when `offset >= n`; all remaining when no positive limit is given). |
| ReportRepository.Count | backend/database/repositories/report.py:249-256 | `count()` is the number of rows in the full listing, which holds every row of the table once. |
| ReportRepository.CountBySymbol | backend/database/repositories/report.py:258-272 | `count_by_symbol(s)` is the number of rows `get_by_symbol(s)` returns, those whose symbol is the lower-cased query. |
| ReportLemmas.NullQuarterIsItsOwnPartition | backend/database/repositories/report.py:96-107 | A row found with no quarter has a NULL quarter, and a row found with quarter q has quarter q: the NULL and valued queries never see each other's rows. |
| ReportLemmas.FindDuplicateNeverRaises | backend/database/repositories/report.py:78-109 | Under the unique constraint, `find_duplicate` never sees two matching rows. |
| ReportLemmas.SymbolLookupIgnoresCase | backend/database/repositories/report.py:64-76 | `get_by_symbol`, `count_by_symbol`, `delete_by_symbol` and `find_duplicate` give the same answer for a symbol and its lower-case form. |
| ReportLemmas.AddThenGet | backend/database/repositories/report.py:21-62 | A report stored by `add` is what `get_by_id` returns for the new id. |
| ReportLemmas.DeleteThenGet | backend/database/repositories/report.py:52-62 | After `delete(id)`, `get_by_id(id)` is None, and lookups of other ids are unchanged. |
| ReportLemmas.CountIsListingLength | backend/database/repositories/report.py:249-256 | `count()` equals the length of the unpaginated `get_all()`. |
| ReportLemmas.CountBySymbolIsListingLength | backend/database/repositories/report.py:258-272 | `count_by_symbol(s)` equals the length of `get_by_symbol(s)`. |
| ReportLemmas.DeleteBySymbolEmptiesLookup | backend/database/repositories/report.py:208-222 | After `delete_by_symbol(s)`, `get_by_symbol(s)` is empty. |
| ReportLemmas.ZeroPaginationIsIgnored | backend/database/repositories/report.py:242-245 | A limit or offset of 0 is falsy and behaves like none at all. |
| ReportLemmas.PageIsSliceOfListing | backend/database/repositories/report.py:236-247 | For every limit and offset, including 0: the page is the slice of the full listing that skips `offset` rows (all of them when the listing is shorter) and keeps the next `limit` rows, or all that remain when the limit is 0. Without pagination it is the whole listing. |
| ReportLemmas.UpdateIgnoresUnknownFields | backend/database/repositories/report.py:125-127 | Fields the row does not have (`hasattr` false) are ignored by `update`. |
| ReportLemmas.InsertEachOkIffFresh | backend/database/repositories/report.py:47-49 | The bulk flush succeeds exactly when no payload's key is already taken and no two payloads share a key. |
| ReportLemmas.AddBulkOutcome | backend/database/repositories/report.py:36-50 | `add_bulk` succeeds exactly when all fields are known and the keys are fresh. Payload i is then stored and returned under id `nextId + i`, and every old row is kept unchanged. |
| ReportLemmas.AddBulkOfOne | backend/database/repositories/report.py:21-50 | A batch of one behaves as `add`: same success, same table, same row, same error. |
| ReportLemmas.UpsertExistingKey | backend/database/repositories/report.py:144-157 | Upserting a present key reports an update of that row and keeps the row count. Every payload field is applied. |
| ReportLemmas.UpsertNewKey | backend/database/repositories/report.py:158-163 | Upserting a new key reports a creation and adds exactly one row, under a new id, that holds the key. |
| ReportLemmas.UpsertKeySet | backend/database/repositories/report.py:132-163 | After an upsert, the set of business keys is the old set plus the payload's key. `created` says whether that key was new. |
| ReportLemmas.UpsertTwiceConverges | backend/database/repositories/report.py:132-163 | Two upserts under one key leave one row for that key. The second reports an update of the first one's row, and the second payload's fields win. |
| ReportLemmas.MixedCaseUpsertHidesRow | backend/database/repositories/report.py:144-163 | An upsert with a symbol that is not lower-case stores that symbol as given, so no symbol lookup finds the row. |
| ReportLemmas.UpsertBulkCountsNewKeys | backend/database/repositories/report.py:165-190 | `created` is the number of batch keys the table lacked and `updated` is the rest. The table ends with the union of the old keys and the batch keys. |
| ReportLemmas.UpsertEachSplits | backend/database/repositories/report.py:179-184 | Items are committed one by one. A failure in the first part of a batch stops there, and after a successful first part the rest runs on its result. |
| DbManager.GetEngine | backend/database/initializer.py:27-55 | The engine exists afterwards. It is created (one creation event) only if it did not exist, the other slot is untouched, and the engine ledger stays balanced. |
| DbManager.GetEngineCaches | backend/database/initializer.py:37-55 | A second `_get_engine` for the same kind changes nothing. Exactly one creation happens over both calls. |
| DbManager.EngineCreatedAtMostOnce | backend/database/initializer.py:37-55 | A balanced ledger never records two creations of one engine. |
| DbManager.VerifyConn | backend/database/initializer.py:57-71 | True exactly when the server answers on master. The master engine is created or reused. |
| DbManager.DbExists | backend/database/initializer.py:73-104 | True exactly when the server answers and the database is listed in `sys.databases`. |
| DbManager.CreateDb | backend/database/initializer.py:106-132 | True exactly when the server answers and the database already exists or can be created. After true the database exists, and no database other than the target appears. |
| DbManager.TablesExist | backend/database/initializer.py:134-188 | True exactly when the database exists, the target answers and all four required tables exist. The server is not changed. |
| DbManager.SyncTables | backend/database/initializer.py:190-217 | A missing database returns false after one lookup. Otherwise it returns true exactly when the migrations succeed, which adds their tables. It raises exactly when the migration error is not one of the caught types. |
| DbManager.DisposalsCount | backend/database/initializer.py:319-326 | `cleanup` disposes each engine exactly when it was created, and creates none. |
| DbManager.Cleanup | backend/database/initializer.py:319-326 | Each existing engine's disposal count grows by one. Creation counts, the engine slots and the server are unchanged. |
| DbManager.Initialize | backend/database/initializer.py:262-317 | The answer is the try block's answer, and the `finally` disposals come after every event of the try block, on every path including an escaping exception. |
| DbManager.InitBody | backend/database/initializer.py:276-311 | The try block returns false when master does not answer (the RuntimeError is caught) or the database is missing. It raises exactly when master answers, the database exists and the migrations fail with an uncaught error type. A true answer means all required tables exist at the end. |
| DbManagerLemmas.TablesExistWithoutDatabase | backend/database/initializer.py:147-148 | Without the database, `tables_exist` is false and never opens the target engine or lists tables. |
| DbManagerLemmas.CreateDbWhenPresent | backend/database/initializer.py:112-114 | On an existing database `create_db` returns true without issuing CREATE DATABASE. |
| DbManagerLemmas.CreateDbThenExists | backend/database/initializer.py:106-132 | After a successful `create_db`, `db_exists` is true. |
| DbManagerLemmas.SyncThenTablesExist | backend/database/initializer.py:190-217 | Migrations that create the required tables make `tables_exist` true afterwards. |
| DbManagerLemmas.TablesExistIsSubsetTest | backend/database/initializer.py:150-185 | When master answers and the database exists, `tables_exist` is true exactly when the target answers and every required table is among its tables, whatever other tables exist. The target engine exists afterwards. |
| DbManagerLemmas.InitUnreachable | backend/database/initializer.py:276-278 | An unreachable server makes `initialize` return false (the RuntimeError is caught). The trace is the ping followed by the master engine's disposal. |
| DbManagerLemmas.InitMissingDatabase | backend/database/initializer.py:280-286 | A missing database makes `initialize` return false with the server unchanged. The trace is the ping and the database lookup, then the master engine's disposal. |
| DbManagerLemmas.InitSyncFailure | backend/database/initializer.py:288-311 | When migrations fail with a caught error, `initialize` returns whether the tables were already complete. |
| DbManagerLemmas.InitMigrates | backend/database/initializer.py:288-311 | When migrations succeed, the answer is the required-table test on the migrated tables. |
| DbManagerLemmas.InitAnswerIsFinalCheck | backend/database/initializer.py:262-317 | Without an escaping error, `initialize` returns true exactly when the server answers, the database exists, and the final table check holds on the state after migrations. |
| DbManagerLemmas.InitEscapes | backend/database/initializer.py:313-317 | A migration error of an uncaught type escapes `initialize`, after `cleanup` has disposed both engines. |
| DbManagerLemmas.InitializeServer | backend/database/initializer.py:262-317 | `initialize` changes nothing on the server except the tables, which can only grow by the migrations' tables. |
| DbManagerLemmas.InitializeRepeatable | backend/database/initializer.py:262-317 | A successful `initialize` succeeds again when repeated. |
| DbManagerLemmas.BodySteady | backend/database/initializer.py:276-311 | The try block of `initialize` disposes nothing and keeps the engine ledger balanced. |
| DbManagerLemmas.InitializeKeepsLedger | backend/database/initializer.py:262-326 | After `initialize`, each engine has been created at most once. |
| DbManagerLemmas.CleanupRunsLast | backend/database/initializer.py:262-326 | On a new manager, every disposal comes after every other event. Each engine is disposed exactly as often as it was created (at most once), and the master engine exactly once. |
| Config.ValidateNotEmpty | backend/core/config.py:61-67 | Accepts exactly the strings that are not all whitespace (the empty string included in the rejects), returning them unchanged. The rejection message is "Field cannot be empty". |
| Config.ValidatePortRange | backend/core/config.py:69-77 | Accepts exactly 1..65535 unchanged. The rejection message names the value. |
| Config.ValidatePositive | backend/core/config.py:79-85 | Accepts exactly the positive values unchanged. The rejection message names the value. |
| Config.RejectionNamesValue | backend/core/config.py:73-84 | A rejection message is the fixed prefix followed by text that parses back to the rejected value. |
| Config.Build | backend/core/config.py:20-59 | Every field of the result is fixed: a given value is taken as it is, and an absent optional one takes its declared default (APP_PORT 8000, DB_DRIVER "ODBC Driver 18 for SQL Server", DB_PORT 1433, DB_TRUST_CERT "yes", ALGORITHM "HS256", ACCESS_TOKEN_EXPIRE_MINUTES 10080, ALEMBIC_INI_PATH "alembic.ini"). The result satisfies every validator. |
| Config.Load | backend/core/config.py:13-85 | Loading succeeds exactly when every required field is present and every validated field given passes its validator. On success the result is `Build`'s settings for that environment, so every field is as `Build` states; it satisfies every validator. A failure reports at least one field error. |
| Config.LoadNamesMissingFields | backend/core/config.py:20-38 | A missing APP_NAME, APP_VER, DB_NAME, DB_HOST, DB_USER, DB_PASSWORD or SECRET_KEY makes the load fail with "Field required" under that field's name. |
| Config.LoadNamesMissingServiceFields | backend/core/config.py:45-59 | The same for ALEMBIC_SCRIPT_PATH, GEMINI_API, GEMINI_MODEL, LM_STUDIO_URL and LM_STUDIO_MODEL. |
| Config.LoadNamesRejectedSecrets | backend/core/config.py:60-66 | A blank DB_PASSWORD or SECRET_KEY makes the load fail with "Field cannot be empty" under that field's name. |
| Config.LoadNamesRejectedNumbers | backend/core/config.py:68-84 | A port outside 1..65535 and a token lifetime that is not positive make the load fail with that validator's message, which names the rejected value, under the field's name. |
| Config.Errors | backend/core/config.py:20-85 | There are no field errors exactly when every required field is present and every given validated field passes. That loading collects every field's errors, not only the first, is stated field by field by the `Config.LoadNames*` lemmas. |
| Config.DatabaseFor | backend/core/config.py:103 | The database is "master" exactly when the master URL is asked for or DB_NAME is "master". Otherwise it is DB_NAME. |
| Config.Attributes | backend/core/config.py:103-110 | The connection string is built from exactly six attributes. What each attribute reads back as is stated by `Config.ConnectionStringParses` and `Config.ConnectionStringSplits`. |
| Config.ConnectionString | backend/core/config.py:103-110 | The connection string is the attributes joined by ';', with a final ';' after the last one. It is never empty and always ends in ';'. |
| Config.ConnectionStringSplits | backend/core/config.py:104-111 | When no field holds ';', the connection string splits on ';' into exactly its six attributes (DRIVER in braces, SERVER=host,port, DATABASE, UID, PWD, TrustServerCertificate) followed by the empty piece after the final ';'. |
| Config.MasterDiffersOnlyInDatabase | backend/core/config.py:103-111 | The master and target connection strings differ only in DATABASE, which is "master" for the master engine and DB_NAME otherwise. |
| Config.SeparatorInPasswordSplitsIt | backend/core/config.py:104-111 | Split on ';', a password `before;after` (neither part holding ';') gives eight pieces instead of seven: "PWD=before", then `after` as a piece of its own. |
| Config.SafeConnectionStringParses | backend/core/config.py:104-111 | With braced values, an ODBC reader recovers every attribute, the password included, whatever characters it holds. |
| Config.ConnectionStringParses | backend/core/config.py:104-111 | As written, when no value holds ';' or starts with '{' and the driver holds no '}', an ODBC reader gets back exactly the six attributes, the same list the braced form gives. |
| Config.SeparatorInPasswordMisreads | backend/core/config.py:104-111 | As written, a password `before;after`, with `before` a plain value and `after` holding neither ';' nor '=', reaches an ODBC reader as PWD=`before`. The rest of the password runs into the next key, `after;TrustServerCertificate`, so no TrustServerCertificate attribute is read. |
| Odbc.ParseRender | backend/core/config.py:104-111 | Reading a rendered attribute list returns every key and value. |

## Findings

| source | as written | input that shows it | evidently intended | confidence | as-written member | corrected member |
|---|---|---|---|---|---|---|
| backend/core/config.py:104-111 | `PWD={self.DB_PASSWORD};` puts the password in the connection string without braces. The same holds for DATABASE, UID, SERVER and TrustServerCertificate. | DB_PASSWORD = `a;b` gives `...;PWD=a;b;TrustServerCertificate=yes;`. Read as ODBC attributes, this is PWD=`a` followed by an attribute whose key is `b;TrustServerCertificate` and whose value is `yes`: the password is cut and the TrustServerCertificate setting is lost. | Each value reaches the driver intact. The ODBC rule is to wrap the value in braces and double any `}` inside, as the code already does for DRIVER. | medium, not executed | Config.SeparatorInPasswordMisreads | Config.SafeConnectionStringParses |

`validate_not_empty` accepts any password that is not blank, including one holding `;`. Such a password is legal for SQL Server, so the loss is not prevented by validation.

## Left out

- Commits, sessions, refreshes and the ORM's identity map: a method that returns a table committed it.
- An error leaves the table as it was before the failing statement.
- ReportRepository.Add, ReportRepository.AddBulk, ReportRepository.Upsert: identity values consumed by a failed insert are reused in the model. SQL Server's IDENTITY counter advances on an INSERT that fails, so the ids the database hands out later can be larger than the model's. How many values a failed bulk insert consumes depends on the statements the ORM sends before the failure, which is not modelled.
- Lower-casing is ASCII-only. Python's `str.lower` also maps non-ASCII letters.
- Strings compare by code point. SQL Server's collation (case-insensitive by default) is not modelled. The model's ORDER BY on `symbol` and its `=` on symbols are binary.
- Rows that tie on every ORDER BY column are listed by ascending id in the model. The database leaves their order unspecified. The ordering contracts of `GetAll` state only the SQL guarantee. Its index contract, which makes a page a slice of `Listing`, relies on the model's tie order.
- A payload's `id` key is not modelled: the id is always assigned by the store. `add` would pass such a key to the constructor. `update` ignores an `id` key in its data, where the source's `hasattr` check passes and it would try to set the identity column. The update branch of `upsert` skips `id` as the source does.
- The balance-sheet, income-statement and cash-flow child tables and the ORM relationships are not modelled.
- The unique business-key constraint is assumed to exist on the table. The ORM model declaring it is not part of this model.
- Concurrency between sessions is not modelled.
- `ReportRepository.UpsertBulk`: the model stops at the first failing item and keeps the items committed before it, as the loop does. It does not model a caller's retry.
- `ReportRepository.GetAll`: a negative limit or offset is an error, because SQL Server rejects it. The exact error text is not modelled.
- `DbManager.GetEngine`: `create_engine` is assumed to succeed. Connection failures surface at the first query, as they do with SQLAlchemy.
- The `if not result:` guards in `db_exists` (initializer.py:88-92) and `tables_exist` (initializer.py:164-168) are treated as unreachable by `DbManager.DbExists` and `DbManager.TablesExist`: an executed SELECT always returns a result object.
- `list_tables` is not modelled. It is a diagnostic query that `initialize` never calls.
- `DbManager.CreateDb`: the quoting of the database name in `CREATE DATABASE [name]` is not modelled.
- Alembic's own connection and its migration scripts are an oracle. `upgrade` either succeeds and adds a set of tables, fails with a caught error, or fails with an error of another type.
- Odbc.Parse: a key runs up to the next '='. Driver managers differ on text between two ';' that holds no '=': some skip it and some reject the whole string. The model reads it as part of the next key.
- Config.Errors: the order of the errors in the list is not stated by any contract. Only their presence is stated.
- Config.Attributes: its own contract states only the number of attributes. Their keys and values are stated through the connection string, by `Config.ConnectionStringSplits`, `Config.ConnectionStringParses` and `Config.MasterDiffersOnlyInDatabase`.
- Logging, `quote_plus` on the connection string, engine pool settings and the `mssql+pyodbc` URL prefix are not modelled.
- `Config.Load`:
  - the environment's values arrive already typed; pydantic's coercion of text to `int` and its "Input should be a valid integer" error are not modelled;
  - the `.env` file reading is not modelled;
  - error messages are the validators' own text, without pydantic's "Value error, " prefix.
- `Config.Load`: validators run only on values the environment gives. Declared defaults are not validated, which is pydantic's default behaviour; all declared defaults pass anyway.
- The module-level `settings = Settings()` (config.py:116-122) re-raises any load failure as a `RuntimeError` whose message embeds pydantic's error. `Config.Load` returns the field errors as an `Err` instead; the wrapping exception and its message are not modelled.
- `ALGORITHM`, `APP_NAME`, `APP_VER` and the API and path settings are carried as plain text without validation, as in the class.
- The FastAPI application, the API routes, `main.py` and `database.py` are not part of this model.
