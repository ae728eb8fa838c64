/**
 * `Settings`: the application's configuration, its field validators, the
 * way loading collects every field's error, and the ODBC connection string
 * `get_db_url` builds before URL-quoting it.
 */
module Config {
  import opened Wrappers
  import opened Text
  import opened Odbc

  // ---------------------------------------------------------------------------
  // Field validators
  // ---------------------------------------------------------------------------

  /** `validate_not_empty` (DB_PASSWORD, SECRET_KEY): the empty string or one of only whitespace fails. */
  function ValidateNotEmpty(value: string): (r: Result<string, string>)
    ensures r.Ok? <==> !AllSpace(value)
    ensures r.Ok? ==> r.value == value
    ensures r.Err? ==> r.error == "Field cannot be empty"
  {
    StripEmptyIffAllSpace(value);
    if |value| == 0 || Strip(value) == [] then Err("Field cannot be empty") else Ok(value)
  }

  const MinPort: int := 1
  const MaxPort: int := 65535

  const PortMessagePrefix: string := "Port must be between 1 and 65535, got "

  /** `validate_port_range` (APP_PORT, DB_PORT). */
  function ValidatePortRange(value: int): (r: Result<int, string>)
    ensures r.Ok? <==> MinPort <= value <= MaxPort
    ensures r.Ok? ==> r.value == value
    ensures r.Err? ==> r.error == PortMessagePrefix + IntToString(value)
  {
    if !(MinPort <= value <= MaxPort) then Err(PortMessagePrefix + IntToString(value)) else Ok(value)
  }

  const PositiveMessagePrefix: string := "Value must be positive, got "

  /** `validate_positive` (ACCESS_TOKEN_EXPIRE_MINUTES). */
  function ValidatePositive(value: int): (r: Result<int, string>)
    ensures r.Ok? <==> value > 0
    ensures r.Ok? ==> r.value == value
    ensures r.Err? ==> r.error == PositiveMessagePrefix + IntToString(value)
  {
    if value <= 0 then Err(PositiveMessagePrefix + IntToString(value)) else Ok(value)
  }

  /** The message of a rejected value ends with the value's decimal text, which reads back as the value. */
  lemma RejectionNamesValue(value: int)
    ensures ValidatePortRange(value).Err? ==>
      var m := ValidatePortRange(value).error;
      && |m| > |PortMessagePrefix|
      && m[..|PortMessagePrefix|] == PortMessagePrefix
      && ParseInt(m[|PortMessagePrefix|..]) == value
    ensures ValidatePositive(value).Err? ==>
      var m := ValidatePositive(value).error;
      && |m| > |PositiveMessagePrefix|
      && m[..|PositiveMessagePrefix|] == PositiveMessagePrefix
      && ParseInt(m[|PositiveMessagePrefix|..]) == value
  {
    IntToStringRoundTrip(value);
    var digits := IntToString(value);
    assert (PortMessagePrefix + digits)[|PortMessagePrefix|..] == digits;
    assert (PositiveMessagePrefix + digits)[|PositiveMessagePrefix|..] == digits;
  }

  // ---------------------------------------------------------------------------
  // Loading
  // ---------------------------------------------------------------------------

  /** The settings, in declaration order, after loading. */
  datatype Settings = Settings(
    appName: string,
    appVer: string,
    appPort: int,
    dbDriver: string,
    dbName: string,
    dbHost: string,
    dbPort: int,
    dbUser: string,
    dbPassword: string,
    dbTrustCert: string,
    secretKey: string,
    algorithm: string,
    accessTokenExpireMinutes: int,
    alembicIniPath: string,
    alembicScriptPath: string,
    geminiApi: string,
    geminiModel: string,
    lmStudioUrl: string,
    lmStudioModel: string)

  /** The values the environment supplies; `None` for a variable that is not set. */
  datatype Env = Env(
    appName: Option<string>,
    appVer: Option<string>,
    appPort: Option<int>,
    dbDriver: Option<string>,
    dbName: Option<string>,
    dbHost: Option<string>,
    dbPort: Option<int>,
    dbUser: Option<string>,
    dbPassword: Option<string>,
    dbTrustCert: Option<string>,
    secretKey: Option<string>,
    algorithm: Option<string>,
    accessTokenExpireMinutes: Option<int>,
    alembicIniPath: Option<string>,
    alembicScriptPath: Option<string>,
    geminiApi: Option<string>,
    geminiModel: Option<string>,
    lmStudioUrl: Option<string>,
    lmStudioModel: Option<string>)

  /** One field's failure, as the loader reports it. */
  datatype FieldError = FieldError(field: string, message: string)

  const Missing: string := "Field required"

  /** A required field without a validator. */
  function RequiredText(name: string, o: Option<string>): (errs: seq<FieldError>)
    ensures errs == [] <==> o.Some?
  {
    if o.None? then [FieldError(name, Missing)] else []
  }

  /** A required field checked by `validate_not_empty`. */
  function RequiredSecret(name: string, o: Option<string>): (errs: seq<FieldError>)
    ensures errs == [] <==> o.Some? && !AllSpace(o.value)
  {
    if o.None? then [FieldError(name, Missing)]
    else match ValidateNotEmpty(o.value)
      case Ok(_) => []
      case Err(m) => [FieldError(name, m)]
  }

  /**
   * A defaulted field checked by `validate_port_range`. The validator runs on
   * a value the environment gives, not on the default.
   */
  function OptionalPort(name: string, o: Option<int>): (errs: seq<FieldError>)
    ensures errs == [] <==> o.None? || MinPort <= o.value <= MaxPort
  {
    if o.None? then []
    else match ValidatePortRange(o.value)
      case Ok(_) => []
      case Err(m) => [FieldError(name, m)]
  }

  /** A defaulted field checked by `validate_positive`. */
  function OptionalPositive(name: string, o: Option<int>): (errs: seq<FieldError>)
    ensures errs == [] <==> o.None? || o.value > 0
  {
    if o.None? then []
    else match ValidatePositive(o.value)
      case Ok(_) => []
      case Err(m) => [FieldError(name, m)]
  }

  /**
   * Every field's errors: loading does not stop at the
   * first. There are none exactly when the environment is acceptable.
   */
  function Errors(env: Env): (errs: seq<FieldError>)
    ensures errs == [] <==> Acceptable(env)
  {
    RequiredText("APP_NAME", env.appName)
    + RequiredText("APP_VER", env.appVer)
    + OptionalPort("APP_PORT", env.appPort)
    + RequiredText("DB_NAME", env.dbName)
    + RequiredText("DB_HOST", env.dbHost)
    + OptionalPort("DB_PORT", env.dbPort)
    + RequiredText("DB_USER", env.dbUser)
    + RequiredSecret("DB_PASSWORD", env.dbPassword)
    + RequiredSecret("SECRET_KEY", env.secretKey)
    + OptionalPositive("ACCESS_TOKEN_EXPIRE_MINUTES", env.accessTokenExpireMinutes)
    + RequiredText("ALEMBIC_SCRIPT_PATH", env.alembicScriptPath)
    + RequiredText("GEMINI_API", env.geminiApi)
    + RequiredText("GEMINI_MODEL", env.geminiModel)
    + RequiredText("LM_STUDIO_URL", env.lmStudioUrl)
    + RequiredText("LM_STUDIO_MODEL", env.lmStudioModel)
  }

  /** What the class declares, stated field by field: required fields set, validated fields valid. */
  predicate Acceptable(env: Env) {
    && env.appName.Some? && env.appVer.Some? && env.dbName.Some? && env.dbHost.Some?
    && env.dbUser.Some? && env.dbPassword.Some? && env.secretKey.Some? && env.alembicScriptPath.Some?
    && env.geminiApi.Some? && env.geminiModel.Some? && env.lmStudioUrl.Some? && env.lmStudioModel.Some?
    && (env.appPort.None? || MinPort <= env.appPort.value <= MaxPort)
    && (env.dbPort.None? || MinPort <= env.dbPort.value <= MaxPort)
    && !AllSpace(env.dbPassword.value) && !AllSpace(env.secretKey.value)
    && (env.accessTokenExpireMinutes.None? || env.accessTokenExpireMinutes.value > 0)
  }

  /** What every loaded `Settings` satisfies. */
  predicate ValidSettings(s: Settings) {
    && MinPort <= s.appPort <= MaxPort
    && MinPort <= s.dbPort <= MaxPort
    && !AllSpace(s.dbPassword) && !AllSpace(s.secretKey)
    && s.accessTokenExpireMinutes > 0
  }

  /** The settings an acceptable environment yields: given values as they are, defaults for the rest. */
  function Build(env: Env): (s: Settings)
    requires Acceptable(env)
    ensures ValidSettings(s)
    ensures s.dbName == env.dbName.value && s.dbHost == env.dbHost.value && s.dbUser == env.dbUser.value
    ensures s.dbPassword == env.dbPassword.value && s.secretKey == env.secretKey.value
    ensures s.appPort == env.appPort.GetOr(8000) && s.dbPort == env.dbPort.GetOr(1433)
    ensures s.dbDriver == env.dbDriver.GetOr("ODBC Driver 18 for SQL Server")
    ensures s.dbTrustCert == env.dbTrustCert.GetOr("yes")
    ensures s.accessTokenExpireMinutes == env.accessTokenExpireMinutes.GetOr(10080)
    ensures s.appName == env.appName.value && s.appVer == env.appVer.value
    ensures s.algorithm == env.algorithm.GetOr("HS256")
    ensures s.alembicIniPath == env.alembicIniPath.GetOr("alembic.ini")
    ensures s.alembicScriptPath == env.alembicScriptPath.value
    ensures s.geminiApi == env.geminiApi.value && s.geminiModel == env.geminiModel.value
    ensures s.lmStudioUrl == env.lmStudioUrl.value && s.lmStudioModel == env.lmStudioModel.value
  {
    Settings(
      env.appName.value,
      env.appVer.value,
      env.appPort.GetOr(8000),
      env.dbDriver.GetOr("ODBC Driver 18 for SQL Server"),
      env.dbName.value,
      env.dbHost.value,
      env.dbPort.GetOr(1433),
      env.dbUser.value,
      env.dbPassword.value,
      env.dbTrustCert.GetOr("yes"),
      env.secretKey.value,
      env.algorithm.GetOr("HS256"),
      env.accessTokenExpireMinutes.GetOr(10080),
      env.alembicIniPath.GetOr("alembic.ini"),
      env.alembicScriptPath.value,
      env.geminiApi.value,
      env.geminiModel.value,
      env.lmStudioUrl.value,
      env.lmStudioModel.value)
  }

  /** `Settings()`: the settings, or every field's error at once. */
  function Load(env: Env): (r: Result<Settings, seq<FieldError>>)
    ensures r.Ok? <==> Acceptable(env)
    ensures r.Ok? ==> ValidSettings(r.value)
    ensures r.Ok? ==> r.value == Build(env)
    ensures r.Err? ==> |r.error| > 0
  {
    if Errors(env) == [] then Ok(Build(env)) else Err(Errors(env))
  }

  /** A failed load names each missing application, database or security field with "Field required". */
  lemma LoadNamesMissingFields(env: Env)
    ensures env.appName.None? ==> Load(env).Err? && FieldError("APP_NAME", Missing) in Load(env).error
    ensures env.appVer.None? ==> Load(env).Err? && FieldError("APP_VER", Missing) in Load(env).error
    ensures env.dbName.None? ==> Load(env).Err? && FieldError("DB_NAME", Missing) in Load(env).error
    ensures env.dbHost.None? ==> Load(env).Err? && FieldError("DB_HOST", Missing) in Load(env).error
    ensures env.dbUser.None? ==> Load(env).Err? && FieldError("DB_USER", Missing) in Load(env).error
    ensures env.dbPassword.None? ==> Load(env).Err? && FieldError("DB_PASSWORD", Missing) in Load(env).error
    ensures env.secretKey.None? ==> Load(env).Err? && FieldError("SECRET_KEY", Missing) in Load(env).error
  {
  }

  /** The same for the migration, API-key and local-model settings. */
  lemma LoadNamesMissingServiceFields(env: Env)
    ensures env.alembicScriptPath.None? ==> Load(env).Err? && FieldError("ALEMBIC_SCRIPT_PATH", Missing) in Load(env).error
    ensures env.geminiApi.None? ==> Load(env).Err? && FieldError("GEMINI_API", Missing) in Load(env).error
    ensures env.geminiModel.None? ==> Load(env).Err? && FieldError("GEMINI_MODEL", Missing) in Load(env).error
    ensures env.lmStudioUrl.None? ==> Load(env).Err? && FieldError("LM_STUDIO_URL", Missing) in Load(env).error
    ensures env.lmStudioModel.None? ==> Load(env).Err? && FieldError("LM_STUDIO_MODEL", Missing) in Load(env).error
  {
  }

  /** A failed load names each blank secret with the emptiness validator's message. */
  lemma LoadNamesRejectedSecrets(env: Env)
    ensures env.dbPassword.Some? && AllSpace(env.dbPassword.value) ==>
      Load(env).Err? && FieldError("DB_PASSWORD", "Field cannot be empty") in Load(env).error
    ensures env.secretKey.Some? && AllSpace(env.secretKey.value) ==>
      Load(env).Err? && FieldError("SECRET_KEY", "Field cannot be empty") in Load(env).error
  {
  }

  /** A failed load names each port out of range, and a token lifetime that is not positive, with that validator's message. */
  lemma LoadNamesRejectedNumbers(env: Env)
    ensures env.appPort.Some? && !(MinPort <= env.appPort.value <= MaxPort) ==>
      Load(env).Err? && FieldError("APP_PORT", PortMessagePrefix + IntToString(env.appPort.value)) in Load(env).error
    ensures env.dbPort.Some? && !(MinPort <= env.dbPort.value <= MaxPort) ==>
      Load(env).Err? && FieldError("DB_PORT", PortMessagePrefix + IntToString(env.dbPort.value)) in Load(env).error
    ensures env.accessTokenExpireMinutes.Some? && env.accessTokenExpireMinutes.value <= 0 ==>
      Load(env).Err? &&
      FieldError("ACCESS_TOKEN_EXPIRE_MINUTES", PositiveMessagePrefix + IntToString(env.accessTokenExpireMinutes.value)) in Load(env).error
  {
  }

  // ---------------------------------------------------------------------------
  // get_db_url
  // ---------------------------------------------------------------------------

  /**
   * The database `get_db_url` connects to: the master URL always reaches
   * master, and the target URL reaches master only when DB_NAME says so.
   */
  function DatabaseFor(s: Settings, isMaster: bool): (db: string)
    ensures db == "master" <==> isMaster || s.dbName == "master"
    ensures !isMaster ==> db == s.dbName
  {
    if isMaster then "master" else s.dbName
  }

  /** One attribute: `key=value`. */
  function Assign(key: string, value: string): string {
    key + "=" + value
  }

  /** The attributes of the connection string, in order; only the driver is braced. */
  function Attributes(s: Settings, isMaster: bool): (parts: seq<string>)
    ensures |parts| == 6
  {
    [ Assign("DRIVER", "{" + s.dbDriver + "}"),
      Assign("SERVER", s.dbHost + "," + IntToString(s.dbPort)),
      Assign("DATABASE", DatabaseFor(s, isMaster)),
      Assign("UID", s.dbUser),
      Assign("PWD", s.dbPassword),
      Assign("TrustServerCertificate", s.dbTrustCert) ]
  }

  /** Each part followed by ';'. */
  function Terminated(parts: seq<string>): string
    decreases |parts|
  {
    if |parts| == 0 then [] else parts[0] + ";" + Terminated(parts[1..])
  }

  /**
   * The ODBC connection string of `get_db_url`, before `quote_plus`: the six
   * attributes, each ended by ';'.
   */
  function ConnectionString(s: Settings, isMaster: bool): (c: string)
    ensures c == Join(Attributes(s, isMaster) + [""], ';')
    ensures |c| > 0 && c[|c| - 1] == ';'
  {
    TerminatedIsJoin(Attributes(s, isMaster));
    TerminatedEndsWithSeparator(Attributes(s, isMaster));
    Terminated(Attributes(s, isMaster))
  }

  /** No text field of the connection string contains the separator. */
  predicate NoSeparator(s: Settings) {
    && ';' !in s.dbDriver && ';' !in s.dbName && ';' !in s.dbHost
    && ';' !in s.dbUser && ';' !in s.dbPassword && ';' !in s.dbTrustCert
  }

  lemma {:induction false} TerminatedIsJoin(parts: seq<string>)
    ensures Terminated(parts) == Join(parts + [""], ';')
    decreases |parts|
  {
    if |parts| > 0 {
      TerminatedIsJoin(parts[1..]);
      assert (parts + [""])[1..] == parts[1..] + [""];
    }
  }

  lemma {:induction false} TerminatedEndsWithSeparator(parts: seq<string>)
    requires |parts| > 0
    ensures |Terminated(parts)| > 0 && Terminated(parts)[|Terminated(parts)| - 1] == ';'
    decreases |parts|
  {
    if |parts| > 1 {
      TerminatedEndsWithSeparator(parts[1..]);
    } else {
      assert parts[1..] == [];
    }
  }

  lemma {:induction false} TerminatedAppend(a: seq<string>, b: seq<string>)
    ensures Terminated(a + b) == Terminated(a) + Terminated(b)
    decreases |a|
  {
    if |a| > 0 {
      assert (a + b)[1..] == a[1..] + b;
      TerminatedAppend(a[1..], b);
    } else {
      assert a + b == b;
    }
  }

  /** No attribute contains ';' when no field does. */
  lemma AttributesHaveNoSeparator(s: Settings, isMaster: bool)
    requires NoSeparator(s)
    ensures forall i :: 0 <= i < |Attributes(s, isMaster) + [""]| ==> ';' !in (Attributes(s, isMaster) + [""])[i]
  {
    var a := Attributes(s, isMaster) + [""];
    var port := IntToString(s.dbPort);
    assert ';' !in port by {
      forall i | 0 <= i < |port| ensures port[i] != ';' {
        assert IsDigit(port[i]) || port[i] == '-';
      }
    }
    forall i | 0 <= i < |a|
      ensures ';' !in a[i]
    {
      if i == 0 { NoSeparatorInAssign("DRIVER", "{" + s.dbDriver + "}"); }
      else if i == 1 { NoSeparatorInAssign("SERVER", s.dbHost + "," + port); }
      else if i == 2 { NoSeparatorInAssign("DATABASE", DatabaseFor(s, isMaster)); }
      else if i == 3 { NoSeparatorInAssign("UID", s.dbUser); }
      else if i == 4 { NoSeparatorInAssign("PWD", s.dbPassword); }
      else if i == 5 { NoSeparatorInAssign("TrustServerCertificate", s.dbTrustCert); }
    }
  }

  lemma NoSeparatorInAssign(key: string, value: string)
    requires ';' !in key && ';' !in value
    ensures ';' !in Assign(key, value)
  {
  }

  /**
   * Splitting the connection string on ';' gives back the six attributes
   * (and the empty piece after the last ';') when no field contains ';'.
   */
  lemma ConnectionStringSplits(s: Settings, isMaster: bool)
    requires NoSeparator(s)
    ensures Split(ConnectionString(s, isMaster), ';') == Attributes(s, isMaster) + [""]
  {
    TerminatedIsJoin(Attributes(s, isMaster));
    AttributesHaveNoSeparator(s, isMaster);
    SplitJoin(Attributes(s, isMaster) + [""], ';');
  }

  /**
   * The master and the target connection strings differ only in the DATABASE
   * attribute, which names "master" or DB_NAME.
   */
  lemma MasterDiffersOnlyInDatabase(s: Settings)
    requires NoSeparator(s)
    ensures var master := Split(ConnectionString(s, true), ';');
            var target := Split(ConnectionString(s, false), ';');
            && |master| == |target| == 7
            && master[2] == "DATABASE=master"
            && target[2] == "DATABASE=" + s.dbName
            && (forall i :: 0 <= i < 7 && i != 2 ==> master[i] == target[i])
  {
    ConnectionStringSplits(s, true);
    ConnectionStringSplits(s, false);
  }

  // ---------------------------------------------------------------------------
  // Values holding ';'
  // ---------------------------------------------------------------------------

  /**
   * A password holding ';' ends the PWD attribute early: what follows the ';'
   * becomes an attribute of its own and the server receives only the part
   * before it.
   */
  lemma SeparatorInPasswordSplitsIt(s: Settings, isMaster: bool, before: string, after: string)
    requires NoSeparator(s.(dbPassword := before))
    requires ';' !in after
    requires s.dbPassword == before + ";" + after
    ensures var pieces := Split(ConnectionString(s, isMaster), ';');
            && |pieces| == 8
            && pieces[4] == Assign("PWD", before)
            && pieces[4] != Assign("PWD", s.dbPassword)
            && pieces[5] == after
  {
    var a := Attributes(s.(dbPassword := before), isMaster);
    var parts := a[..4] + [Assign("PWD", before), after, a[5], ""];
    PasswordSplitText(s, isMaster, before, after);
    PasswordSplitPieces(s, isMaster, before, after);
    SplitJoin(parts, ';');
    assert |Assign("PWD", before)| < |Assign("PWD", s.dbPassword)|;
  }

  /** The connection string with a ';' in the password, written as the pieces the ';'s delimit. */
  lemma PasswordSplitText(s: Settings, isMaster: bool, before: string, after: string)
    requires s.dbPassword == before + ";" + after
    ensures var a := Attributes(s.(dbPassword := before), isMaster);
            ConnectionString(s, isMaster) == Join(a[..4] + [Assign("PWD", before), after, a[5], ""], ';')
  {
    var t := s.(dbPassword := before);
    var a := Attributes(t, isMaster);
    var split := [Assign("PWD", before), after, a[5]];
    var parts := a[..4] + split + [""];
    var pwd := Assign("PWD", s.dbPassword);
    assert ConnectionString(s, isMaster) == Terminated(a[..4]) + Terminated([pwd, a[5]]) by {
      assert Attributes(s, isMaster) == a[..4] + [pwd, a[5]];
      TerminatedAppend(a[..4], [pwd, a[5]]);
    }
    assert Terminated([pwd, a[5]]) == Terminated(split) by {
      assert [pwd, a[5]][1..] == [a[5]];
      assert split[1..] == [after, a[5]];
      assert [after, a[5]][1..] == [a[5]];
      assert pwd == Assign("PWD", before) + ";" + after;
    }
    assert Join(parts, ';') == Terminated(a[..4]) + Terminated(split) by {
      TerminatedIsJoin(a[..4] + split);
      TerminatedAppend(a[..4], split);
    }
    assert parts == a[..4] + [Assign("PWD", before), after, a[5], ""];
  }

  /** None of those pieces holds ';'. */
  lemma PasswordSplitPieces(s: Settings, isMaster: bool, before: string, after: string)
    requires NoSeparator(s.(dbPassword := before))
    requires ';' !in after
    ensures var a := Attributes(s.(dbPassword := before), isMaster);
            var parts := a[..4] + [Assign("PWD", before), after, a[5], ""];
            forall i :: 0 <= i < |parts| ==> ';' !in parts[i]
  {
    var t := s.(dbPassword := before);
    var a := Attributes(t, isMaster);
    var parts := a[..4] + [Assign("PWD", before), after, a[5], ""];
    AttributesHaveNoSeparator(t, isMaster);
    forall i | 0 <= i < |parts|
      ensures ';' !in parts[i]
    {
      if i < 4 { assert parts[i] == (a + [""])[i]; }
      else if i == 4 { assert parts[i] == (a + [""])[4]; }
      else if i == 6 { assert parts[i] == (a + [""])[5]; }
    }
  }

  /** The attributes with every value in braces, as ODBC reads a value holding ';' or '}'. */
  function SafeAttributes(s: Settings, isMaster: bool): seq<Attribute> {
    [ Attribute("DRIVER", s.dbDriver),
      Attribute("SERVER", s.dbHost + "," + IntToString(s.dbPort)),
      Attribute("DATABASE", DatabaseFor(s, isMaster)),
      Attribute("UID", s.dbUser),
      Attribute("PWD", s.dbPassword),
      Attribute("TrustServerCertificate", s.dbTrustCert) ]
  }

  /** `get_db_url`'s connection string with every value braced and escaped. */
  function SafeConnectionString(s: Settings, isMaster: bool): string {
    Render(SafeAttributes(s, isMaster))
  }

  /**
   * Whatever the fields hold, an ODBC reader gets back every attribute of the
   * braced connection string: the password, user and database exactly as
   * configured.
   */
  lemma SafeConnectionStringParses(s: Settings, isMaster: bool)
    ensures var r := Parse(SafeConnectionString(s, isMaster));
            && r == Some(SafeAttributes(s, isMaster))
            && |r.value| == 6
            && r.value[2] == Attribute("DATABASE", if isMaster then "master" else s.dbName)
            && r.value[3] == Attribute("UID", s.dbUser)
            && r.value[4] == Attribute("PWD", s.dbPassword)
  {
    SafeKeysPlain(s, isMaster);
    ParseRender(SafeAttributes(s, isMaster));
  }

  lemma SafeKeysPlain(s: Settings, isMaster: bool)
    ensures PlainKeys(SafeAttributes(s, isMaster))
  {
    var attrs := SafeAttributes(s, isMaster);
    forall i | 0 <= i < |attrs|
      ensures '=' !in attrs[i].key
    {
    }
  }

  // ---------------------------------------------------------------------------
  // Reading get_db_url's string as ODBC does
  // ---------------------------------------------------------------------------

  /**
   * Every field other than the password reads back as written: the driver
   * (inside the braces `get_db_url` puts around it) holds no '}', and the
   * other values hold no ';' and do not start with '{'.
   */
  predicate PlainFields(s: Settings, isMaster: bool) {
    && '}' !in s.dbDriver
    && PlainValue(s.dbHost) && PlainValue(DatabaseFor(s, isMaster))
    && PlainValue(s.dbUser) && PlainValue(s.dbTrustCert)
  }

  lemma TerminatedCons(x: string, xs: seq<string>, rest: string)
    ensures Terminated([x] + xs) + rest == x + ";" + (Terminated(xs) + rest)
  {
    assert ([x] + xs)[1..] == xs;
  }

  /** The SERVER value is plain when the host is: the port is digits. */
  lemma ServerValuePlain(s: Settings)
    requires PlainValue(s.dbHost)
    ensures PlainValue(s.dbHost + "," + IntToString(s.dbPort))
  {
    var port := IntToString(s.dbPort);
    var v := s.dbHost + "," + port;
    forall i | 0 <= i < |v|
      ensures v[i] != ';'
    {
      if i >= |s.dbHost| + 1 {
        assert v[i] == port[i - |s.dbHost| - 1];
      } else if i < |s.dbHost| {
        assert v[i] == s.dbHost[i];
      }
    }
    if s.dbHost != [] {
      assert v[0] == s.dbHost[0];
    }
  }

  /** The text of the first four attributes of `get_db_url`'s string, each with its ';', in front of `rest`. */
  function LeadingText(s: Settings, isMaster: bool, rest: string): string {
    "DRIVER" + "=" + ("{" + s.dbDriver + "}") + ";" +
    ("SERVER" + "=" + (s.dbHost + "," + IntToString(s.dbPort)) + ";" +
    ("DATABASE" + "=" + DatabaseFor(s, isMaster) + ";" +
    ("UID" + "=" + s.dbUser + ";" + rest)))
  }

  lemma LeadingTextIsTerminated(s: Settings, isMaster: bool, rest: string)
    ensures Terminated(Attributes(s, isMaster)[..4]) + rest == LeadingText(s, isMaster, rest)
  {
    var a := Attributes(s, isMaster);
    assert a[..4] == [a[0]] + ([a[1]] + ([a[2]] + [a[3]]));
    TerminatedCons(a[0], [a[1]] + ([a[2]] + [a[3]]), rest);
    TerminatedCons(a[1], [a[2]] + [a[3]], rest);
    TerminatedCons(a[2], [a[3]], rest);
    TerminatedCons(a[3], [], rest);
  }

  lemma ParseLeadingText(s: Settings, isMaster: bool, rest: string)
    requires PlainFields(s, isMaster)
    requires Parse(rest).Some?
    ensures Parse(LeadingText(s, isMaster, rest))
         == Some([ Attribute("DRIVER", s.dbDriver),
                   Attribute("SERVER", s.dbHost + "," + IntToString(s.dbPort)),
                   Attribute("DATABASE", DatabaseFor(s, isMaster)),
                   Attribute("UID", s.dbUser) ] + Parse(rest).value)
  {
    var server := s.dbHost + "," + IntToString(s.dbPort);
    var more := Parse(rest).value;
    var drv, srv, db, uid := Attribute("DRIVER", s.dbDriver), Attribute("SERVER", server),
                             Attribute("DATABASE", DatabaseFor(s, isMaster)), Attribute("UID", s.dbUser);
    var r3 := "UID" + "=" + s.dbUser + ";" + rest;
    assert Parse(r3) == Some([uid] + more) by {
      PlainAttribute("UID", s.dbUser, rest);
    }
    var r2 := "DATABASE" + "=" + DatabaseFor(s, isMaster) + ";" + r3;
    assert Parse(r2) == Some([db] + ([uid] + more)) by {
      PlainAttribute("DATABASE", DatabaseFor(s, isMaster), r3);
    }
    var r1 := "SERVER" + "=" + server + ";" + r2;
    assert Parse(r1) == Some([srv] + ([db] + ([uid] + more))) by {
      ServerValuePlain(s);
      PlainAttribute("SERVER", server, r2);
    }
    assert Parse(LeadingText(s, isMaster, rest)) == Some([drv] + ([srv] + ([db] + ([uid] + more)))) by {
      BracedAttribute("DRIVER", s.dbDriver, r1);
    }
    ConsFour(drv, srv, db, uid, more);
  }

  lemma ConsFour<T>(a: T, b: T, c: T, d: T, more: seq<T>)
    ensures [a] + ([b] + ([c] + ([d] + more))) == [a, b, c, d] + more
  {
  }

  /** The first four attributes of `get_db_url`'s string, in front of any readable rest, read back as written. */
  lemma ParseLeadingAttributes(s: Settings, isMaster: bool, rest: string)
    requires PlainFields(s, isMaster)
    requires Parse(rest).Some?
    ensures Parse(Terminated(Attributes(s, isMaster)[..4]) + rest)
         == Some(SafeAttributes(s, isMaster)[..4] + Parse(rest).value)
  {
    LeadingTextIsTerminated(s, isMaster, rest);
    ParseLeadingText(s, isMaster, rest);
    var safe := SafeAttributes(s, isMaster);
    assert safe[..4] == [safe[0], safe[1], safe[2], safe[3]];
  }

  /** The last two attributes of `get_db_url`'s string, with a password that reads as it is. */
  lemma ParseTrailingAttributes(s: Settings, isMaster: bool)
    requires PlainValue(s.dbPassword) && PlainValue(s.dbTrustCert)
    ensures Parse(Terminated(Attributes(s, isMaster)[4..]))
         == Some([Attribute("PWD", s.dbPassword), Attribute("TrustServerCertificate", s.dbTrustCert)])
  {
    var a := Attributes(s, isMaster);
    var last := "TrustServerCertificate" + "=" + s.dbTrustCert + ";" + [];
    assert Terminated(a[4..]) == "PWD" + "=" + s.dbPassword + ";" + last by {
      assert a[4..] == [a[4], a[5]];
      assert [a[4], a[5]][1..] == [a[5]];
      assert Terminated([a[5]]) == a[5] + ";" + [] by {
        assert [a[5]][1..] == [];
      }
    }
    assert Parse(last) == Some([Attribute("TrustServerCertificate", s.dbTrustCert)]) by {
      assert Parse([]) == Some([]);
      PlainAttribute("TrustServerCertificate", s.dbTrustCert, []);
      assert [Attribute("TrustServerCertificate", s.dbTrustCert)] + [] == [Attribute("TrustServerCertificate", s.dbTrustCert)];
    }
    PlainAttribute("PWD", s.dbPassword, last);
    assert [Attribute("PWD", s.dbPassword)] + [Attribute("TrustServerCertificate", s.dbTrustCert)]
        == [Attribute("PWD", s.dbPassword), Attribute("TrustServerCertificate", s.dbTrustCert)];
  }

  /**
   * When no value holds ';' or starts with '{' (and the driver holds no
   * '}'), an ODBC reader gets back exactly the six attributes `get_db_url`
   * wrote: the same list the braced form yields.
   */
  lemma ConnectionStringParses(s: Settings, isMaster: bool)
    requires PlainFields(s, isMaster)
    requires PlainValue(s.dbPassword)
    ensures Parse(ConnectionString(s, isMaster)) == Some(SafeAttributes(s, isMaster))
    ensures Parse(ConnectionString(s, isMaster)) == Parse(SafeConnectionString(s, isMaster))
  {
    var a := Attributes(s, isMaster);
    var safe := SafeAttributes(s, isMaster);
    assert ConnectionString(s, isMaster) == Terminated(a[..4]) + Terminated(a[4..]) by {
      assert a == a[..4] + a[4..];
      TerminatedAppend(a[..4], a[4..]);
    }
    ParseTrailingAttributes(s, isMaster);
    ParseLeadingAttributes(s, isMaster, Terminated(a[4..]));
    assert safe == safe[..4] + [safe[4], safe[5]];
    SafeConnectionStringParses(s, isMaster);
  }

  /** The last two attributes of `get_db_url`'s string when the password is `before;after`. */
  lemma ParseTrailingAttributesSplit(s: Settings, isMaster: bool, before: string, after: string)
    requires PlainValue(before) && PlainValue(s.dbTrustCert)
    requires '=' !in after
    requires s.dbPassword == before + ";" + after
    ensures Parse(Terminated(Attributes(s, isMaster)[4..]))
         == Some([Attribute("PWD", before), Attribute(after + ";TrustServerCertificate", s.dbTrustCert)])
  {
    var key := after + ";TrustServerCertificate";
    var last := key + "=" + s.dbTrustCert + ";" + [];
    TrailingTextSplit(s, isMaster, before, after);
    assert '=' !in key by {
      assert forall i :: 0 <= i < |key| - |after| ==> key[|after| + i] == ";TrustServerCertificate"[i];
    }
    ParseLastAttribute(key, s.dbTrustCert);
    PlainAttribute("PWD", before, last);
    assert [Attribute("PWD", before)] + [Attribute(key, s.dbTrustCert)]
        == [Attribute("PWD", before), Attribute(key, s.dbTrustCert)];
  }

  /** The text of the last two attributes, with the ';' of the password `before;after` taken as the end of PWD. */
  lemma TrailingTextSplit(s: Settings, isMaster: bool, before: string, after: string)
    requires s.dbPassword == before + ";" + after
    ensures Terminated(Attributes(s, isMaster)[4..])
         == "PWD" + "=" + before + ";" + ((after + ";TrustServerCertificate") + "=" + s.dbTrustCert + ";" + [])
  {
    var a := Attributes(s, isMaster);
    assert a[4..] == [a[4], a[5]];
    assert [a[4], a[5]][1..] == [a[5]];
    assert Terminated([a[5]]) == a[5] + ";" + [] by {
      assert [a[5]][1..] == [];
    }
    assert ";" + "TrustServerCertificate" == ";TrustServerCertificate";
    RegroupAtSeparator("PWD" + "=", before, after, "TrustServerCertificate", s.dbTrustCert);
  }

  /** A final `key=value;` reads as that one attribute. */
  lemma ParseLastAttribute(key: string, value: string)
    requires PlainValue(value)
    requires '=' !in key
    ensures Parse(key + "=" + value + ";" + []) == Some([Attribute(key, value)])
  {
    assert Parse([]) == Some([]);
    PlainAttribute(key, value, []);
    assert [Attribute(key, value)] + [] == [Attribute(key, value)];
  }

  /** Moving the ';' inside a value out to the attribute boundary: the same text, grouped differently. */
  lemma RegroupAtSeparator(p: string, before: string, after: string, k: string, t: string)
    ensures p + (before + ";" + after) + ";" + (k + "=" + t + ";" + [])
         == p + before + ";" + ((after + (";" + k)) + "=" + t + ";" + [])
  {
  }

  /**
   * As `get_db_url` writes it, a password `before;after` is cut at the ';':
   * an ODBC reader gets PWD=`before`, and the rest of the password runs into
   * the next key, so no TrustServerCertificate attribute is read at all.
   */
  lemma SeparatorInPasswordMisreads(s: Settings, isMaster: bool, before: string, after: string)
    requires PlainFields(s, isMaster)
    requires PlainValue(before)
    requires ';' !in after && '=' !in after
    requires s.dbPassword == before + ";" + after
    ensures var r := Parse(ConnectionString(s, isMaster));
            && r.Some? && |r.value| == 6
            && r.value[..4] == SafeAttributes(s, isMaster)[..4]
            && r.value[4] == Attribute("PWD", before)
            && r.value[4].value != s.dbPassword
            && r.value[5] == Attribute(after + ";TrustServerCertificate", s.dbTrustCert)
            && (forall i :: 0 <= i < |r.value| ==> r.value[i].key != "TrustServerCertificate")
  {
    var a := Attributes(s, isMaster);
    assert ConnectionString(s, isMaster) == Terminated(a[..4]) + Terminated(a[4..]) by {
      assert a == a[..4] + a[4..];
      TerminatedAppend(a[..4], a[4..]);
    }
    ParseTrailingAttributesSplit(s, isMaster, before, after);
    ParseLeadingAttributes(s, isMaster, Terminated(a[4..]));
    var r := Parse(ConnectionString(s, isMaster)).value;
    var safe := SafeAttributes(s, isMaster);
    assert r[..4] == safe[..4];
    forall i | 0 <= i < |r|
      ensures r[i].key != "TrustServerCertificate"
    {
      if i < 4 {
        assert r[i] == safe[..4][i] == safe[i];
      } else if i == 5 {
        assert |r[5].key| > |"TrustServerCertificate"|;
      }
    }
    assert |before| < |s.dbPassword|;
  }
}
