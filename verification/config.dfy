/** `configure_parameters`: read the required settings out of a parsed
    configuration file and build the SQLAlchemy connection string. */
module Config {
  import opened Results
  import opened UrlQuote
  import opened Interpolation

  /** A parsed INI file: section name to (option name to value), option
      names already lower-cased by the parser. */
  type Section = map<string, string>
  type ConfigFile = map<string, Section>

  /** What `config[section][key]` raises: the `KeyError` of a missing
      section or option, or the interpolation error of its value. */
  datatype ConfigError =
    | MissingSection(section: string)
    | MissingKey(section: string, key: string)
    | BadValue(section: string, key: string, reason: InterpolationError)

  /** What `configure_parameters` returns. */
  datatype Params = Params(connectionString: string, schema: string, historyPath: string, basePath: string)

  const Scheme := "mssql+pyodbc://"
  const DriverOptions := "&TrustServerCertificate=yes"

  /** The section whose options every other section inherits. */
  const DefaultSection := "DEFAULT"

  /** The options read, in the order they are read. */
  const Required: seq<(string, string)> := [
    ("Database", "server"), ("Database", "database"), ("Database", "username"),
    ("Database", "password"), ("Database", "driver"), ("Database", "schema"),
    ("Paths", "historypath"), ("Paths", "basepath")
  ]

  /** `config[section]` exists: a section of the file, or the default one. */
  predicate HasSection(cfg: ConfigFile, section: string) {
    section == DefaultSection || section in cfg
  }

  function Defaults(cfg: ConfigFile): Section {
    if DefaultSection in cfg then cfg[DefaultSection] else map[]
  }

  /** The options `config[section]` sees: its own over the defaults. */
  function Options(cfg: ConfigFile, section: string): (r: Section)
    ensures forall k :: k in r <==> k in Defaults(cfg) || (section in cfg && k in cfg[section])
    ensures forall k :: section in cfg && k in cfg[section] ==> r[k] == cfg[section][k]
    ensures forall k :: k in r && !(section in cfg && k in cfg[section]) ==> r[k] == Defaults(cfg)[k]
  {
    Defaults(cfg) + (if section in cfg then cfg[section] else map[])
  }

  /** The option exists, whatever its value. */
  predicate Present(cfg: ConfigFile, entry: (string, string)) {
    HasSection(cfg, entry.0) && entry.1 in Options(cfg, entry.0)
  }

  /** The option exists and its value holds no `%`. */
  predicate Plain(cfg: ConfigFile, entry: (string, string)) {
    Present(cfg, entry) && '%' !in Options(cfg, entry.0)[entry.1]
  }

  /** `config[section][key]`. */
  function Get(cfg: ConfigFile, section: string, key: string): (r: Result<string, ConfigError>)
    ensures !HasSection(cfg, section) ==> r == Failure(MissingSection(section))
    ensures HasSection(cfg, section) && key !in Options(cfg, section) ==> r == Failure(MissingKey(section, key))
    ensures r.Success? ==> Present(cfg, (section, key))
    ensures Plain(cfg, (section, key)) ==> r == Success(Options(cfg, section)[key])
    ensures r.Failure? && r.error.BadValue? ==>
      && Present(cfg, (section, key)) && r.error.section == section && r.error.key == key
      && '%' in Options(cfg, section)[key]
  {
    if !HasSection(cfg, section) then Failure(MissingSection(section))
    else
      var options := Options(cfg, section);
      if key !in options then Failure(MissingKey(section, key))
      else match Interpolate(options, options[key], 1)
        case Success(v) => Success(v)
        case Failure(e) => Failure(BadValue(section, key, e))
  }

  /** The lookup of `entry` returns. */
  predicate Readable(cfg: ConfigFile, entry: (string, string)) {
    Get(cfg, entry.0, entry.1).Success?
  }

  /** What the lookup of a readable `entry` returns. */
  function Value(cfg: ConfigFile, entry: (string, string)): string
    requires Readable(cfg, entry)
  {
    Get(cfg, entry.0, entry.1).value
  }

  /** Every option of `Required` exists. */
  predicate AllPresent(cfg: ConfigFile) {
    && Present(cfg, ("Database", "server")) && Present(cfg, ("Database", "database"))
    && Present(cfg, ("Database", "username")) && Present(cfg, ("Database", "password"))
    && Present(cfg, ("Database", "driver")) && Present(cfg, ("Database", "schema"))
    && Present(cfg, ("Paths", "historypath")) && Present(cfg, ("Paths", "basepath"))
  }

  /** Every option of `Required` can be read. */
  predicate AllReadable(cfg: ConfigFile) {
    && Readable(cfg, ("Database", "server")) && Readable(cfg, ("Database", "database"))
    && Readable(cfg, ("Database", "username")) && Readable(cfg, ("Database", "password"))
    && Readable(cfg, ("Database", "driver")) && Readable(cfg, ("Database", "schema"))
    && Readable(cfg, ("Paths", "historypath")) && Readable(cfg, ("Paths", "basepath"))
  }

  /** Every option of `Required` exists and holds no `%`. */
  predicate AllPlain(cfg: ConfigFile) {
    && Plain(cfg, ("Database", "server")) && Plain(cfg, ("Database", "database"))
    && Plain(cfg, ("Database", "username")) && Plain(cfg, ("Database", "password"))
    && Plain(cfg, ("Database", "driver")) && Plain(cfg, ("Database", "schema"))
    && Plain(cfg, ("Paths", "historypath")) && Plain(cfg, ("Paths", "basepath"))
  }

  /** Which error a lookup sequence stops at: that of the first option
      that cannot be read, or None when all can. */
  function FirstFailure(cfg: ConfigFile, entries: seq<(string, string)>): (r: Option<ConfigError>)
    ensures r.None? <==> forall i :: 0 <= i < |entries| ==> Readable(cfg, entries[i])
  {
    if |entries| == 0 then None
    else if !Readable(cfg, entries[0]) then
      Some(Get(cfg, entries[0].0, entries[0].1).error)
    else FirstFailure(cfg, entries[1..])
  }

  /** The SQLAlchemy URL: user and host parts verbatim, password quoted.
      The URL opens with the scheme, the user and a colon; the escaped
      password follows up to the `@` that starts the host part, and the
      driver options close it. */
  function ConnectionString(username: string, password: string, server: string, database: string, driver: string): (r: string)
    ensures var k := |Scheme| + |username| + 1;
      && |r| > k + |QuotePlus(password)|
      && r[..k] == Scheme + username + ":"
      && r[k..k + |QuotePlus(password)| + 1] == QuotePlus(password) + "@"
      && '@' !in r[k..k + |QuotePlus(password)|]
      && r[k + |QuotePlus(password)| + 1..] == server + "/" + database + "?driver=" + driver + DriverOptions
    ensures |r| >= |DriverOptions| && r[|r| - |DriverOptions|..] == DriverOptions
  {
    var head := Scheme + username + ":";
    var q := QuotePlus(password);
    var tail := server + "/" + database + "?driver=" + driver + DriverOptions;
    assert Scheme + username + ":" + q + "@" + tail == head + (q + "@") + tail;
    head + (q + "@") + tail
  }

  function ConfigureParameters(cfg: ConfigFile): (r: Result<Params, ConfigError>)
    ensures r.Success? <==> AllReadable(cfg)
    ensures r.Success? ==> AllPresent(cfg)
    ensures r.Success? ==> r.value == Params(
      ConnectionString(Value(cfg, ("Database", "username")), Value(cfg, ("Database", "password")),
                       Value(cfg, ("Database", "server")), Value(cfg, ("Database", "database")),
                       Value(cfg, ("Database", "driver"))),
      Value(cfg, ("Database", "schema")), Value(cfg, ("Paths", "historypath")), Value(cfg, ("Paths", "basepath")))
  {
    var server :- Get(cfg, "Database", "server");
    var database :- Get(cfg, "Database", "database");
    var username :- Get(cfg, "Database", "username");
    var password :- Get(cfg, "Database", "password");
    var driver :- Get(cfg, "Database", "driver");
    var schema :- Get(cfg, "Database", "schema");
    var logPath :- Get(cfg, "Paths", "historypath");
    var basePath :- Get(cfg, "Paths", "basepath");
    Success(Params(ConnectionString(username, password, server, database, driver), schema, logPath, basePath))
  }

  lemma FirstFailureCons(cfg: ConfigFile, e: (string, string), rest: seq<(string, string)>)
    ensures FirstFailure(cfg, [e] + rest) ==
      if Readable(cfg, e) then FirstFailure(cfg, rest) else Some(Get(cfg, e.0, e.1).error)
  {
    assert ([e] + rest)[1..] == rest;
  }

  /** `FirstFailure` over `Required`, unrolled by hand; it only serves as the
      intermediate step of the proof of `ConfigErrorIsFirstFailure`. */
  function FirstFailureRequired(cfg: ConfigFile): Option<ConfigError>
  {
    if !Readable(cfg, Required[0]) then Some(Get(cfg, Required[0].0, Required[0].1).error)
    else if !Readable(cfg, Required[1]) then Some(Get(cfg, Required[1].0, Required[1].1).error)
    else if !Readable(cfg, Required[2]) then Some(Get(cfg, Required[2].0, Required[2].1).error)
    else if !Readable(cfg, Required[3]) then Some(Get(cfg, Required[3].0, Required[3].1).error)
    else if !Readable(cfg, Required[4]) then Some(Get(cfg, Required[4].0, Required[4].1).error)
    else if !Readable(cfg, Required[5]) then Some(Get(cfg, Required[5].0, Required[5].1).error)
    else if !Readable(cfg, Required[6]) then Some(Get(cfg, Required[6].0, Required[6].1).error)
    else if !Readable(cfg, Required[7]) then Some(Get(cfg, Required[7].0, Required[7].1).error)
    else None
  }

  lemma FirstFailureUnrolled(cfg: ConfigFile)
    ensures FirstFailure(cfg, Required) == FirstFailureRequired(cfg)
  {
    var e := Required;
    var t7 := [e[7]];
    var t6 := [e[6]] + t7;
    var t5 := [e[5]] + t6;
    var t4 := [e[4]] + t5;
    var t3 := [e[3]] + t4;
    var t2 := [e[2]] + t3;
    var t1 := [e[1]] + t2;
    assert e == [e[0]] + t1;
    assert FirstFailure(cfg, []) == None;
    FirstFailureCons(cfg, e[7], []);
    assert [e[7]] + [] == t7;
    FirstFailureCons(cfg, e[6], t7);
    FirstFailureCons(cfg, e[5], t6);
    FirstFailureCons(cfg, e[4], t5);
    FirstFailureCons(cfg, e[3], t4);
    FirstFailureCons(cfg, e[2], t3);
    FirstFailureCons(cfg, e[1], t2);
    FirstFailureCons(cfg, e[0], t1);
  }

  /** A run either reads every option or stops with the error of the first
      one it cannot read, in the order the options are read. */
  lemma ConfigErrorIsFirstFailure(cfg: ConfigFile)
    ensures ConfigureParameters(cfg).Success? <==> FirstFailure(cfg, Required).None?
    ensures ConfigureParameters(cfg).Failure? ==> FirstFailure(cfg, Required) == Some(ConfigureParameters(cfg).error)
  {
    FirstFailureUnrolled(cfg);
  }

  /** A file whose required values hold no `%` is read verbatim: the
      parameters are built from the values as they stand in the file (or in
      its DEFAULT section). */
  lemma PlainConfigurationVerbatim(cfg: ConfigFile)
    requires AllPlain(cfg)
    ensures ConfigureParameters(cfg) == Success(Params(
      ConnectionString(Options(cfg, "Database")["username"], Options(cfg, "Database")["password"],
                       Options(cfg, "Database")["server"], Options(cfg, "Database")["database"],
                       Options(cfg, "Database")["driver"]),
      Options(cfg, "Database")["schema"], Options(cfg, "Paths")["historypath"], Options(cfg, "Paths")["basepath"]))
  {
  }

  /** A password written with a `%` that is followed by neither `%` nor
      `(` cannot be read: the run stops on it with a syntax error, even
      though every option is present. */
  lemma BarePercentPasswordRejected(cfg: ConfigFile, a: string, b: string)
    requires Readable(cfg, ("Database", "server")) && Readable(cfg, ("Database", "database"))
    requires Readable(cfg, ("Database", "username")) && Present(cfg, ("Database", "password"))
    requires Options(cfg, "Database")["password"] == a + "%" + b && '%' !in a
    requires |b| == 0 || (b[0] != '%' && b[0] != '(')
    ensures ConfigureParameters(cfg) == Failure(BadValue("Database", "password", BadSyntax))
  {
    BarePercentFails(Options(cfg, "Database"), a, b, 1);
  }

  /** A password written with its `%` doubled reads back as the password. */
  lemma EscapedPasswordReadsBack(cfg: ConfigFile, password: string)
    requires Present(cfg, ("Database", "password"))
    requires Options(cfg, "Database")["password"] == Escape(password)
    ensures Get(cfg, "Database", "password") == Success(password)
  {
    InterpolateEscape(Options(cfg, "Database"), password, 1);
  }

  /** `config.read` skips a file it cannot open, so a missing configuration
      file behaves as an empty one and the first lookup fails on the
      Database section. */
  lemma MissingFileFailsOnDatabase()
    ensures ConfigureParameters(map[]) == Failure(MissingSection("Database"))
  {
  }

  /** How a URL reader finds the password: after the scheme, the text between
      the first `:` and the next `@`. */
  function PasswordField(url: string): Option<string>
  {
    if |url| < |Scheme| || url[..|Scheme|] != Scheme then None
    else
      var rest := url[|Scheme|..];
      match IndexOf(rest, ':')
      case None => None
      case Some(i) =>
        var after := rest[i + 1..];
        match IndexOf(after, '@')
        case None => None
        case Some(j) => Some(after[..j])
  }

  /** The connection string as one concatenation; the proofs below read
      the password field out of it. */
  lemma ConnectionStringLayout(username: string, password: string, server: string, database: string, driver: string)
    ensures ConnectionString(username, password, server, database, driver)
         == Scheme + username + ":" + QuotePlus(password) + "@" + (server + "/" + database + "?driver=" + driver + DriverOptions)
  {
  }

  /** The text between the first `:` and the next `@` of a URL laid out as
      the builder lays it out. */
  lemma PasswordFieldOfLayout(user: string, q: string, tail: string)
    requires ':' !in user && '@' !in q
    ensures PasswordField(Scheme + user + ":" + q + "@" + tail) == Some(q)
  {
    var url := Scheme + user + ":" + q + "@" + tail;
    var after := q + ['@'] + tail;
    assert url == Scheme + (user + [':'] + after);
    assert url[..|Scheme|] == Scheme;
    var rest := url[|Scheme|..];
    assert rest == user + [':'] + after;
    IndexOfAfterPrefix(user, ':', after);
    assert rest[|user| + 1..] == after;
    IndexOfAfterPrefix(q, '@', tail);
    assert after[..|q|] == q;
  }

  /** Reading the URL back yields the quoted password and, after decoding,
      the original one, provided the username holds no `:` (the username is
      not quoted, so a `:` in it would end the user field early). */
  lemma PasswordRecoverable(username: string, password: string, server: string, database: string, driver: string)
    requires ':' !in username
    ensures PasswordField(ConnectionString(username, password, server, database, driver)) == Some(QuotePlus(password))
    ensures UnquotePlus(QuotePlus(password)) == Some(Utf8.Encode(password))
    ensures Utf8.Decode(Utf8.Encode(password)) == Some(password)
  {
    var q := QuotePlus(password);
    var tail := server + "/" + database + "?driver=" + driver + DriverOptions;
    ConnectionStringLayout(username, password, server, database, driver);
    PasswordFieldOfLayout(username, q, tail);
    QuotePlusRoundTrip(password);
  }

  /** A password holding a delimiter of the URL grammar never appears
      verbatim in the password field of the connection string: what the
      field holds is its escaped form, which differs from it. */
  lemma ReservedPasswordNeverVerbatim(username: string, password: string, server: string, database: string, driver: string)
    requires ':' !in username
    requires '@' in password || ':' in password || '/' in password || '?' in password || '&' in password
    ensures PasswordField(ConnectionString(username, password, server, database, driver)) != Some(password)
    ensures QuotePlus(password) != password
  {
    PasswordRecoverable(username, password, server, database, driver);
  }

  /** A `:` in the username is left unquoted and is taken for the end of the
      user field, so the password read back starts with the rest of the
      username and is never the encoded password. */
  lemma ColonInUsernameMisreadsPassword(u1: string, u2: string, password: string, server: string, database: string, driver: string)
    requires ':' !in u1 && '@' !in u2
    ensures PasswordField(ConnectionString(u1 + ":" + u2, password, server, database, driver))
            == Some(u2 + ":" + QuotePlus(password))
    ensures u2 + ":" + QuotePlus(password) != QuotePlus(password)
  {
    var q := QuotePlus(password);
    var tail := server + "/" + database + "?driver=" + driver + DriverOptions;
    ConnectionStringLayout(u1 + ":" + u2, password, server, database, driver);
    assert Scheme + (u1 + ":" + u2) + ":" + q + "@" + tail == Scheme + u1 + ":" + (u2 + ":" + q) + "@" + tail;
    PasswordFieldOfLayout(u1, u2 + ":" + q, tail);
    assert (u2 + ":" + q)[|u2|] == ':';
  }
}
