/** The choice of database URL at start-up (config.py): the value of the
    `POSTGRES_URL` environment variable, rewritten to name the psycopg2
    driver, or a local SQLite file next to the module when it is unset. */
module Config {
  import opened Common
  import opened Text

  const PostgresScheme: string := "postgres://"
  const PostgresqlScheme: string := "postgresql://"
  const DriverScheme: string := "postgresql+psycopg2://"
  const DriverMarker: string := "+psycopg2"
  const SqlitePrefix: string := "sqlite:///"
  const SqliteFile: string := "food_delivery.db"

  /** `os.path.join(a, b)` for POSIX paths and two components. */
  function PathJoin(a: string, b: string): (r: string)
    ensures StartsWith(b, "/") ==> r == b
    ensures !StartsWith(b, "/") ==> StartsWith(r, a) && |b| <= |r| && r[|r| - |b|..] == b
  {
    if StartsWith(b, "/") then b
    else if a == [] || a[|a| - 1] == '/' then a + b
    else a + "/" + b
  }

  /** The URL handed to SQLAlchemy, given the environment value (`None`
      when unset) and the directory that holds config.py. */
  function DatabaseUrl(env: Option<string>, basedir: string): string
  {
    if env.None? || env.value == [] then
      SqlitePrefix + PathJoin(basedir, SqliteFile)
    else
      var url := env.value;
      if StartsWith(url, PostgresScheme) then
        ReplaceFirst(url, PostgresScheme, DriverScheme)
      else if StartsWith(url, PostgresqlScheme) && !Contains(url, DriverMarker) then
        ReplaceFirst(url, PostgresqlScheme, DriverScheme)
      else
        url
  }

  /** A `postgres://` URL gets the driver scheme; the rest is kept. */
  lemma PostgresRewritten(url: string, basedir: string)
    requires StartsWith(url, PostgresScheme)
    ensures DatabaseUrl(Some(url), basedir) == DriverScheme + url[|PostgresScheme|..]
  {
  }

  /** A `postgresql://` URL without `+psycopg2` anywhere gets the driver
      scheme; with `+psycopg2` anywhere it is kept as it is. */
  lemma PostgresqlRewritten(url: string, basedir: string)
    requires StartsWith(url, PostgresqlScheme)
    ensures !Contains(url, DriverMarker) ==>
      DatabaseUrl(Some(url), basedir) == DriverScheme + url[|PostgresqlScheme|..]
    ensures Contains(url, DriverMarker) ==> DatabaseUrl(Some(url), basedir) == url
  {
    assert url[..|PostgresScheme|] != PostgresScheme by {
      assert url[8] == 'q';
    }
  }

  /** Any other non-empty URL is kept, the driver scheme included. */
  lemma OtherUrlsKept(url: string, basedir: string)
    requires url != []
    requires !StartsWith(url, PostgresScheme) && !StartsWith(url, PostgresqlScheme)
    ensures DatabaseUrl(Some(url), basedir) == url
  {
  }

  /** An unset or empty variable selects the SQLite file in `basedir`. */
  lemma SqliteFallback(env: Option<string>, basedir: string)
    requires env.None? || env.value == []
    ensures DatabaseUrl(env, basedir) == SqlitePrefix + PathJoin(basedir, SqliteFile)
    ensures basedir != [] && basedir[|basedir| - 1] != '/' ==>
      DatabaseUrl(env, basedir) == "sqlite:///" + basedir + "/food_delivery.db"
  {
    assert !StartsWith(SqliteFile, "/") by {
      assert SqliteFile[0] == 'f';
    }
  }

  lemma DriverSchemeIsFixed(rest: string)
    ensures !StartsWith(DriverScheme + rest, PostgresScheme)
    ensures !StartsWith(DriverScheme + rest, PostgresqlScheme)
  {
    var u := DriverScheme + rest;
    assert u[8] == 'q';
    assert u[10] == '+';
  }

  /** Every rewrite of a `postgres://` URL, or of a `postgresql://` URL
      without the marker, starts with the driver scheme. */
  lemma RewrittenHasDriverScheme(url: string, basedir: string)
    requires StartsWith(url, PostgresScheme) ||
             (StartsWith(url, PostgresqlScheme) && !Contains(url, DriverMarker))
    ensures StartsWith(DatabaseUrl(Some(url), basedir), DriverScheme)
  {
    var r := DatabaseUrl(Some(url), basedir);
    if StartsWith(url, PostgresScheme) {
      assert r == DriverScheme + url[|PostgresScheme|..];
    } else {
      PostgresqlRewritten(url, basedir);
    }
    assert r[..|DriverScheme|] == DriverScheme;
  }

  /** Choosing the URL again from the chosen URL changes nothing, whatever
      the directory. */
  lemma {:induction false} DatabaseUrlIdempotent(env: Option<string>, basedir: string, basedir': string)
    ensures var url := DatabaseUrl(env, basedir);
      DatabaseUrl(Some(url), basedir') == url
  {
    var url := DatabaseUrl(env, basedir);
    if env.None? || env.value == [] {
      assert url[0] == 's';
      assert !StartsWith(url, PostgresScheme) && !StartsWith(url, PostgresqlScheme);
    } else if StartsWith(env.value, PostgresScheme) {
      DriverSchemeIsFixed(env.value[|PostgresScheme|..]);
    } else if StartsWith(env.value, PostgresqlScheme) && !Contains(env.value, DriverMarker) {
      DriverSchemeIsFixed(env.value[|PostgresqlScheme|..]);
    } else {
      assert url == env.value;
    }
  }
}
