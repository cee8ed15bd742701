/** Environment settings of rve/config.py.  The process environment is a map
    from variable names to values; a name missing from the map is unset.
    Whether `os.makedirs` can create a non-empty directory path depends on
    the file system and is the parameter `dirOk`. */
module RveConfig {
  import opened Wrappers
  import opened Text

  const DatabaseUrlVar: string := "DATABASE_URL"
  const DataDirVar: string := "RVE_DATA_DIR"
  const DefaultDataDir: string := "."
  const LedgerFile: string := "rve_ledger.db"
  const SqlitePrefix: string := "sqlite:///"

  /** Why `get_db_url` raises: `os.makedirs("")` always fails, and a
      non-empty path may fail for file-system reasons. */
  datatype ConfigError = EmptyDataDir | CannotCreate(dir: string)

  /** `os.getenv(name, default)`. */
  function GetEnv(env: map<string, string>, name: string, default: string): (v: string)
    ensures name in env ==> v == env[name]
    ensures name !in env ==> v == default
  {
    if name in env then env[name] else default
  }

  /** `os.path.join(dir, file)` on POSIX for a relative file name: a slash is
      inserted unless `dir` is empty or already ends with one. */
  function PosixJoin(dir: string, file: string): (path: string)
    ensures |path| >= |file| && path[|path| - |file|..] == file
    ensures |dir| > 0 ==> |path| > |file| && path[|path| - |file| - 1] == '/'
    ensures |path| >= |dir| && path[..|dir|] == dir
    ensures |path| == |dir| + |file| + (if |dir| == 0 || dir[|dir| - 1] == '/' then 0 else 1)
  {
    if |dir| == 0 || dir[|dir| - 1] == '/' then dir + file else dir + "/" + file
  }

  /** `get_db_url()`. */
  function GetDbUrl(env: map<string, string>, dirOk: bool): (res: Result<string, ConfigError>)
    ensures DatabaseUrlVar in env && env[DatabaseUrlVar] != "" ==> res == Success(env[DatabaseUrlVar])
    ensures !(DatabaseUrlVar in env && env[DatabaseUrlVar] != "") ==>
      var dir := GetEnv(env, DataDirVar, DefaultDataDir);
      && (dir == "" ==> res == Failure(EmptyDataDir))
      && (dir != "" && !dirOk ==> res == Failure(CannotCreate(dir)))
      && (dir != "" && dirOk ==>
            (res.Success? && |res.value| > |SqlitePrefix| + |LedgerFile|
             && res.value[..|SqlitePrefix|] == SqlitePrefix
             && res.value[|SqlitePrefix|..] == PosixJoin(dir, LedgerFile)))
  {
    var url := GetEnv(env, DatabaseUrlVar, "");
    if url != "" then Success(url)
    else
      var dir := GetEnv(env, DataDirVar, DefaultDataDir);
      if dir == "" then Failure(EmptyDataDir)
      else if !dirOk then Failure(CannotCreate(dir))
      else
        var path := PosixJoin(dir, LedgerFile);
        assert (SqlitePrefix + path)[|SqlitePrefix|..] == path;
        Success(SqlitePrefix + path)
  }

  /** The data directory the fallback URL was built from.  */
  function DataDir(env: map<string, string>): string {
    GetEnv(env, DataDirVar, DefaultDataDir)
  }

  /** Without `DATABASE_URL`, different data directories (not ending in a
      slash) give different URLs: the directory can be read back from the
      URL. */
  lemma FallbackUrlInjective(env1: map<string, string>, env2: map<string, string>)
    requires DatabaseUrlVar !in env1 || env1[DatabaseUrlVar] == ""
    requires DatabaseUrlVar !in env2 || env2[DatabaseUrlVar] == ""
    requires DataDir(env1) != "" && DataDir(env1)[|DataDir(env1)| - 1] != '/'
    requires DataDir(env2) != "" && DataDir(env2)[|DataDir(env2)| - 1] != '/'
    requires GetDbUrl(env1, true) == GetDbUrl(env2, true)
    ensures DataDir(env1) == DataDir(env2)
  {
    var d1, d2 := DataDir(env1), DataDir(env2);
    var u1 := SqlitePrefix + (d1 + "/" + LedgerFile);
    var u2 := SqlitePrefix + (d2 + "/" + LedgerFile);
    assert GetDbUrl(env1, true).value == u1;
    assert GetDbUrl(env2, true).value == u2;
    assert |d1| == |d2|;
    assert u1[|SqlitePrefix|..|SqlitePrefix| + |d1|] == d1;
    assert u2[|SqlitePrefix|..|SqlitePrefix| + |d2|] == d2;
  }

  /** With nothing set, the ledger lives in the working directory:
      `sqlite:///./rve_ledger.db`. */
  lemma DefaultDbUrl()
    ensures GetDbUrl(map[], true) == Success(SqlitePrefix + DefaultDataDir + "/" + LedgerFile)
  {
    var env: map<string, string> := map[];
    assert GetEnv(env, DatabaseUrlVar, "") == "";
    assert GetEnv(env, DataDirVar, DefaultDataDir) == DefaultDataDir;
    DefaultLedgerPath();
    assert SqlitePrefix + (DefaultDataDir + "/" + LedgerFile) == SqlitePrefix + DefaultDataDir + "/" + LedgerFile;
  }

  lemma DefaultLedgerPath()
    ensures PosixJoin(DefaultDataDir, LedgerFile) == DefaultDataDir + "/" + LedgerFile
  {
    assert DefaultDataDir[|DefaultDataDir| - 1] != '/';
  }

  /** An empty `RVE_DATA_DIR` is not replaced by the default: it reaches
      `os.makedirs("")`, which raises. */
  lemma EmptyDataDirRaises(env: map<string, string>, dirOk: bool)
    requires DatabaseUrlVar !in env
    requires DataDirVar in env && env[DataDirVar] == ""
    ensures GetDbUrl(env, dirOk) == Failure(EmptyDataDir)
  {
  }

  /** The values `env_bool` accepts, compared after lowercasing. */
  const TrueValues: set<string> := {"1", "true", "yes", "on"}

  /** `str(default)` for a boolean default. */
  function BoolText(b: bool): (s: string)
    ensures Lower(s) in TrueValues <==> b
  {
    assert Lower("True") == "true" && Lower("False") == "false";
    if b then "True" else "False"
  }

  /** `env_bool(name, default)`. */
  function EnvBool(env: map<string, string>, name: string, default: bool): (on: bool)
    ensures name in env ==> (on <==> Lower(env[name]) in TrueValues)
    ensures name !in env ==> on == default
  {
    Lower(GetEnv(env, name, BoolText(default))) in TrueValues
  }

  /** The comparison ignores case: a value and its lowercase form agree. */
  lemma EnvBoolIgnoresCase(env: map<string, string>, name: string, v: string, default: bool)
    ensures EnvBool(env[name := v], name, default) == EnvBool(env[name := Lower(v)], name, default)
  {
    LowerIdempotent(v);
  }

  /** Sample values: upper- and mixed-case spellings are accepted; "0", "no"
      and a set-but-empty variable are false whatever the default. */
  lemma EnvBoolSamples(env: map<string, string>, name: string, default: bool)
    ensures EnvBool(env[name := "TRUE"], name, default)
    ensures EnvBool(env[name := "Yes"], name, default)
    ensures EnvBool(env[name := "ON"], name, default)
    ensures !EnvBool(env[name := "0"], name, default)
    ensures !EnvBool(env[name := "no"], name, default)
    ensures !EnvBool(env[name := ""], name, default)
  {
    assert Lower("TRUE") == "true";
    assert Lower("Yes") == "yes";
    assert Lower("ON") == "on";
    assert Lower("0") == "0";
    assert Lower("no") == "no";
    assert Lower("") == "";
  }
}
