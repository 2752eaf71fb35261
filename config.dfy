/** The connection-configuration cache of the plugin (`getClient`): reading the
    user variables, parsing them, and deciding whether the cached file list
    must be dropped. The state it works on is the process-wide `cachedData`
    record, given here as a value; the class in module Plugin holds the same
    fields and applies `ConfigStep` to them. */
module Config {
  import opened Common
  import opened JsText

  /** The user variables the host hands over. Each one is a string or absent;
      when the host offers no variables at all, every field is absent. */
  datatype UserVars = UserVars(
    url: Option<string>,
    username: Option<string>,
    password: Option<string>,
    searchPath: Option<string>,
    maxDepth: Option<string>,
    getMeta: Option<string>)

  /** The handle `createClient` builds: password authentication with the
      given credentials. The network client itself is not modelled. */
  datatype Connection = Connection(url: string, username: string, password: string)

  /** The six values `getClient` compares against the cache, after parsing. */
  datatype Settings = Settings(
    url: string,
    username: string,
    password: string,
    searchPath: Option<string>,
    maxDepth: int,
    getMeta: bool)

  /** Every field of `cachedData`. It starts as an empty object, so every
      field starts absent and the metadata cache starts empty. */
  datatype CacheData = CacheData(
    url: Option<string>,
    username: Option<string>,
    password: Option<string>,
    searchPath: Option<string>,
    maxDepth: Option<int>,
    getMeta: Option<bool>,
    searchPathList: Option<seq<string>>,
    cacheFileList: Option<seq<Entry>>,
    fileInfoCache: map<Path, MusicRecord>)

  const EmptyCache: CacheData :=
    CacheData(None, None, None, None, None, None, None, None, map[])

  /** The depth used when `maxDepth` is absent or not a number. */
  const DefaultMaxDepth: int := 5

  /** JavaScript truthiness of a string variable: present and non-empty. */
  predicate Truthy(v: Option<string>)
  {
    v.Some? && v.value != ""
  }

  /** The three credentials are all present and non-empty. */
  predicate Complete(vars: UserVars)
  {
    Truthy(vars.url) && Truthy(vars.username) && Truthy(vars.password)
  }

  /** `parseInt(maxDepth, 10)`, with 5 in place of NaN. An absent value reads
      as the string "undefined", which is NaN. */
  function ParseDepth(raw: Option<string>): int
  {
    match raw
    case None => DefaultMaxDepth
    case Some(s) =>
      match ParseInt(s)
      case None => DefaultMaxDepth
      case Some(n) => n
  }

  /** The metadata switch is on only for the exact string "true". */
  predicate ParseGetMeta(raw: Option<string>)
  {
    raw == Some("true")
  }

  /** `searchPath?.split(",")`: absent stays absent. */
  function SplitSearchPath(searchPath: Option<string>): Option<seq<string>>
  {
    match searchPath
    case None => None
    case Some(s) => Some(Split(s, ','))
  }

  function ParseSettings(vars: UserVars): Settings
    requires Complete(vars)
  {
    Settings(vars.url.value, vars.username.value, vars.password.value,
             vars.searchPath, ParseDepth(vars.maxDepth), ParseGetMeta(vars.getMeta))
  }

  /** The cache already holds exactly these six values. */
  predicate Matches(c: CacheData, s: Settings)
  {
    && c.url == Some(s.url)
    && c.username == Some(s.username)
    && c.password == Some(s.password)
    && c.searchPath == s.searchPath
    && c.maxDepth == Some(s.maxDepth)
    && c.getMeta == Some(s.getMeta)
  }

  /** What `getClient` does to `cachedData` and what it returns: nothing and
      `null` for incomplete credentials; otherwise the six values are
      overwritten, the path list re-split and the file list dropped, unless
      all six already match. */
  function ConfigStep(c: CacheData, vars: UserVars): (r: (Option<Connection>, CacheData))
    // no client, and the cache untouched, exactly when a credential is missing
    ensures r.0.None? <==> !Complete(vars)
    ensures !Complete(vars) ==> r.1 == c
    // the metadata cache is never touched
    ensures r.1.fileInfoCache == c.fileInfoCache
    // afterwards the cache holds the parsed values, and the client carries the credentials
    ensures Complete(vars) ==>
      && Matches(r.1, ParseSettings(vars))
      && r.0 == Some(Connection(vars.url.value, vars.username.value, vars.password.value))
    // unchanged values keep everything, the file list included
    ensures Complete(vars) && Matches(c, ParseSettings(vars)) ==> r.1 == c
    // a changed value re-splits the path list and drops the file list
    ensures Complete(vars) && !Matches(c, ParseSettings(vars)) ==>
      && r.1.cacheFileList == None
      && r.1.searchPathList == SplitSearchPath(vars.searchPath)
  {
    if !Complete(vars) then (None, c)
    else
      var s := ParseSettings(vars);
      var conn := Connection(s.url, s.username, s.password);
      if Matches(c, s) then (Some(conn), c)
      else
        (Some(conn),
         c.(url := Some(s.url), username := Some(s.username), password := Some(s.password),
            searchPath := s.searchPath, maxDepth := Some(s.maxDepth), getMeta := Some(s.getMeta),
            searchPathList := SplitSearchPath(s.searchPath),
            cacheFileList := None))
  }

  /** The path list in the cache is the split of the cached search path. This
      holds of the empty cache and every step keeps it. */
  predicate Coherent(c: CacheData)
  {
    c.searchPathList == SplitSearchPath(c.searchPath)
  }

  // ---------------------------------------------------------------------
  // Properties of the configuration step
  // ---------------------------------------------------------------------

  /** A depth written in plain decimal parses back to `n`; anything that is not
      a number gives the default 5. */
  lemma ParseDepthValues(n: int, raw: Option<string>)
    ensures ParseDepth(Some(IntToDecimal(n))) == n
    ensures raw.None? || ParseInt(raw.value).None? ==> ParseDepth(raw) == DefaultMaxDepth
  {
    ParseIntOfDecimal(n, "");
    assert IntToDecimal(n) + "" == IntToDecimal(n);
  }

  /** Settings that differ from the ones the cache was last filled with drop
      the file list, whichever field differs. */
  lemma ChangedSettingsDropFileList(c: CacheData, vars1: UserVars, vars2: UserVars)
    requires Complete(vars1) && Complete(vars2)
    requires ParseSettings(vars1) != ParseSettings(vars2)
    ensures ConfigStep(ConfigStep(c, vars1).1, vars2).1.cacheFileList == None
  {
    var c1 := ConfigStep(c, vars1).1;
    var s1, s2 := ParseSettings(vars1), ParseSettings(vars2);
    assert Matches(c1, s1);
    assert !Matches(c1, s2);
  }

  /** Reading the same variables twice: the second read changes nothing, so
      a file list filled in between survives it. */
  lemma ConfigStepIdempotent(c: CacheData, vars: UserVars, files: seq<Entry>)
    ensures var c1 := ConfigStep(c, vars).1;
            ConfigStep(c1, vars) == ConfigStep(c, vars)
    ensures var c1 := ConfigStep(c, vars).1.(cacheFileList := Some(files));
            ConfigStep(c1, vars).1 == c1
  {
  }

  /** Every step keeps the path list equal to the split of the search path,
      so after a step with complete credentials the path list is the split of
      the variable just read. */
  lemma ConfigStepCoherent(c: CacheData, vars: UserVars)
    requires Coherent(c)
    ensures Coherent(ConfigStep(c, vars).1)
    ensures Complete(vars) ==> ConfigStep(c, vars).1.searchPathList == SplitSearchPath(vars.searchPath)
  {
  }

  lemma EmptyCacheCoherent()
    ensures Coherent(EmptyCache)
  {
  }
}
