/** The plugin's entry points over its process-wide cache (`cachedData`):
    `getClient`, `getMusicInfoBatch`, `outputMusic`, `searchMusic`,
    `getTopLists`, `getTopListDetail` and `search`.

    The cache is the class `PluginState`, whose methods update its fields in
    place. The WebDAV server is a `Store` (module Crawler), the user
    variables are a parameter of each call, and the metadata parser is a
    `Probe` (module Enrich). What each entry point does to the cache and
    returns is also given as a function of the old cache (`SearchOutcome`,
    `DetailOutcome`, ...); each method is proved to follow its function,
    and the properties of the plugin are proved about the functions. */
module Plugin {
  import opened Common
  import opened JsText
  import opened Config
  import opened Crawler
  import opened Enrich
  import opened Search

  /** One entry of the top list: a configured search path as both title and
      id. */
  datatype TopListItem = TopListItem(title: string, id: string)

  /** A group of top lists, as `getTopLists` returns them. */
  datatype TopListGroup = TopListGroup(title: string, data: seq<TopListItem>)

  /** Title of the only group ("all songs"). */
  const AllSongs: string := "全部歌曲"

  /** `cachedData.maxDepth` as the crawler reads it. When it was never set
      it is `undefined`, and `undefined >= 0` is false, so there is no
      limit. */
  function EffectiveDepth(maxDepth: Option<int>): int
  {
    match maxDepth
    case None => -1
    case Some(d) => d
  }

  /** Every entry of the cached file list is an audio file. */
  predicate AllAudio(list: Option<seq<Entry>>)
  {
    list.Some? ==> forall e :: e in list.value ==> IsAudio(e)
  }

  /** What a crawl over `roots` from a fresh visited set collects. */
  function CrawlFiles(store: Store, roots: seq<Path>, maxDepth: int): seq<Entry>
  {
    ScanRoots(store, roots, maxDepth, Walk({}, [], [])).found
  }

  /** `outputMusic`: the enriched records when the cached switch is on, the
      minimal ones otherwise; and the cache afterwards. */
  function Output(c: CacheData, files: seq<Entry>, probe: Probe): (CacheData, seq<MusicRecord>)
  {
    if c.getMeta == Some(true) then
      var e := EnrichAll(c.fileInfoCache, files, probe);
      (c.(fileInfoCache := e.1), e.0)
    else
      (c, MapMinimal(files))
  }

  /** `searchMusic(query)`: the cache afterwards and the records returned.
      With incomplete credentials nothing is searched. Otherwise the file
      list is crawled only when the cache holds none, and is then kept. */
  function SearchOutcome(c: CacheData, vars: UserVars, store: Store, query: string): (CacheData, seq<MusicRecord>)
  {
    var step := ConfigStep(c, vars);
    var c1 := step.1;
    if step.0.None? then (c1, [])
    else
      var files :=
        if c1.cacheFileList.Some? then c1.cacheFileList.value
        else CrawlFiles(store, SearchRoots(c1.searchPathList), EffectiveDepth(c1.maxDepth));
      (c1.(cacheFileList := Some(files)), Results(files, query))
  }

  /** `getTopLists()`: one group holding the cached path list, or nothing. */
  function TopLists(list: Option<seq<string>>): seq<TopListGroup>
  {
    var paths := if list.Some? then list.value else [];
    [TopListGroup(AllSongs, seq(|paths|, i requires 0 <= i < |paths| => TopListItem(paths[i], paths[i])))]
  }

  /** The ids of a group's entries, in order. */
  function Ids(g: TopListGroup): seq<string>
  {
    seq(|g.data|, i requires 0 <= i < |g.data| => g.data[i].id)
  }

  /** The files `getTopListDetail` collects under `id`. Without a client
      every listing throws and is caught, which is a server with no
      listable directory. */
  function DetailFiles(c: CacheData, vars: UserVars, store: Store, id: Path): seq<Entry>
  {
    var step := ConfigStep(c, vars);
    var server: Store := if step.0.Some? then store else map[];
    Scan(server, id, 0, EffectiveDepth(step.1.maxDepth), Walk({}, [], [])).found
  }

  /** `getTopListDetail(topListItem)`: the cache afterwards and the music
      list. */
  function DetailOutcome(c: CacheData, vars: UserVars, store: Store, probe: Probe, id: Path): (CacheData, seq<MusicRecord>)
  {
    Output(ConfigStep(c, vars).1, DetailFiles(c, vars, store, id), probe)
  }

  // ---------------------------------------------------------------------
  // The cache, in place
  // ---------------------------------------------------------------------

  /** `cachedData`: one mutable record shared by every entry point. */
  class PluginState {
    var url: Option<string>
    var username: Option<string>
    var password: Option<string>
    var searchPath: Option<string>
    var maxDepth: Option<int>
    var getMeta: Option<bool>
    var searchPathList: Option<seq<string>>
    var cacheFileList: Option<seq<Entry>>
    var fileInfoCache: map<Path, MusicRecord>

    /** The fields as one value. */
    function Data(): CacheData
      reads this
    {
      CacheData(url, username, password, searchPath, maxDepth, getMeta,
                searchPathList, cacheFileList, fileInfoCache)
    }

    /** What every entry point keeps: the path list is the split of the
        search path, every cached record carries its own path as id, and
        the cached file list holds audio files only. */
    predicate Valid()
      reads this
    {
      && Coherent(Data())
      && IdsMatch(fileInfoCache)
      && AllAudio(cacheFileList)
    }

    /** `let cachedData = {}` */
    constructor ()
      ensures Data() == EmptyCache && Valid()
    {
      url, username, password, searchPath := None, None, None, None;
      maxDepth, getMeta := None, None;
      searchPathList, cacheFileList := None, None;
      fileInfoCache := map[];
    }

    /** `getClient()`: reads the user variables and updates the cache as
        `ConfigStep` says. */
    method GetClient(vars: UserVars) returns (client: Option<Connection>)
      requires Valid()
      modifies this
      ensures (client, Data()) == ConfigStep(old(Data()), vars)
      ensures Valid()
    {
      ConfigStepCoherent(Data(), vars);
      if !(Truthy(vars.url) && Truthy(vars.username) && Truthy(vars.password)) {
        return None;
      }
      var parsedDepth := ParseDepth(vars.maxDepth);
      var parsedGetMeta := ParseGetMeta(vars.getMeta);
      if !(url == vars.url && username == vars.username && password == vars.password
           && searchPath == vars.searchPath && maxDepth == Some(parsedDepth)
           && getMeta == Some(parsedGetMeta)) {
        url, username, password := vars.url, vars.username, vars.password;
        searchPath := vars.searchPath;
        maxDepth := Some(parsedDepth);
        getMeta := Some(parsedGetMeta);
        searchPathList := SplitSearchPath(vars.searchPath);
        cacheFileList := None;
      }
      client := Some(Connection(vars.url.value, vars.username.value, vars.password.value));
    }

    /** `getMusicInfoBatch(client, fileItems)`, with one worker: the
        results and the metadata cache are those of `EnrichAll`, and no
        other field changes. */
    method GetMusicInfoBatch(items: seq<Entry>, probe: Probe) returns (results: seq<MusicRecord>)
      requires Valid()
      modifies this
      ensures (results, fileInfoCache) == EnrichAll(old(fileInfoCache), items, probe)
      ensures Data() == old(Data()).(fileInfoCache := fileInfoCache)
      ensures Valid()
    {
      results := [];
      var index := 0;
      while index < |items|
        invariant 0 <= index <= |items|
        invariant (results, fileInfoCache) == EnrichAll(old(fileInfoCache), items[..index], probe)
        invariant Data() == old(Data()).(fileInfoCache := fileInfoCache)
      {
        var i := index;
        index := index + 1;
        var item := items[i];
        assert items[..index][..i] == items[..i];
        if item.filename in fileInfoCache {
          results := results + [fileInfoCache[item.filename]];
          continue;
        }
        var tags := probe(i, item.filename);
        if tags.Some? {
          var info := Info(item, tags.value);
          fileInfoCache := fileInfoCache[item.filename := info];
          results := results + [info];
        } else {
          results := results + [Fallback(item)];
        }
      }
      assert items[..|items|] == items;
      EnrichAllIds(old(fileInfoCache), items, probe);
    }

    /** `outputMusic(client, fileItems)`, as `Output` says. */
    method OutputMusic(files: seq<Entry>, probe: Probe) returns (records: seq<MusicRecord>)
      requires Valid()
      modifies this
      ensures (Data(), records) == Output(old(Data()), files, probe)
      ensures Valid()
    {
      if getMeta == Some(true) {
        records := GetMusicInfoBatch(files, probe);
      } else {
        records := MapMinimal(files);
      }
    }

    /** `searchMusic(query)`, as `SearchOutcome` says; the result always
        says it is the last page. */
    method SearchMusic(vars: UserVars, store: Store, query: string) returns (isEnd: bool, data: seq<MusicRecord>)
      requires Valid()
      modifies this
      ensures isEnd
      ensures (Data(), data) == SearchOutcome(old(Data()), vars, store, query)
      ensures Valid()
    {
      var client := GetClient(vars);
      if client.None? {
        return true, [];
      }
      if cacheFileList.None? {
        var roots := SearchRoots(searchPathList);
        var depth := EffectiveDepth(maxDepth);
        var crawl := new Crawl();
        ghost var fields := Data();
        for k := 0 to |roots|
          invariant Data() == fields
          invariant ScanRoots(store, roots[k..], depth, crawl.State())
                 == ScanRoots(store, roots, depth, Walk({}, [], []))
        {
          crawl.ScanDirRecursive(store, roots[k], 0, depth);
          assert roots[k..][1..] == roots[k + 1..];
        }
        assert roots[|roots|..] == [];
        FreshSearch(store, roots, depth);
        cacheFileList := Some(crawl.result);
      }
      isEnd := true;
      data := Results(cacheFileList.value, query);
    }

    /** `getTopLists()`: refreshes the cache from the user variables and
        lists the cached search paths. */
    method GetTopLists(vars: UserVars) returns (lists: seq<TopListGroup>)
      requires Valid()
      modifies this
      ensures Data() == ConfigStep(old(Data()), vars).1
      ensures lists == TopLists(searchPathList)
      ensures Valid()
    {
      var _ := GetClient(vars);
      lists := TopLists(searchPathList);
    }

    /** `getTopListDetail(topListItem)`, as `DetailOutcome` says. */
    method GetTopListDetail(vars: UserVars, store: Store, probe: Probe, id: Path) returns (musicList: seq<MusicRecord>)
      requires Valid()
      modifies this
      ensures (Data(), musicList) == DetailOutcome(old(Data()), vars, store, probe, id)
      ensures Valid()
    {
      var client := GetClient(vars);
      var server: Store := if client.Some? then store else map[];
      var crawl := new Crawl();
      crawl.ScanDirRecursive(server, id, 0, EffectiveDepth(maxDepth));
      musicList := OutputMusic(crawl.result, probe);
    }

    /** `search(query, page, type)`: only music is searched; any other type
        gives no result and leaves the cache alone. */
    method Search(vars: UserVars, store: Store, query: string, page: int, searchType: string)
      returns (r: Option<(bool, seq<MusicRecord>)>)
      requires Valid()
      modifies this
      ensures searchType == "music" ==>
                && r == Some((true, SearchOutcome(old(Data()), vars, store, query).1))
                && Data() == SearchOutcome(old(Data()), vars, store, query).0
      ensures searchType != "music" ==> r.None? && Data() == old(Data())
      ensures Valid()
    {
      if searchType == "music" {
        var isEnd, data := SearchMusic(vars, store, query);
        r := Some((isEnd, data));
      } else {
        r := None;
      }
    }
  }

  // ---------------------------------------------------------------------
  // Properties of the entry points
  // ---------------------------------------------------------------------

  /** Without complete credentials a search returns nothing and changes
      nothing. */
  lemma SearchWithoutCredentials(c: CacheData, vars: UserVars, store: Store, query: string)
    requires !Complete(vars)
    ensures SearchOutcome(c, vars, store, query) == (c, [])
  {
  }

  /** Settings that differ from the cached ones force a new crawl, from the
      newly configured roots and with the newly configured depth. */
  lemma SearchAfterChangeCrawls(c: CacheData, vars: UserVars, store: Store, query: string)
    requires Complete(vars) && !Matches(c, ParseSettings(vars))
    ensures var files := CrawlFiles(store, SearchRoots(SplitSearchPath(vars.searchPath)), ParseDepth(vars.maxDepth));
            && SearchOutcome(c, vars, store, query).1 == Results(files, query)
            && SearchOutcome(c, vars, store, query).0.cacheFileList == Some(files)
  {
  }

  /** A second search with the same settings reuses the list the first one
      cached: it does not look at the server again, whatever it now holds. */
  lemma SecondSearchUsesCache(c: CacheData, vars: UserVars, store1: Store, store2: Store, q1: string, q2: string)
    requires Complete(vars)
    ensures var c1 := SearchOutcome(c, vars, store1, q1).0;
            && c1.cacheFileList.Some?
            && SearchOutcome(c1, vars, store2, q2) == (c1, Results(c1.cacheFileList.value, q2))
  {
    var c1 := SearchOutcome(c, vars, store1, q1).0;
    var s := ParseSettings(vars);
    assert Matches(ConfigStep(c, vars).1, s);
    assert Matches(c1, s);
  }

  /** What a fresh crawl puts in the cache is audio files only, each the
      audio entry of a listing the crawl requested; no directory is listed
      twice and every listing passes the depth gate. */
  lemma SearchCrawlIsSound(store: Store, list: Option<seq<string>>, maxDepth: Option<int>)
    ensures var roots := SearchRoots(list);
            var r := ScanRoots(store, roots, EffectiveDepth(maxDepth), Walk({}, [], []));
            && AllAudio(Some(r.found))
            && TraceOk(r)
            && ListedFromRoots(r.listed, 0, roots, EffectiveDepth(maxDepth))
            && multiset(r.found) == multiset(AudioOf(store, r.listed))
  {
    FreshSearch(store, SearchRoots(list), EffectiveDepth(maxDepth));
  }

  /** A search that crawls with no depth limit finds the audio files of
      every directory reachable from a root. */
  lemma UnlimitedSearchFindsReachable(c: CacheData, vars: UserVars, store: Store, p: seq<Path>, e: Entry)
    requires Coherent(c)
    requires Complete(vars) && ConfigStep(c, vars).1.cacheFileList.None?
    requires ParseDepth(vars.maxDepth) < 0
    requires IsChain(store, p) && |p| > 0 && p[0] in SearchRoots(SplitSearchPath(vars.searchPath))
    requires p[|p| - 1] in store && e in store[p[|p| - 1]] && IsAudio(e)
    ensures e in SearchOutcome(c, vars, store, "").0.cacheFileList.value
  {
    var c1 := ConfigStep(c, vars).1;
    ConfigStepCoherent(c, vars);
    var roots := SearchRoots(c1.searchPathList);
    var depth := EffectiveDepth(c1.maxDepth);
    var w := Walk({}, [], []);
    var r := ScanRoots(store, roots, depth, w);
    UnlimitedSearchReachesAll(store, roots, depth, p);
    var d := p[|p| - 1];
    var i :| 0 <= i < |r.listed| && r.listed[i].dir == d;
    AudioOfHas(store, r.listed, i, e);
    FreshSearch(store, roots, depth);
    assert e in multiset(r.found);
  }

  lemma {:induction false} AudioOfHas(store: Store, ls: seq<Listing>, i: nat, e: Entry)
    requires i < |ls| && ls[i].dir in store && e in store[ls[i].dir] && IsAudio(e)
    ensures e in AudioOf(store, ls)
  {
    if i == 0 {
      AudioEntriesHas(store[ls[0].dir], e);
    } else {
      AudioOfHas(store, ls[1..], i - 1, e);
    }
  }

  lemma {:induction false} AudioEntriesHas(items: seq<Entry>, e: Entry)
    requires e in items && IsAudio(e)
    ensures e in AudioEntries(items)
  {
    if items[0] != e {
      AudioEntriesHas(items[1..], e);
    }
  }

  /** The top list follows the configured search path: one entry per
      comma-separated piece, with the piece as title and id, no id holding a
      comma, and the ids joined by commas giving the search path back. */
  lemma TopListsFollowSearchPath(c: CacheData, vars: UserVars, sp: string)
    requires Coherent(c)
    requires Complete(vars) && vars.searchPath == Some(sp)
    ensures var g := TopLists(ConfigStep(c, vars).1.searchPathList)[0];
            && |g.data| == Count(sp, ',') + 1
            && (forall i :: 0 <= i < |g.data| ==> g.data[i].title == g.data[i].id && ',' !in g.data[i].id)
            && Join(Ids(g), ',') == sp
  {
    ConfigStepCoherent(c, vars);
    var g := TopLists(ConfigStep(c, vars).1.searchPathList)[0];
    var pieces := Split(sp, ',');
    SplitPieces(sp, ',');
    JoinSplit(sp, ',');
    assert |g.data| == |pieces|;
    assert forall i :: 0 <= i < |g.data| ==> g.data[i] == TopListItem(pieces[i], pieces[i]);
    assert Ids(g) == pieces;
  }

  /** Incomplete credentials leave the top list as it was, including any
      paths cached by an earlier call. */
  lemma TopListsWithoutCredentials(c: CacheData, vars: UserVars)
    requires !Complete(vars)
    ensures TopLists(ConfigStep(c, vars).1.searchPathList) == TopLists(c.searchPathList)
  {
  }

  /** Without a client the detail view lists nothing and changes nothing. */
  lemma DetailWithoutCredentials(c: CacheData, vars: UserVars, store: Store, probe: Probe, id: Path)
    requires !Complete(vars)
    ensures DetailOutcome(c, vars, store, probe, id) == (c, [])
  {
    var w := Walk({}, [], []);
    var r := Scan(map[], id, 0, EffectiveDepth(c.maxDepth), w);
    assert r.found == [];
  }

  /** The detail view gives one record per audio file found under `id`, in
      the order found, each record's id the file's path; the files are
      exactly the audio entries of the listings, `id` first. */
  lemma DetailRecords(c: CacheData, vars: UserVars, store: Store, probe: Probe, id: Path)
    requires IdsMatch(c.fileInfoCache)
    ensures var files := DetailFiles(c, vars, store, id);
            var out := DetailOutcome(c, vars, store, probe, id);
            && |out.1| == |files|
            && (forall i :: 0 <= i < |files| ==> out.1[i].id == files[i].filename && IsAudio(files[i]))
            && IdsMatch(out.0.fileInfoCache)
            && var step := ConfigStep(c, vars);
               var server: Store := if step.0.Some? then store else map[];
               var r := Scan(server, id, 0, EffectiveDepth(step.1.maxDepth), Walk({}, [], []));
               && r.listed[0] == Listing(id, 0)
               && multiset(files) == multiset(AudioOf(server, r.listed))
  {
    var step := ConfigStep(c, vars);
    var server: Store := if step.0.Some? then store else map[];
    var files := DetailFiles(c, vars, store, id);
    FreshScan(server, id, EffectiveDepth(step.1.maxDepth));
    EnrichAllIds(step.1.fileInfoCache, files, probe);
    assert forall i :: 0 <= i < |files| ==> files[i] in files;
  }

  /** With the metadata switch off, the detail view's records are the
      minimal ones and the metadata cache is not touched. */
  lemma DetailWithoutMetadata(c: CacheData, vars: UserVars, store: Store, probe: Probe, id: Path)
    requires ConfigStep(c, vars).1.getMeta != Some(true)
    ensures var out := DetailOutcome(c, vars, store, probe, id);
            && out.0 == ConfigStep(c, vars).1
            && out.1 == MapMinimal(DetailFiles(c, vars, store, id))
  {
  }
}
