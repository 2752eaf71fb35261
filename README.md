# WebDAV music source plugin, modelled in Dafny

The plugin lets a music player browse and search the audio files of a
WebDAV server. It holds one process-wide record, `cachedData`:

- the last connection settings read from the user variables;
- the list of search paths split from those settings;
- the cached list of audio files found by the last crawl;
- a metadata cache keyed by file path.

Its entry points work on that record:

- `getClient` reads the user variables and refreshes the settings. When a setting changed, it drops the cached file list.
- `scanDirRecursive` walks the server depth first. It keeps one shared visited set, applies a depth limit, and collects audio files.
- `getMusicInfoBatch` and `outputMusic` turn files into music records. With metadata switched on, each record comes from the metadata cache or from parsing the file's head.
- `searchMusic` crawls once per settings generation and filters the file list by name.
- `getTopLists` lists the configured search paths.
- `getTopListDetail` crawls one path afresh and outputs its files.
- `search` dispatches music searches.

The project is organised by module:

- `common.dfy` (Common): entries, music records, tags, placeholder strings, and the minimal records used without metadata.
- `js_text.dfy` (JsText): the JavaScript string operations the plugin relies on: `parseInt(s, 10)`, `split(",")`, `startsWith` and `includes`. The lemmas show that parsing reads back the plain decimal spelling of an integer, that split and join are inverse, and that `includes` means occurrence at some index.
- `config.dfy` (Config): `getClient`'s decision as a function of the old cache and the user variables (`ConfigStep`).
- `crawler.dfy` (Crawler): the crawl first as functions over an explicit walk state, `Scan`, `Step`, `ScanItems` and `ScanRoots`, with the properties proved about them. Then as class `Crawl`, whose recursive method `ScanDirRecursive` mutates a visited set and a result list in place and is proved to follow `Scan`.
  - The server is a finite map from directory path to listing. A path missing from the map is a listing that fails.
  - The walk state also records a trace of the listings requested (`listed`), so that "never listed twice" and "listed within the depth limit" can be stated.
  - Termination on a cyclic server is proved with the number of listable directories not yet visited.
- `enrich.dfy` (Enrich): the metadata loop as a function (`EnrichAll`). The metadata parser is an oracle `Probe` that returns the tags or a failure for each position of the batch, so one path can fail at one position and parse at another. `Expected` characterises the record at each position directly, and `EnrichAllRecords` proves that the two agree.
- `search.dfy` (Search): the search roots and the name filter.
- `plugin.dfy` (Plugin): class `PluginState`, holding the fields of `cachedData`. Its methods (`GetClient`, `GetMusicInfoBatch`, `OutputMusic`, `SearchMusic`, `GetTopLists`, `GetTopListDetail`, `Search`) update those fields in place. Each is proved to follow a function of the old state (`ConfigStep`, `EnrichAll`, `Output`, `SearchOutcome`, `TopLists`, `DetailOutcome`). The plugin-level lemmas are proved about those functions. `Valid()` is an invariant that every method keeps. It requires that:
  - the path list is the split of the search path;
  - every cached record carries its own path as id;
  - the cached file list holds only audio files.

Behaviour of the code that the model keeps as written:

- **Failed metadata parses are not cached.** Only the success path writes `fileInfoCache` (plugins/webdav.js:70-72). A file whose parse fails is probed again at its next occurrence in the same batch and in every later batch, and it is cached once one of those parses succeeds (`Enrich.FailuresNotCached`).
- **Incomplete credentials leave `cachedData` untouched.** This holds for `getTopLists` too, so it still lists the search paths cached by an earlier call, not an empty list (`Plugin.TopListsWithoutCredentials`).
- **An empty `searchPath` splits to `[""]`.** That list is non-empty, so the crawl starts from the path `""`, not from `/`. An absent `searchPath` gives an absent list, and that does fall back to `/`. `Plugin.TopListsFollowSearchPath` covers the empty case: one piece, the empty string.
- **Depth is counted along the path by which a directory is first reached.** The depth gate marks a directory visited before checking the limit (plugins/webdav.js:109-111). A directory first reached beyond the limit is therefore never listed, even when a shallower path to it comes later in the walk. All search paths share one visited set (plugins/webdav.js:141-144), so this happens even on a tree when one search path lies under another. With search paths `/` and `/a` and depth limit 0, the walk from `/` marks `/a` visited without listing it, the walk from `/a` then stops at the visited check, and an audio file directly in `/a` is never found (`Crawler.NestedRootSkipped`). On a server whose directories form a tree, it also happens when the search paths are not all disjoint.
- **`getTopListDetail` without complete credentials** calls the crawler with a `null` client. Every listing then throws and is caught, so the crawl behaves as on a server with no listable directory and returns nothing (`Plugin.DetailWithoutCredentials`).
- **A `cachedData.maxDepth` that was never set is `undefined`.** `undefined >= 0` is false, so the crawl has no depth limit (`Plugin.EffectiveDepth`).

## Model

| member | source | states |
|---|---|---|
| JsText.TrimStart | plugins/webdav.js:13 | the white space `parseInt` skips: the result is a suffix of the input, every character removed is white space, and the result does not start with white space |
| JsText.DigitPrefix | plugins/webdav.js:13 | the digits `parseInt` reads: a prefix of the input, all decimal digits, and as long as possible |
| JsText.ParseInt | plugins/webdav.js:13 | `parseInt(s, 10)`: skip leading white space, take an optional `-` (negating) or `+`, then read the longest run of decimal digits and ignore the rest; NaN (`None`) when that run is empty |
| JsText.ParseIntOfDecimal | plugins/webdav.js:13-14 | `parseInt` gives back every integer written in plain decimal, with a minus sign when negative, whatever non-digit text follows it |
| JsText.ParseIntNaN | plugins/webdav.js:13-14 | `parseInt` is NaN exactly when no digit follows the leading white space and optional sign |
| JsText.Split | plugins/webdav.js:29 | `split` always yields at least one piece |
| JsText.SplitPieces | plugins/webdav.js:29 | there is one piece more than there are commas, and no piece contains a comma |
| JsText.JoinSplit | plugins/webdav.js:29 | joining the pieces of a split with the separator gives back the original string |
| JsText.SplitJoin | plugins/webdav.js:29 | splitting a join of comma-free pieces gives back the pieces |
| JsText.IncludesAt | plugins/webdav.js:152 | `includes(q)` holds exactly when `q` occurs at some index |
| Config.ParseDepth | plugins/webdav.js:13-14 | the depth setting: the `parseInt` of the variable, or 5 when it is absent or NaN |
| Config.ParseGetMeta | plugins/webdav.js:15 | the metadata switch is on exactly when the variable is the string "true" |
| Config.SplitSearchPath | plugins/webdav.js:29 | the path list: the search path split at commas, or absent when the search path is absent |
| Config.ConfigStep | plugins/webdav.js:6-37 | no client and an untouched cache exactly when url, username or password is missing or empty; afterwards the cache holds the parsed settings and the client carries the credentials; unchanged settings keep the whole cache, file list included; changed settings re-split the path list and drop the file list; the metadata cache is never touched |
| Config.ParseDepthValues | plugins/webdav.js:13-14 | a depth written as a decimal integer parses to that integer; an absent or non-numeric depth gives 5 |
| Config.ChangedSettingsDropFileList | plugins/webdav.js:17-31 | reading settings that differ in any of the six parsed values from the cached ones drops the file list |
| Config.ConfigStepIdempotent | plugins/webdav.js:17-31 | reading the same variables again changes nothing, so a file list cached in between survives |
| Config.ConfigStepCoherent | plugins/webdav.js:29 | the cached path list stays the split of the cached search path, and after complete credentials it is the split of the variable just read |
| Config.EmptyCacheCoherent | plugins/webdav.js:5 | the empty initial cache satisfies that invariant |
| Crawler.IsAudio | plugins/webdav.js:121 | an entry is collected exactly when its type is file and it has a MIME type starting with "audio" |
| Crawler.WithinDepth | plugins/webdav.js:111 | a directory at a depth is listed unless the limit is non-negative and the depth exceeds it |
| Crawler.Scan | plugins/webdav.js:107-127 | one call of the crawler: `dir` ends up visited, and the visited set, the result list and the trace of listings only grow, with their old contents kept as a prefix |
| Crawler.Step | plugins/webdav.js:121-125 | one turn of the loop over a listing: the walk state only grows |
| Crawler.ScanItems | plugins/webdav.js:120-126 | the loop over a listing, in listing order: the walk state only grows |
| Crawler.ScanRoots | plugins/webdav.js:142-144 | the crawl over all search paths with one shared visited set: the walk state only grows |
| Crawler.ScanListsOnce | plugins/webdav.js:108-109 | every directory the call lists was unvisited when the call began, and no directory is listed twice, even on a cyclic server |
| Crawler.StepListsOnce | plugins/webdav.js:124 | the same for one turn of the loop |
| Crawler.ScanItemsListOnce | plugins/webdav.js:120-126 | the same for the whole loop over a listing |
| Crawler.ScanRootsListOnce | plugins/webdav.js:142-144 | across all roots of a search, every directory listed was unvisited when the search began, and none is listed twice |
| Crawler.ScanDepths | plugins/webdav.js:109-111 | the call lists either nothing or `dir` first, at its depth and within the limit, and every later listing lies deeper and within the limit |
| Crawler.StepDepths | plugins/webdav.js:124 | a subdirectory entry of a listing at depth d is crawled at d + 1: if its crawl lists anything, the first listing is the subdirectory at d + 1; every listing it causes lies deeper than d and passes the depth limit |
| Crawler.ScanItemsDepths | plugins/webdav.js:120-126 | every listing the loop over a listing causes lies deeper than the listing and passes the depth limit |
| Crawler.ScanRootsDepths | plugins/webdav.js:143 | roots start at depth 0: every listing of a search passes the depth limit, and one at depth 0 is a root |
| Crawler.ScanRootsDepthZero | plugins/webdav.js:111 | with a depth limit of 0, a search lists nothing but its roots (a root under an earlier root can be skipped, see `Crawler.NestedRootSkipped`) |
| Crawler.NestedRootSkipped | plugins/webdav.js:107-144 | with search paths `/` and `/a`, `/a` a subdirectory of `/` holding one audio file, and depth limit 0: `/a` ends up visited but only `/` is listed, and nothing is found |
| Crawler.SearchDepthIsChainLength | plugins/webdav.js:119-143 | every directory a fresh search lists at depth k ends a chain of k subdirectory steps from a root: roots are at 0, each subdirectory one below the listing that named it |
| Crawler.TooDeepNeverListed | plugins/webdav.js:111-143 | with a depth limit, a directory that every chain from a root reaches only in more than limit + 1 directories is never listed |
| Crawler.SearchListsAllWithinLimit | plugins/webdav.js:111-144 | with a non-negative depth limit, every subdirectory of a directory a fresh search lists is itself listed, unless some listing at exactly the limit names it; on a tree of directories with a single search root, or with roots none of which lies under another, everything down to the limit is listed |
| Crawler.AudioEntries | plugins/webdav.js:121 | the entries collected from a listing are audio files (`type` file, MIME type starting with "audio") taken from that listing |
| Crawler.ScanFinds | plugins/webdav.js:113-126 | what a call appends to the result is, up to order, exactly the audio entries of the listings it requests; a failed listing adds nothing |
| Crawler.StepFinds | plugins/webdav.js:121-125 | the same for one turn of the loop: an audio file is appended itself, a subdirectory adds what its crawl finds |
| Crawler.ScanItemsFinds | plugins/webdav.js:120-126 | the same for the loop over a listing |
| Crawler.ScanRootsFinds | plugins/webdav.js:142-144 | the same for a search over several roots |
| Crawler.ScanReaches | plugins/webdav.js:120-125 | every subdirectory named by a listing the call requests ends up visited, and with no depth limit every directory the call visits is listed |
| Crawler.StepReaches | plugins/webdav.js:123-125 | a directory entry ends up visited |
| Crawler.ScanItemsReaches | plugins/webdav.js:120-126 | every directory entry of the listing ends up visited |
| Crawler.ScanRootsReaches | plugins/webdav.js:142-144 | every root ends up visited, with the same reach as a single call |
| Crawler.UnlimitedSearchReachesAll | plugins/webdav.js:111 | with a negative depth limit, a fresh search lists every directory reachable from a root through subdirectory entries |
| Crawler.FreshSearch | plugins/webdav.js:140-146 | a search from an empty visited set and an empty result lists no directory twice, lists within the limit, and collects exactly the audio entries of its listings, all audio |
| Crawler.FreshScan | plugins/webdav.js:175-177 | a single fresh crawl lists its root first at depth 0 whatever the limit, then only deeper directories within the limit, none twice, and collects exactly their audio entries |
| Crawler.Crawl.constructor | plugins/webdav.js:175-176 | a crawl starts with an empty visited set and an empty result |
| Crawler.Crawl.ScanDirRecursive | plugins/webdav.js:107-127 | the in-place crawler changes the shared visited set and result list exactly as `Scan` describes |
| Enrich.Info | plugins/webdav.js:62-68 | the record built from parsed tags: title, artist and album from the tag when present and non-empty, else the file name or the placeholder; duration or 0; the path as id |
| Enrich.Fallback | plugins/webdav.js:76-82 | the record when opening or parsing throws: the file name, both placeholders, duration 0, the path as id |
| Enrich.EnrichOne | plugins/webdav.js:52-83 | one turn of the worker: a cached path returns its record as stored and parses nothing; otherwise a successful parse returns `Info` and caches it under the path, and a failure returns `Fallback` and caches nothing |
| Common.Minimal | plugins/webdav.js:98-103 | the record without metadata: the base name as title, the path as id, the two placeholders, no duration |
| Common.MapMinimal | plugins/webdav.js:98-103 | without metadata, the minimal record of each file, in order |
| Enrich.EnrichAll | plugins/webdav.js:46-91 | the batch returns one record per input file |
| Enrich.EnrichAllCache | plugins/webdav.js:51-74 | after the batch the metadata cache keeps every old entry and gains exactly the files parsed successfully at some position, each with the record built at the first position where it parsed |
| Enrich.EnrichAllRecords | plugins/webdav.js:47-83 | the record at position i is the cached record verbatim when the path was cached before the batch; otherwise the record built from the tags (tag if non-empty, else name or placeholder; duration or 0) at the first position up to i where the path parsed; otherwise the fallback |
| Enrich.EnrichAllIds | plugins/webdav.js:62-82 | `results[i].id` is the i-th file's path, whatever the record came from, and the cache keeps each record under its own id |
| Enrich.FailuresNotCached | plugins/webdav.js:52-83 | an uncached file whose parses failed at every position up to i gets the fallback record (name, placeholders, duration 0) at i, and is cached afterwards exactly when a later occurrence parses |
| Enrich.SecondBatchUsesCache | plugins/webdav.js:52-55 | a second batch over the same files gives every file cached by the first its cached record, whatever the parser would now report; that is the first batch's record at that position unless the first batch failed there and parsed the file only later |
| Search.Matching | plugins/webdav.js:152 | the cached files whose base name contains the query, in list order |
| Search.Results | plugins/webdav.js:151-158 | the minimal record (base name as title, path as id, placeholders for artist and album) of each matching file, in order |
| Search.SearchRoots | plugins/webdav.js:136-138 | a crawl always has at least one root |
| Search.MatchingAppend | plugins/webdav.js:152 | the name filter keeps list order |
| Search.MatchingCount | plugins/webdav.js:152 | a file whose name contains the query is kept as often as it occurs; any other file is dropped |
| Search.MatchingMember | plugins/webdav.js:152 | a file is kept by the name filter exactly when it is in the list and its base name contains the query |
| Search.MatchingExactly | plugins/webdav.js:152 | a file is in the filtered list exactly when it is in the list and the query occurs in its name |
| Search.MatchingEverything | plugins/webdav.js:152 | the empty query keeps every file |
| Search.ResultsAreMatches | plugins/webdav.js:149-159 | every search result is the minimal record of a cached file whose name contains the query, and every such file gives a result |
| Plugin.EffectiveDepth | plugins/webdav.js:143 | the depth limit the crawl receives: the cached depth, or no limit when it was never set (`undefined >= 0` is false) |
| Plugin.Output | plugins/webdav.js:94-105 | with the cached metadata switch on, the batch's records and metadata cache; otherwise the minimal records and the cache unchanged |
| Plugin.SearchOutcome | plugins/webdav.js:130-160 | no client: the cache as `getClient` left it and no results; otherwise the cached file list, or a fresh crawl of the search roots at the cached depth that is then cached, filtered by the query |
| Plugin.TopLists | plugins/webdav.js:163-170 | one group titled "全部歌曲" with one entry per cached search path (none when absent), title and id the path |
| Plugin.DetailFiles | plugins/webdav.js:173-177 | the audio files of a fresh crawl from the list's id at depth 0 with the cached depth limit; with no client every listing fails |
| Plugin.DetailOutcome | plugins/webdav.js:172-183 | the cache after `getClient`, then `Output` of the files `DetailFiles` finds |
| Plugin.PluginState.constructor | plugins/webdav.js:5 | the cache starts with every field absent and an empty metadata cache, and satisfies the invariant |
| Plugin.PluginState.GetClient | plugins/webdav.js:6-37 | the client returned and the cache afterwards are those of `ConfigStep`; the invariant is kept |
| Plugin.PluginState.GetMusicInfoBatch | plugins/webdav.js:40-92 | the results and the metadata cache are those of `EnrichAll`, and no other field changes; the invariant is kept |
| Plugin.PluginState.OutputMusic | plugins/webdav.js:94-105 | enriched records when the cached switch is on, minimal records and an unchanged cache otherwise; the invariant is kept |
| Plugin.PluginState.SearchMusic | plugins/webdav.js:130-160 | the search always reports the last page, and its results and the cache afterwards are those of `SearchOutcome`; the invariant is kept |
| Plugin.PluginState.GetTopLists | plugins/webdav.js:161-171 | refreshes the cache as `getClient` does and returns one group of the cached search paths |
| Plugin.PluginState.GetTopListDetail | plugins/webdav.js:172-183 | the music list and the cache afterwards are those of `DetailOutcome`; the invariant is kept |
| Plugin.PluginState.Search | plugins/webdav.js:220-224 | only the "music" type searches; any other type returns nothing and leaves the cache alone |
| Plugin.SearchWithoutCredentials | plugins/webdav.js:132-133 | without complete credentials a search returns no results and changes nothing |
| Plugin.SearchAfterChangeCrawls | plugins/webdav.js:135-147 | after a settings change the search crawls the newly configured roots with the new depth, caches that list and filters it |
| Plugin.SecondSearchUsesCache | plugins/webdav.js:135 | a second search with the same settings does not consult the server: it filters the list the first search cached |
| Plugin.SearchCrawlIsSound | plugins/webdav.js:140-146 | the list a search caches holds only audio files, exactly those of the listings it requested, with no directory listed twice and every listing within the limit |
| Plugin.UnlimitedSearchFindsReachable | plugins/webdav.js:140-146 | with no depth limit, every audio file in a directory reachable from a search root is in the list a fresh search caches |
| Plugin.TopListsFollowSearchPath | plugins/webdav.js:161-171 | the top list has one entry per comma-separated piece of the search path, title equal to id, no id containing a comma, and the ids joined by commas give the search path back |
| Plugin.TopListsWithoutCredentials | plugins/webdav.js:162 | incomplete credentials leave the top list as the earlier cached paths made it |
| Plugin.DetailWithoutCredentials | plugins/webdav.js:172-177 | without a client the detail view returns nothing and changes nothing |
| Plugin.DetailRecords | plugins/webdav.js:172-183 | the detail view returns one record per audio file found under the id, in the order found, each carrying that file's path as id; the files are, up to order, exactly the audio entries of the crawl's listings, the id listed first; the metadata cache keeps its ids |
| Plugin.DetailWithoutMetadata | plugins/webdav.js:98-103 | with the metadata switch off the detail view returns the minimal records and does not touch the metadata cache |

## Left out

- The WebDAV client (`createClient`, `getDirectoryContents`, `createReadStream`) is network I/O. The server is a map from directory path to listing, and a missing path stands for any listing error. The handle `getClient` returns is a plain record of the credentials.
- `music-metadata`'s `parseStream`, the 128 KB range read and `stream.destroy` are a foreign parser and stream handling. They are one oracle, `Probe`, that returns optional tags or a failure for each position of a batch.
- Plugin.PluginState.GetMusicInfoBatch: the five concurrent workers and `Promise.all` become one sequential loop over the shared index, which still claims each index exactly once. With real interleaving, two items with the same path can both miss the cache and both be parsed. The model does not capture that.
- Durations are JavaScript numbers, often fractional. The model uses integers, so floating point is not modelled.
- JsText.ParseInt: integers are unbounded. The model does not capture the precision loss of JavaScript numbers above 2^53, or `-0`.
- JsText.IntToDecimal: always writes plain digits. From 10^21 up in magnitude, JavaScript's `String(n)` writes exponent notation (`1e+21`), which `parseInt` reads back as 1; the round trip of `JsText.ParseIntOfDecimal` is about the plain spelling only.
- `env.getUserVariables` is host I/O. The user variables are a parameter of each entry point.
- `getMediaSource` is a single call into the WebDAV client (`getFileDownloadLink`) with nothing to prove about it.
- The `module.exports` manifest and its `userVariables` schema are declarative data.
- Interleaving of entry points is not modelled. Two entry points running concurrently (for example two searches each starting a crawl) are outside the model. Every method runs to completion against the cache.
