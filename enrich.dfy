/** The records handed to the host for a list of audio files
    (`getMusicInfoBatch`, `outputMusic`): with metadata, each file is looked
    up in the metadata cache, or else parsed and, when parsing succeeds,
    cached; without metadata, each file gets the minimal record.

    Opening a stream on the server and running the metadata parser over its
    head are one oracle here, a `Probe`, which reports the tags or a failure
    for each position of the batch.
    The worker loop is given as a function over the items in order
    (`EnrichAll`), the specification the method in module Plugin follows;
    `Expected` describes the record at each position directly, and the two
    are proved to agree. */
module Enrich {
  import opened Common

  /** The outcome of opening a stream on the `k`-th file of a batch and
      parsing its head: the tags, or `None` when either throws. Each
      attempt has its own outcome, so the same path can fail at one
      position of a batch and parse at a later one. */
  type Probe = (nat, Path) -> Option<Tags>

  /** The metadata cache, keyed by file path. */
  type InfoCache = map<Path, MusicRecord>

  /** `tag || fallback` for a string tag: an absent or empty tag gives the
      fallback. */
  function TagOr(tag: Option<string>, fallback: string): string
  {
    if tag.Some? && tag.value != "" then tag.value else fallback
  }

  /** The record built from parsed tags; the duration is `duration || 0`. */
  function Info(item: Entry, t: Tags): MusicRecord
  {
    MusicRecord(
      TagOr(t.title, item.basename),
      TagOr(t.artist, UnknownArtist),
      TagOr(t.album, UnknownAlbum),
      Some(match t.duration case None => 0 case Some(d) => d),
      item.filename)
  }

  /** The record of the `catch` branch: no tags, duration 0. */
  function Fallback(item: Entry): MusicRecord
  {
    MusicRecord(item.basename, UnknownArtist, UnknownAlbum, Some(0), item.filename)
  }

  /** Every cached record carries its own key as its id. The cache starts
      empty and is only filled under `item.filename` with a record whose id
      is `item.filename`, so this always holds. */
  predicate IdsMatch(cache: InfoCache)
  {
    forall p :: p in cache ==> cache[p].id == p
  }

  /** One turn of the worker loop: the record for `item`, and the cache
      after it. A hit returns the cached record as it is and does not parse;
      otherwise `outcome` is what parsing gives, a success is cached and a
      failure is not. */
  function EnrichOne(cache: InfoCache, item: Entry, outcome: Option<Tags>): (MusicRecord, InfoCache)
  {
    if item.filename in cache then (cache[item.filename], cache)
    else
      match outcome
      case None => (Fallback(item), cache)
      case Some(t) =>
        var info := Info(item, t);
        (info, cache[item.filename := info])
  }

  /** The worker loop over all items in order: the results array, one
      record per item, and the cache afterwards. */
  function EnrichAll(cache: InfoCache, items: seq<Entry>, probe: Probe): (r: (seq<MusicRecord>, InfoCache))
    ensures |r.0| == |items|
  {
    if items == [] then ([], cache)
    else
      var n := |items| - 1;
      var before := EnrichAll(cache, items[..n], probe);
      var last := EnrichOne(before.1, items[n], probe(n, items[n].filename));
      (before.0 + [last.0], last.1)
  }

  // ---------------------------------------------------------------------
  // The record at each position, directly
  // ---------------------------------------------------------------------

  /** Whether the `k`-th item has path `p` and its parse succeeds. */
  predicate Parsed(items: seq<Entry>, probe: Probe, p: Path, k: nat)
  {
    k < |items| && items[k].filename == p && probe(k, p).Some?
  }

  /** The first position at which `p` parses, or `|items|` when there is
      none. */
  function FirstParsed(items: seq<Entry>, probe: Probe, p: Path): (j: nat)
    ensures j <= |items|
    ensures j < |items| ==> Parsed(items, probe, p, j)
    ensures forall k :: 0 <= k < j ==> !Parsed(items, probe, p, k)
  {
    if items == [] then 0
    else
      var n := |items| - 1;
      var j := FirstParsed(items[..n], probe, p);
      assert forall k :: 0 <= k < n ==> (Parsed(items[..n], probe, p, k) <==> Parsed(items, probe, p, k));
      if j < n then j
      else if Parsed(items, probe, p, n) then n
      else |items|
  }

  /** The files whose metadata parsed successfully at some position. */
  function Fetched(items: seq<Entry>, probe: Probe): set<Path>
  {
    set k | 0 <= k < |items| && probe(k, items[k].filename).Some? :: items[k].filename
  }

  /** The record the loop produces at position `i`: the cached record when
      the file was cached before the batch; otherwise the record built at
      the first position where the file parsed, if that is `i` or earlier (a
      later item with the same path finds it in the cache); otherwise the
      fallback. */
  function Expected(cache: InfoCache, items: seq<Entry>, probe: Probe, i: nat): MusicRecord
    requires i < |items|
  {
    var p := items[i].filename;
    if p in cache then cache[p]
    else
      var j := FirstParsed(items, probe, p);
      if j <= i then Info(items[j], probe(j, p).value) else Fallback(items[i])
  }

  /** The cache after the batch: the old entries unchanged, plus one entry
      for each file parsed successfully, built at its first successful
      parse. */
  predicate CacheAfter(cache: InfoCache, items: seq<Entry>, probe: Probe, c: InfoCache)
  {
    && c.Keys == cache.Keys + Fetched(items, probe)
    && (forall p :: p in cache ==> c[p] == cache[p])
    && NewEntries(cache, items, probe, c)
  }

  /** Every entry of `c` that is not in `cache` holds the record built at
      the first position where its path parsed. */
  predicate NewEntries(cache: InfoCache, items: seq<Entry>, probe: Probe, c: InfoCache)
  {
    forall p :: p in c && p !in cache ==>
      && FirstParsed(items, probe, p) < |items|
      && c[p] == Info(items[FirstParsed(items, probe, p)], probe(FirstParsed(items, probe, p), p).value)
  }

  /** One more item moves the first successful parse only when there was
      none before. */
  lemma FirstParsedSnoc(items: seq<Entry>, x: Entry, probe: Probe, p: Path)
    ensures var j := FirstParsed(items, probe, p);
            FirstParsed(items + [x], probe, p)
              == if j < |items| then j
                 else if x.filename == p && probe(|items|, p).Some? then |items|
                 else |items| + 1
  {
    assert (items + [x])[..|items|] == items;
    assert (items + [x])[|items|] == x;
  }

  lemma FetchedSnoc(items: seq<Entry>, x: Entry, probe: Probe)
    ensures Fetched(items + [x], probe)
         == Fetched(items, probe) + (if probe(|items|, x.filename).Some? then {x.filename} else {})
  {
    var s := items + [x];
    assert s[|items|] == x;
    forall p | p in Fetched(s, probe)
      ensures p in Fetched(items, probe) || (probe(|items|, x.filename).Some? && p == x.filename)
    {
      var k :| 0 <= k < |s| && probe(k, s[k].filename).Some? && s[k].filename == p;
      if k < |items| {
        assert s[k] == items[k];
      }
    }
    forall p | p in Fetched(items, probe)
      ensures p in Fetched(s, probe)
    {
      var k :| 0 <= k < |items| && probe(k, items[k].filename).Some? && items[k].filename == p;
      assert s[k] == items[k];
    }
  }

  /** A path that is neither cached before nor after the batch parsed at
      no position. */
  lemma UncachedNotParsed(cache: InfoCache, items: seq<Entry>, probe: Probe, c: InfoCache, p: Path)
    requires c.Keys == cache.Keys + Fetched(items, probe)
    requires p !in c
    ensures FirstParsed(items, probe, p) == |items|
  {
  }

  /** The entries already built stay right when the item list grows. */
  lemma NewEntriesSnoc(cache: InfoCache, items: seq<Entry>, x: Entry, probe: Probe, c: InfoCache)
    requires NewEntries(cache, items, probe, c)
    ensures NewEntries(cache, items + [x], probe, c)
  {
    forall p | p in c && p !in cache
      ensures FirstParsed(items + [x], probe, p) == FirstParsed(items, probe, p)
      ensures (items + [x])[FirstParsed(items, probe, p)] == items[FirstParsed(items, probe, p)]
    {
      FirstParsedSnoc(items, x, probe, p);
    }
  }

  /** A turn that hits the cache or fails to parse leaves the cache as it
      was, and that cache is still the right one. */
  lemma CacheAfterSame(cache: InfoCache, items: seq<Entry>, x: Entry, probe: Probe, c: InfoCache)
    requires CacheAfter(cache, items, probe, c)
    requires x.filename in c || probe(|items|, x.filename).None?
    ensures CacheAfter(cache, items + [x], probe, c)
  {
    FetchedSnoc(items, x, probe);
    NewEntriesSnoc(cache, items, x, probe, c);
  }

  /** A turn that parses a file not yet cached adds its record, built from
      this item, the first one where the file parsed. */
  lemma CacheAfterNew(cache: InfoCache, items: seq<Entry>, x: Entry, probe: Probe, c: InfoCache)
    requires CacheAfter(cache, items, probe, c)
    requires x.filename !in c && probe(|items|, x.filename).Some?
    ensures CacheAfter(cache, items + [x], probe, c[x.filename := Info(x, probe(|items|, x.filename).value)])
  {
    var s := items + [x];
    FetchedSnoc(items, x, probe);
    NewEntriesSnoc(cache, items, x, probe, c);
    UncachedNotParsed(cache, items, probe, c, x.filename);
    FirstParsedSnoc(items, x, probe, x.filename);
    assert s[|items|] == x;
    NewEntriesAdd(cache, s, probe, c, x.filename);
  }

  lemma NewEntriesAdd(cache: InfoCache, items: seq<Entry>, probe: Probe, c: InfoCache, p: Path)
    requires NewEntries(cache, items, probe, c)
    requires FirstParsed(items, probe, p) < |items|
    ensures NewEntries(cache, items, probe,
                       c[p := Info(items[FirstParsed(items, probe, p)], probe(FirstParsed(items, probe, p), p).value)])
  {
  }

  /** One more turn of the loop keeps `CacheAfter`. */
  lemma CacheAfterSnoc(cache: InfoCache, items: seq<Entry>, x: Entry, probe: Probe, c: InfoCache)
    requires CacheAfter(cache, items, probe, c)
    ensures CacheAfter(cache, items + [x], probe, EnrichOne(c, x, probe(|items|, x.filename)).1)
  {
    if x.filename !in c && probe(|items|, x.filename).Some? {
      CacheAfterNew(cache, items, x, probe, c);
    } else {
      CacheAfterSame(cache, items, x, probe, c);
    }
  }

  /** The cache after the batch is the one `CacheAfter` describes. */
  lemma {:induction false} EnrichAllCache(cache: InfoCache, items: seq<Entry>, probe: Probe)
    ensures CacheAfter(cache, items, probe, EnrichAll(cache, items, probe).1)
  {
    if items == [] {
      assert Fetched(items, probe) == {};
    } else {
      var front := items[..|items| - 1];
      assert items == front + [items[|items| - 1]];
      EnrichAllCache(cache, front, probe);
      CacheAfterSnoc(cache, front, items[|items| - 1], probe, EnrichAll(cache, front, probe).1);
    }
  }

  /** The last record of a batch is `Expected`, given the cache the items
      before it left. */
  lemma LastRecord(cache: InfoCache, items: seq<Entry>, probe: Probe)
    requires items != []
    ensures var n := |items| - 1;
            EnrichAll(cache, items, probe).0[n] == Expected(cache, items, probe, n)
  {
    var n := |items| - 1;
    var front, x, p := items[..n], items[n], items[n].filename;
    assert items == front + [x];
    EnrichAllCache(cache, front, probe);
    var c := EnrichAll(cache, front, probe).1;
    FirstParsedSnoc(front, x, probe, p);
    if p !in cache {
      if p in c {
        assert items[FirstParsed(front, probe, p)] == front[FirstParsed(front, probe, p)];
      } else {
        UncachedNotParsed(cache, front, probe, c, p);
      }
    }
  }

  /** The results array holds `Expected` at every position. */
  lemma {:induction false} EnrichAllRecords(cache: InfoCache, items: seq<Entry>, probe: Probe)
    ensures forall i :: 0 <= i < |items| ==> EnrichAll(cache, items, probe).0[i] == Expected(cache, items, probe, i)
  {
    if items != [] {
      var n := |items| - 1;
      var front, x := items[..n], items[n];
      assert items == front + [x];
      EnrichAllRecords(cache, front, probe);
      LastRecord(cache, items, probe);
      var rs := EnrichAll(cache, items, probe).0;
      forall i | 0 <= i < n
        ensures rs[i] == Expected(cache, items, probe, i)
      {
        var p := items[i].filename;
        assert front[i] == items[i];
        FirstParsedSnoc(front, x, probe, p);
        if FirstParsed(front, probe, p) < n {
          assert front[FirstParsed(front, probe, p)] == items[FirstParsed(front, probe, p)];
        }
      }
    }
  }

  // ---------------------------------------------------------------------
  // Consequences
  // ---------------------------------------------------------------------

  /** Each record is about its own item: the i-th record's id is the i-th
      file's path, whether it came from the cache, the parser or the
      fallback; and the cache keeps every record under its own id. */
  lemma EnrichAllIds(cache: InfoCache, items: seq<Entry>, probe: Probe)
    requires IdsMatch(cache)
    ensures var r := EnrichAll(cache, items, probe);
            && (forall i :: 0 <= i < |items| ==> r.0[i].id == items[i].filename)
            && IdsMatch(r.1)
  {
    EnrichAllRecords(cache, items, probe);
    EnrichAllCache(cache, items, probe);
  }

  /** A file not cached before the batch, whose parses have failed at
      every position up to `i`, gets the fallback record at `i`; it is
      cached afterwards exactly when a later item with its path parses. */
  lemma FailuresNotCached(cache: InfoCache, items: seq<Entry>, probe: Probe, i: nat)
    requires i < |items| && items[i].filename !in cache
    requires forall k :: 0 <= k <= i && items[k].filename == items[i].filename ==> probe(k, items[i].filename).None?
    ensures var r := EnrichAll(cache, items, probe);
            var p := items[i].filename;
            && r.0[i] == Fallback(items[i])
            && (p in r.1 <==> exists k :: i < k < |items| && items[k].filename == p && probe(k, p).Some?)
  {
    var p := items[i].filename;
    EnrichAllRecords(cache, items, probe);
    EnrichAllCache(cache, items, probe);
    var r := EnrichAll(cache, items, probe);
    if p in r.1 {
      var k :| 0 <= k < |items| && probe(k, items[k].filename).Some? && items[k].filename == p;
      assert i < k;
    }
  }

  /** A second batch over the same files, after the first, parses nothing
      that the first one cached: whatever the parser now reports, each such
      file gets its cached record. That is the record the first batch gave
      it, unless the first batch failed on it at that position and parsed it
      only later. */
  lemma SecondBatchUsesCache(cache: InfoCache, items: seq<Entry>, probe: Probe, probe2: Probe)
    ensures var r := EnrichAll(cache, items, probe);
            forall i :: 0 <= i < |items| && items[i].filename in r.1 ==>
              && EnrichAll(r.1, items, probe2).0[i] == r.1[items[i].filename]
              && (r.0[i] == r.1[items[i].filename]
                  || (r.0[i] == Fallback(items[i]) && i < FirstParsed(items, probe, items[i].filename)))
  {
    EnrichAllRecords(cache, items, probe);
    EnrichAllRecords(EnrichAll(cache, items, probe).1, items, probe2);
    EnrichAllCache(cache, items, probe);
  }
}
