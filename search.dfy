/** The pure steps of `searchMusic`: which directories a crawl starts from,
    and the filter on file names that turns the cached file list into the
    search results. */
module Search {
  import opened Common
  import opened JsText

  /** The roots of a crawl: the configured path list when it is present and
      non-empty, otherwise the server root. */
  function SearchRoots(list: Option<seq<string>>): (roots: seq<Path>)
    ensures |roots| > 0
  {
    if list.Some? && |list.value| > 0 then list.value else ["/"]
  }

  /** `files.filter(it => it.basename.includes(query))` */
  function Matching(files: seq<Entry>, query: string): seq<Entry>
  {
    if files == [] then []
    else (if Includes(files[0].basename, query) then [files[0]] else []) + Matching(files[1..], query)
  }

  /** The search results for a file list: the minimal record of each file
      whose name contains the query, in list order. */
  function Results(files: seq<Entry>, query: string): seq<MusicRecord>
  {
    MapMinimal(Matching(files, query))
  }

  /** The filter keeps the order of the list: filtering a concatenation is
      the concatenation of the filtered parts. */
  lemma {:induction false} MatchingAppend(a: seq<Entry>, b: seq<Entry>, query: string)
    ensures Matching(a + b, query) == Matching(a, query) + Matching(b, query)
  {
    if a == [] {
      assert a + b == b;
    } else {
      var head := if Includes(a[0].basename, query) then [a[0]] else [];
      assert (a + b)[0] == a[0];
      assert (a + b)[1..] == a[1..] + b;
      assert Matching(a + b, query) == head + Matching(a[1..] + b, query);
      MatchingAppend(a[1..], b, query);
      assert head + (Matching(a[1..], query) + Matching(b, query)) == (head + Matching(a[1..], query)) + Matching(b, query);
    }
  }

  /** A matching file is kept as often as it occurs in the list; any other
      file is dropped. */
  lemma {:induction false} MatchingCount(files: seq<Entry>, query: string, e: Entry)
    ensures multiset(Matching(files, query))[e]
         == if Includes(e.basename, query) then multiset(files)[e] else 0
  {
    if files != [] {
      MatchingCount(files[1..], query, e);
      assert files == [files[0]] + files[1..];
    }
  }

  /** A file is in the results exactly when it is in the list and its name
      contains the query at some position. */
  lemma MatchingExactly(files: seq<Entry>, query: string)
    ensures forall e :: e in Matching(files, query) <==>
              e in files && exists i :: OccursAt(e.basename, query, i)
  {
    forall e
      ensures e in Matching(files, query) <==> e in files && exists i :: OccursAt(e.basename, query, i)
    {
      MatchingMember(files, query, e);
      IncludesAt(e.basename, query);
    }
  }

  /** The empty query matches every file. */
  lemma {:induction false} MatchingEverything(files: seq<Entry>)
    ensures Matching(files, "") == files
  {
    if files != [] {
      IncludesEmpty(files[0].basename);
      MatchingEverything(files[1..]);
      assert files == [files[0]] + files[1..];
    }
  }

  /** Each result is the minimal record of a listed file whose name
      contains the query, and every such file gives a result. */
  lemma ResultsAreMatches(files: seq<Entry>, query: string)
    ensures var data := Results(files, query);
            && (forall k :: 0 <= k < |data| ==>
                  exists e :: e in files && Includes(e.basename, query) && data[k] == Minimal(e))
            && (forall e :: e in files && Includes(e.basename, query) ==> Minimal(e) in data)
  {
    var m := Matching(files, query);
    var data := MapMinimal(m);
    assert data == Results(files, query);
    forall k | 0 <= k < |data|
      ensures exists e :: e in files && Includes(e.basename, query) && data[k] == Minimal(e)
    {
      MatchingMember(files, query, m[k]);
      assert m[k] in m && data[k] == Minimal(m[k]);
    }
    forall e | e in files && Includes(e.basename, query)
      ensures Minimal(e) in data
    {
      MatchingMember(files, query, e);
      var k :| 0 <= k < |m| && m[k] == e;
      assert data[k] == Minimal(e);
    }
  }

  /** A file is kept by the filter exactly when it is listed and its name
      contains the query. */
  lemma MatchingMember(files: seq<Entry>, query: string, e: Entry)
    ensures e in Matching(files, query) <==> e in files && Includes(e.basename, query)
  {
    MatchingCount(files, query, e);
    assert e in Matching(files, query) <==> multiset(Matching(files, query))[e] > 0;
    assert e in files <==> multiset(files)[e] > 0;
  }

}
