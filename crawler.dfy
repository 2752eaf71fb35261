/** The directory crawler (`scanDirRecursive`): a depth-first walk of a WebDAV
    server that collects audio files, with one shared set of visited paths
    and a depth limit.

    The server is a finite map from a directory path to its listing; a path
    that is not in the map stands for a listing that fails (missing
    directory, permission denied, network error). The walk is first given
    as functions (`Scan`, `ScanItems`, `ScanRoots`), whose properties are
    proved below; class `Crawl` then runs the same walk in place, on a
    mutable visited set and a mutable result list. */
module Crawler {
  import opened Common
  import opened JsText

  type Store = map<Path, seq<Entry>>

  /** `it.type === "file" && it.mime?.startsWith("audio")` */
  predicate IsAudio(e: Entry)
  {
    e.kind == FileKind && e.mime.Some? && StartsWith(e.mime.value, "audio")
  }

  /** The depth gate: a directory is listed only when the limit is negative
      (unlimited) or its depth does not exceed the limit. */
  predicate WithinDepth(depth: nat, maxDepth: int)
  {
    maxDepth < 0 || depth <= maxDepth
  }

  /** One call of `getDirectoryContents`: which directory, at which depth. */
  datatype Listing = Listing(dir: Path, depth: nat)

  /** The state a walk threads through: the shared visited set, the shared
      result list, and the trace of the listings requested from the server
      (the trace is not in the source; it records the server calls so that
      properties about them can be stated). */
  datatype Walk = Walk(visited: set<Path>, found: seq<Entry>, listed: seq<Listing>)

  /** How many listable directories have not been visited yet; every listing
      uses one up, which is why a walk stops even on a cyclic server. */
  function Unlisted(store: Store, visited: set<Path>): nat
  {
    |store.Keys - visited|
  }

  lemma UnlistedShrinks(store: Store, visited: set<Path>, dir: Path)
    requires dir in store && dir !in visited
    ensures Unlisted(store, visited + {dir}) < Unlisted(store, visited)
  {
    assert store.Keys - (visited + {dir}) == (store.Keys - visited) - {dir};
  }

  lemma {:induction false} SubsetSize<T>(a: set<T>, b: set<T>)
    requires a <= b
    ensures |a| <= |b|
  {
    if a != {} {
      var x :| x in a;
      SubsetSize(a - {x}, b - {x});
    }
  }

  lemma UnlistedMonotone(store: Store, v1: set<Path>, v2: set<Path>)
    requires v1 <= v2
    ensures Unlisted(store, v2) <= Unlisted(store, v1)
  {
    SubsetSize(store.Keys - v2, store.Keys - v1);
  }

  /** `scanDirRecursive(client, dir, result, depth, maxDepth, visited)`: a
      visited directory is skipped; otherwise it is marked visited, and, if
      the depth gate lets it through and its listing succeeds, its entries
      are handled in listing order. */
  function Scan(store: Store, dir: Path, depth: nat, maxDepth: int, w: Walk): (r: Walk)
    decreases Unlisted(store, w.visited), 0, 0
    ensures w.visited + {dir} <= r.visited
    ensures w.found <= r.found
    ensures w.listed <= r.listed
  {
    if dir in w.visited then w
    else
      var marked := w.(visited := w.visited + {dir});
      if !WithinDepth(depth, maxDepth) then marked
      else
        var asked := marked.(listed := marked.listed + [Listing(dir, depth)]);
        if dir !in store then asked
        else
          UnlistedShrinks(store, w.visited, dir);
          ScanItems(store, store[dir], depth, maxDepth, asked)
  }

  /** The body of the loop over a listing of a directory at `depth`: an audio
      file is appended to the result, a subdirectory is walked at
      `depth + 1`, anything else is skipped. */
  function Step(store: Store, it: Entry, depth: nat, maxDepth: int, w: Walk): (r: Walk)
    decreases Unlisted(store, w.visited), 1, 0
    ensures w.visited <= r.visited
    ensures w.found <= r.found
    ensures w.listed <= r.listed
  {
    if IsAudio(it) then w.(found := w.found + [it])
    else if it.kind == DirectoryKind then Scan(store, it.filename, depth + 1, maxDepth, w)
    else w
  }

  /** The loop over one listing, entry by entry in listing order. */
  function ScanItems(store: Store, items: seq<Entry>, depth: nat, maxDepth: int, w: Walk): (r: Walk)
    decreases Unlisted(store, w.visited), 2, |items|
    ensures w.visited <= r.visited
    ensures w.found <= r.found
    ensures w.listed <= r.listed
  {
    if items == [] then w
    else
      var next := Step(store, items[0], depth, maxDepth, w);
      UnlistedMonotone(store, w.visited, next.visited);
      ScanItems(store, items[1..], depth, maxDepth, next)
  }

  /** The loop of `searchMusic` over the search paths: every root is walked
      from depth 0, all of them sharing one visited set and one result. */
  function ScanRoots(store: Store, roots: seq<Path>, maxDepth: int, w: Walk): (r: Walk)
    ensures w.visited <= r.visited
    ensures w.found <= r.found
    ensures w.listed <= r.listed
  {
    if roots == [] then w
    else ScanRoots(store, roots[1..], maxDepth, Scan(store, roots[0], 0, maxDepth, w))
  }

  /** A call that gets past the visited check and the depth gate, and whose
      listing succeeds, loops over that listing. */
  lemma ScanListed(store: Store, dir: Path, depth: nat, maxDepth: int, w: Walk)
    requires dir !in w.visited && WithinDepth(depth, maxDepth) && dir in store
    ensures Scan(store, dir, depth, maxDepth, w)
         == ScanItems(store, store[dir], depth, maxDepth,
                      Walk(w.visited + {dir}, w.found, w.listed + [Listing(dir, depth)]))
  {
  }

  lemma SliceSplit<T>(x: seq<T>, y: seq<T>, z: seq<T>)
    requires x <= y <= z
    ensures z[|x|..] == y[|x|..] + z[|y|..]
  {
  }

  // ---------------------------------------------------------------------
  // No directory is listed twice
  // ---------------------------------------------------------------------

  /** Every directory in the trace has been visited, and no directory occurs
      in it twice. */
  predicate TraceOk(w: Walk)
  {
    && (forall i :: 0 <= i < |w.listed| ==> w.listed[i].dir in w.visited)
    && (forall i, j :: 0 <= i < j < |w.listed| ==> w.listed[i].dir != w.listed[j].dir)
  }

  /** None of the listings from index `from` on is of a directory in `before`. */
  predicate ListedOutside(ls: seq<Listing>, from: nat, before: set<Path>)
  {
    forall i :: from <= i < |ls| ==> ls[i].dir !in before
  }

  /** The walk keeps `TraceOk`, and every directory it lists was not visited
      when it started: a directory is listed at most once, even when the
      server's directories form a cycle. */
  lemma {:induction false} ScanListsOnce(store: Store, dir: Path, depth: nat, maxDepth: int, w: Walk)
    requires TraceOk(w)
    ensures var r := Scan(store, dir, depth, maxDepth, w);
            TraceOk(r) && ListedOutside(r.listed, |w.listed|, w.visited)
    decreases Unlisted(store, w.visited), 0, 0
  {
    if dir !in w.visited && WithinDepth(depth, maxDepth) {
      var marked := w.(visited := w.visited + {dir});
      var asked := marked.(listed := marked.listed + [Listing(dir, depth)]);
      assert TraceOk(asked);
      if dir in store {
        UnlistedShrinks(store, w.visited, dir);
        ScanItemsListOnce(store, store[dir], depth, maxDepth, asked);
      }
    }
  }

  lemma {:induction false} StepListsOnce(store: Store, it: Entry, depth: nat, maxDepth: int, w: Walk)
    requires TraceOk(w)
    ensures var r := Step(store, it, depth, maxDepth, w);
            TraceOk(r) && ListedOutside(r.listed, |w.listed|, w.visited)
    decreases Unlisted(store, w.visited), 1, 0
  {
    if !IsAudio(it) && it.kind == DirectoryKind {
      ScanListsOnce(store, it.filename, depth + 1, maxDepth, w);
    }
  }

  lemma {:induction false} ScanItemsListOnce(store: Store, items: seq<Entry>, depth: nat, maxDepth: int, w: Walk)
    requires TraceOk(w)
    ensures var r := ScanItems(store, items, depth, maxDepth, w);
            TraceOk(r) && ListedOutside(r.listed, |w.listed|, w.visited)
    decreases Unlisted(store, w.visited), 2, |items|
  {
    if items != [] {
      var next := Step(store, items[0], depth, maxDepth, w);
      StepListsOnce(store, items[0], depth, maxDepth, w);
      UnlistedMonotone(store, w.visited, next.visited);
      ScanItemsListOnce(store, items[1..], depth, maxDepth, next);
    }
  }

  /** Over all roots of one search, with one shared visited set, no
      directory is listed twice either. */
  lemma {:induction false} ScanRootsListOnce(store: Store, roots: seq<Path>, maxDepth: int, w: Walk)
    requires TraceOk(w)
    ensures var r := ScanRoots(store, roots, maxDepth, w);
            TraceOk(r) && ListedOutside(r.listed, |w.listed|, w.visited)
  {
    if roots != [] {
      var w1 := Scan(store, roots[0], 0, maxDepth, w);
      ScanListsOnce(store, roots[0], 0, maxDepth, w);
      ScanRootsListOnce(store, roots[1..], maxDepth, w1);
      var r := ScanRoots(store, roots[1..], maxDepth, w1);
      forall i | |w.listed| <= i < |r.listed|
        ensures r.listed[i].dir !in w.visited
      {
        if i < |w1.listed| {
          assert r.listed[i] == w1.listed[i];
        }
      }
    }
  }

  // ---------------------------------------------------------------------
  // The depth policy
  // ---------------------------------------------------------------------

  /** The listings from index `from` on pass the depth gate and lie deeper
      than `above`. */
  predicate ListedBelow(ls: seq<Listing>, from: nat, above: int, maxDepth: int)
  {
    forall i :: from <= i < |ls| ==> WithinDepth(ls[i].depth, maxDepth) && above < ls[i].depth
  }

  /** Every directory the walk from `dir` lists passes the depth gate and lies
      at `depth` or deeper; the only one at `depth` itself is `dir`, listed
      first. */
  lemma {:induction false} ScanDepths(store: Store, dir: Path, depth: nat, maxDepth: int, w: Walk)
    ensures var r := Scan(store, dir, depth, maxDepth, w);
            || r.listed == w.listed
            || (&& |w.listed| < |r.listed|
                && r.listed[|w.listed|] == Listing(dir, depth)
                && WithinDepth(depth, maxDepth)
                && ListedBelow(r.listed, |w.listed| + 1, depth, maxDepth))
    decreases Unlisted(store, w.visited), 0, 0
  {
    if dir !in w.visited && WithinDepth(depth, maxDepth) && dir in store {
      var marked := w.(visited := w.visited + {dir});
      var asked := marked.(listed := marked.listed + [Listing(dir, depth)]);
      UnlistedShrinks(store, w.visited, dir);
      ScanItemsDepths(store, store[dir], depth, maxDepth, asked);
    }
  }

  /** A subdirectory of a listing at `depth` is crawled at `depth + 1`:
      if its walk lists anything, it lists the subdirectory first, at that
      depth; and everything it lists lies deeper than `depth`. */
  lemma {:induction false} StepDepths(store: Store, it: Entry, depth: nat, maxDepth: int, w: Walk)
    ensures ListedBelow(Step(store, it, depth, maxDepth, w).listed, |w.listed|, depth, maxDepth)
    ensures !IsAudio(it) && it.kind == DirectoryKind ==>
              var r := Step(store, it, depth, maxDepth, w);
              r.listed == w.listed || r.listed[|w.listed|] == Listing(it.filename, depth + 1)
    decreases Unlisted(store, w.visited), 1, 0
  {
    if !IsAudio(it) && it.kind == DirectoryKind {
      ScanDepths(store, it.filename, depth + 1, maxDepth, w);
    }
  }

  /** The subdirectories of a listing at `depth` are listed, if at all, at
      `depth + 1` or deeper, and within the gate. */
  lemma {:induction false} ScanItemsDepths(store: Store, items: seq<Entry>, depth: nat, maxDepth: int, w: Walk)
    ensures ListedBelow(ScanItems(store, items, depth, maxDepth, w).listed, |w.listed|, depth, maxDepth)
    decreases Unlisted(store, w.visited), 2, |items|
  {
    if items != [] {
      var next := Step(store, items[0], depth, maxDepth, w);
      StepDepths(store, items[0], depth, maxDepth, w);
      UnlistedMonotone(store, w.visited, next.visited);
      ScanItemsDepths(store, items[1..], depth, maxDepth, next);
      var r := ScanItems(store, items[1..], depth, maxDepth, next);
      forall i | |w.listed| <= i < |r.listed|
        ensures WithinDepth(r.listed[i].depth, maxDepth) && depth < r.listed[i].depth
      {
        if i < |next.listed| {
          assert r.listed[i] == next.listed[i];
        }
      }
    }
  }

  /** The listings from index `from` on pass the depth gate, and those at
      depth 0 are of roots. */
  predicate ListedFromRoots(ls: seq<Listing>, from: nat, roots: seq<Path>, maxDepth: int)
  {
    forall i :: from <= i < |ls| ==>
      && WithinDepth(ls[i].depth, maxDepth)
      && (ls[i].depth == 0 ==> ls[i].dir in roots)
  }

  /** Over the roots of a search: every listing passes the gate, and a
      listing at depth 0 is one of the roots. */
  lemma {:induction false} ScanRootsDepths(store: Store, roots: seq<Path>, maxDepth: int, w: Walk)
    ensures ListedFromRoots(ScanRoots(store, roots, maxDepth, w).listed, |w.listed|, roots, maxDepth)
  {
    if roots != [] {
      var w1 := Scan(store, roots[0], 0, maxDepth, w);
      ScanDepths(store, roots[0], 0, maxDepth, w);
      ScanRootsDepths(store, roots[1..], maxDepth, w1);
      var r := ScanRoots(store, roots[1..], maxDepth, w1);
      forall i | |w.listed| <= i < |r.listed|
        ensures WithinDepth(r.listed[i].depth, maxDepth)
        ensures r.listed[i].depth == 0 ==> r.listed[i].dir in roots
      {
        if i < |w1.listed| {
          assert r.listed[i] == w1.listed[i];
        } else {
          assert r.listed[i].depth == 0 ==> r.listed[i].dir in roots[1..];
        }
      }
    }
  }

  /** With a depth limit of 0, a search lists nothing but its roots. */
  lemma ScanRootsDepthZero(store: Store, roots: seq<Path>, w: Walk)
    ensures var r := ScanRoots(store, roots, 0, w);
            forall i :: |w.listed| <= i < |r.listed| ==> r.listed[i].depth == 0 && r.listed[i].dir in roots
  {
    ScanRootsDepths(store, roots, 0, w);
  }

  // ---------------------------------------------------------------------
  // Depth is the length of a chain from a root
  // ---------------------------------------------------------------------

  /** `d` ends a chain of `k + 1` directories, each a subdirectory of the
      one before, that starts at one of `roots`. */
  ghost predicate RootedAt(store: Store, roots: seq<Path>, d: Path, k: nat)
  {
    exists p :: IsChain(store, p) && |p| == k + 1 && p[0] in roots && p[k] == d
  }

  /** Each listing from index `from` on is of a directory that ends a chain
      from a root as long as its depth says. */
  ghost predicate ListedRooted(store: Store, roots: seq<Path>, ls: seq<Listing>, from: nat)
  {
    forall i :: from <= i < |ls| ==> RootedAt(store, roots, ls[i].dir, ls[i].depth)
  }

  /** A chain to `d` extends by one to each subdirectory of `d`. */
  lemma RootedChild(store: Store, roots: seq<Path>, d: Path, k: nat, child: Path)
    requires RootedAt(store, roots, d, k) && child in ChildDirs(store, d)
    ensures RootedAt(store, roots, child, k + 1)
  {
    var p :| IsChain(store, p) && |p| == k + 1 && p[0] in roots && p[k] == d;
    var q := p + [child];
    assert forall i :: 0 <= i < |p| ==> q[i] == p[i];
    assert IsChain(store, q);
  }

  /** A walk started at a directory that ends a chain of `depth + 1` lists
      only directories ending chains as long as their depths. */
  lemma {:induction false} ScanRooted(store: Store, roots: seq<Path>, dir: Path, depth: nat, maxDepth: int, w: Walk)
    requires RootedAt(store, roots, dir, depth)
    ensures ListedRooted(store, roots, Scan(store, dir, depth, maxDepth, w).listed, |w.listed|)
    decreases Unlisted(store, w.visited), 0, 0
  {
    if dir !in w.visited && WithinDepth(depth, maxDepth) && dir in store {
      var asked := Walk(w.visited + {dir}, w.found, w.listed + [Listing(dir, depth)]);
      ScanListed(store, dir, depth, maxDepth, w);
      UnlistedShrinks(store, w.visited, dir);
      ScanItemsRooted(store, roots, dir, store[dir], depth, maxDepth, asked);
      var r := ScanItems(store, store[dir], depth, maxDepth, asked);
      assert r.listed[|w.listed|] == asked.listed[|w.listed|];
    }
  }

  lemma {:induction false} StepRooted(store: Store, roots: seq<Path>, dir: Path, it: Entry, depth: nat, maxDepth: int, w: Walk)
    requires RootedAt(store, roots, dir, depth) && dir in store && it in store[dir]
    ensures ListedRooted(store, roots, Step(store, it, depth, maxDepth, w).listed, |w.listed|)
    decreases Unlisted(store, w.visited), 1, 0
  {
    if !IsAudio(it) && it.kind == DirectoryKind {
      assert it.filename in ChildDirs(store, dir);
      RootedChild(store, roots, dir, depth, it.filename);
      ScanRooted(store, roots, it.filename, depth + 1, maxDepth, w);
    }
  }

  lemma {:induction false} ScanItemsRooted(store: Store, roots: seq<Path>, dir: Path, items: seq<Entry>, depth: nat, maxDepth: int, w: Walk)
    requires RootedAt(store, roots, dir, depth) && dir in store
    requires forall k :: 0 <= k < |items| ==> items[k] in store[dir]
    ensures ListedRooted(store, roots, ScanItems(store, items, depth, maxDepth, w).listed, |w.listed|)
    decreases Unlisted(store, w.visited), 2, |items|
  {
    if items != [] {
      var next := Step(store, items[0], depth, maxDepth, w);
      StepRooted(store, roots, dir, items[0], depth, maxDepth, w);
      UnlistedMonotone(store, w.visited, next.visited);
      ScanItemsRooted(store, roots, dir, items[1..], depth, maxDepth, next);
      var r := ScanItems(store, items[1..], depth, maxDepth, next);
      forall i | |w.listed| <= i < |r.listed|
        ensures RootedAt(store, roots, r.listed[i].dir, r.listed[i].depth)
      {
        if i < |next.listed| {
          assert r.listed[i] == next.listed[i];
        }
      }
    }
  }

  /** The roots of a search, walked in order from depth 0, list only
      directories that end a chain from one of `all` of exactly their depth
      plus one. */
  lemma {:induction false} ScanRootsRooted(store: Store, all: seq<Path>, roots: seq<Path>, maxDepth: int, w: Walk)
    requires forall k :: 0 <= k < |roots| ==> roots[k] in all
    ensures ListedRooted(store, all, ScanRoots(store, roots, maxDepth, w).listed, |w.listed|)
  {
    if roots != [] {
      var w1 := Scan(store, roots[0], 0, maxDepth, w);
      assert IsChain(store, [roots[0]]) && [roots[0]][0] in all;
      ScanRooted(store, all, roots[0], 0, maxDepth, w);
      ScanRootsRooted(store, all, roots[1..], maxDepth, w1);
      var r := ScanRoots(store, roots[1..], maxDepth, w1);
      forall i | |w.listed| <= i < |r.listed|
        ensures RootedAt(store, all, r.listed[i].dir, r.listed[i].depth)
      {
        if i < |w1.listed| {
          assert r.listed[i] == w1.listed[i];
        }
      }
    }
  }

  /** A search lists each directory at the length of a chain of
      subdirectories from a root to it: roots at 0, and each subdirectory
      one below the directory that named it. */
  lemma SearchDepthIsChainLength(store: Store, roots: seq<Path>, maxDepth: int)
    ensures ListedRooted(store, roots, ScanRoots(store, roots, maxDepth, Walk({}, [], [])).listed, 0)
  {
    ScanRootsRooted(store, roots, roots, maxDepth, Walk({}, [], []));
  }

  /** With a depth limit, a directory that every chain from a root reaches
      only in more than `maxDepth + 1` steps is never listed. */
  lemma TooDeepNeverListed(store: Store, roots: seq<Path>, maxDepth: int, d: Path)
    requires maxDepth >= 0
    requires forall p :: IsChain(store, p) && 0 < |p| && p[0] in roots && p[|p| - 1] == d ==> |p| > maxDepth + 1
    ensures d !in ListedDirs(ScanRoots(store, roots, maxDepth, Walk({}, [], [])).listed, 0)
  {
    var r := ScanRoots(store, roots, maxDepth, Walk({}, [], []));
    SearchDepthIsChainLength(store, roots, maxDepth);
    ScanRootsDepths(store, roots, maxDepth, Walk({}, [], []));
    forall i | 0 <= i < |r.listed|
      ensures r.listed[i].dir != d
    {
      var k := r.listed[i].depth;
      var p :| IsChain(store, p) && |p| == k + 1 && p[0] in roots && p[k] == r.listed[i].dir;
    }
  }

  // ---------------------------------------------------------------------
  // What the walk collects
  // ---------------------------------------------------------------------

  /** The audio entries of a listing, in listing order. */
  function AudioEntries(items: seq<Entry>): (a: seq<Entry>)
    ensures forall i :: 0 <= i < |a| ==> IsAudio(a[i]) && a[i] in items
  {
    if items == [] then []
    else (if IsAudio(items[0]) then [items[0]] else []) + AudioEntries(items[1..])
  }

  /** The audio entries of a sequence of listings; a listing that failed
      contributes nothing. */
  function AudioOf(store: Store, ls: seq<Listing>): seq<Entry>
  {
    if ls == [] then []
    else (if ls[0].dir in store then AudioEntries(store[ls[0].dir]) else []) + AudioOf(store, ls[1..])
  }

  lemma {:induction false} AudioOfAppend(store: Store, a: seq<Listing>, b: seq<Listing>)
    ensures AudioOf(store, a + b) == AudioOf(store, a) + AudioOf(store, b)
  {
    if a == [] {
      assert a + b == b;
    } else {
      assert (a + b)[0] == a[0];
      assert (a + b)[1..] == a[1..] + b;
      AudioOfAppend(store, a[1..], b);
    }
  }

  lemma {:induction false} AudioEntriesAppend(a: seq<Entry>, b: seq<Entry>)
    ensures AudioEntries(a + b) == AudioEntries(a) + AudioEntries(b)
  {
    if a == [] {
      assert a + b == b;
    } else {
      var head := if IsAudio(a[0]) then [a[0]] else [];
      assert (a + b)[0] == a[0];
      assert (a + b)[1..] == a[1..] + b;
      assert AudioEntries(a + b) == head + AudioEntries(a[1..] + b);
      AudioEntriesAppend(a[1..], b);
      assert head + (AudioEntries(a[1..]) + AudioEntries(b)) == (head + AudioEntries(a[1..])) + AudioEntries(b);
    }
  }

  lemma FindsJoin(store: Store, found1: seq<Entry>, found2: seq<Entry>, items1: seq<Entry>, items2: seq<Entry>,
                  listed1: seq<Listing>, listed2: seq<Listing>)
    requires multiset(found1) == multiset(AudioEntries(items1)) + multiset(AudioOf(store, listed1))
    requires multiset(found2) == multiset(AudioEntries(items2)) + multiset(AudioOf(store, listed2))
    ensures multiset(found1 + found2)
      == multiset(AudioEntries(items1 + items2)) + multiset(AudioOf(store, listed1 + listed2))
  {
    AudioEntriesAppend(items1, items2);
    AudioOfAppend(store, listed1, listed2);
  }

  lemma FindsCons(store: Store, items: seq<Entry>, f0: seq<Entry>, f1: seq<Entry>, f2: seq<Entry>,
                  l0: seq<Listing>, l1: seq<Listing>, l2: seq<Listing>)
    requires items != []
    requires f0 <= f1 <= f2 && l0 <= l1 <= l2
    requires multiset(f1[|f0|..]) == multiset(AudioEntries([items[0]])) + multiset(AudioOf(store, l1[|l0|..]))
    requires multiset(f2[|f1|..]) == multiset(AudioEntries(items[1..])) + multiset(AudioOf(store, l2[|l1|..]))
    ensures multiset(f2[|f0|..]) == multiset(AudioEntries(items)) + multiset(AudioOf(store, l2[|l0|..]))
  {
    SliceSplit(f0, f1, f2);
    SliceSplit(l0, l1, l2);
    assert [items[0]] + items[1..] == items;
    FindsJoin(store, f1[|f0|..], f2[|f1|..], [items[0]], items[1..], l1[|l0|..], l2[|l1|..]);
  }

  /** What the walk adds to the result is, up to order, exactly the audio
      entries of the listings it requests: nothing else, nothing twice, and
      a failed listing adds nothing. */
  lemma {:induction false} ScanFinds(store: Store, dir: Path, depth: nat, maxDepth: int, w: Walk)
    ensures var r := Scan(store, dir, depth, maxDepth, w);
            multiset(r.found[|w.found|..]) == multiset(AudioOf(store, r.listed[|w.listed|..]))
    decreases Unlisted(store, w.visited), 0, 0
  {
    var r := Scan(store, dir, depth, maxDepth, w);
    if dir !in w.visited && WithinDepth(depth, maxDepth) {
      var marked := w.(visited := w.visited + {dir});
      var asked := marked.(listed := marked.listed + [Listing(dir, depth)]);
      assert r.listed[|w.listed|..] == [Listing(dir, depth)] + r.listed[|asked.listed|..];
      AudioOfAppend(store, [Listing(dir, depth)], r.listed[|asked.listed|..]);
      if dir in store {
        UnlistedShrinks(store, w.visited, dir);
        ScanItemsFinds(store, store[dir], depth, maxDepth, asked);
      } else {
        assert r.listed[|asked.listed|..] == [];
      }
    }
  }

  lemma {:induction false} StepFinds(store: Store, it: Entry, depth: nat, maxDepth: int, w: Walk)
    ensures var r := Step(store, it, depth, maxDepth, w);
            multiset(r.found[|w.found|..])
              == multiset(AudioEntries([it])) + multiset(AudioOf(store, r.listed[|w.listed|..]))
    decreases Unlisted(store, w.visited), 1, 0
  {
    var r := Step(store, it, depth, maxDepth, w);
    assert AudioEntries([it]) == if IsAudio(it) then [it] else [] by {
      assert [it][1..] == [];
    }
    if IsAudio(it) {
      assert r.found[|w.found|..] == [it] && r.listed[|w.listed|..] == [];
    } else if it.kind == DirectoryKind {
      ScanFinds(store, it.filename, depth + 1, maxDepth, w);
    } else {
      assert r.found[|w.found|..] == [] && r.listed[|w.listed|..] == [];
    }
  }

  /** The loop over one listing adds the listing's own audio entries and
      those of the listings it requests. */
  lemma {:induction false} ScanItemsFinds(store: Store, items: seq<Entry>, depth: nat, maxDepth: int, w: Walk)
    ensures var r := ScanItems(store, items, depth, maxDepth, w);
            multiset(r.found[|w.found|..])
              == multiset(AudioEntries(items)) + multiset(AudioOf(store, r.listed[|w.listed|..]))
    decreases Unlisted(store, w.visited), 2, |items|
  {
    if items != [] {
      var next := Step(store, items[0], depth, maxDepth, w);
      var r := ScanItems(store, items[1..], depth, maxDepth, next);
      assert ScanItems(store, items, depth, maxDepth, w) == r;
      StepFinds(store, items[0], depth, maxDepth, w);
      UnlistedMonotone(store, w.visited, next.visited);
      ScanItemsFinds(store, items[1..], depth, maxDepth, next);
      FindsCons(store, items, w.found, next.found, r.found, w.listed, next.listed, r.listed);
    }
  }

  /** Over the roots of a search: the result gains, up to order, exactly the
      audio entries of the listings requested. */
  lemma {:induction false} ScanRootsFinds(store: Store, roots: seq<Path>, maxDepth: int, w: Walk)
    ensures var r := ScanRoots(store, roots, maxDepth, w);
            multiset(r.found[|w.found|..]) == multiset(AudioOf(store, r.listed[|w.listed|..]))
  {
    if roots != [] {
      var w1 := Scan(store, roots[0], 0, maxDepth, w);
      var r := ScanRoots(store, roots[1..], maxDepth, w1);
      ScanFinds(store, roots[0], 0, maxDepth, w);
      ScanRootsFinds(store, roots[1..], maxDepth, w1);
      SliceSplit(w.found, w1.found, r.found);
      SliceSplit(w.listed, w1.listed, r.listed);
      AudioOfAppend(store, w1.listed[|w.listed|..], r.listed[|w1.listed|..]);
    }
  }

  // ---------------------------------------------------------------------
  // What the walk reaches
  // ---------------------------------------------------------------------

  /** The paths of the subdirectory entries of a listing. */
  function DirsOf(items: seq<Entry>): set<Path>
  {
    set e | e in items && e.kind == DirectoryKind :: e.filename
  }

  /** The subdirectories a listing of `d` names; none when it fails. */
  function ChildDirs(store: Store, d: Path): set<Path>
  {
    if d in store then DirsOf(store[d]) else {}
  }

  /** The directories of the listings from index `from` on. */
  function ListedDirs(ls: seq<Listing>, from: nat): set<Path>
  {
    set i | from <= i < |ls| :: ls[i].dir
  }

  /** The subdirectories named by the listings from index `from` on are all
      in `visited`. */
  predicate ChildrenVisited(store: Store, ls: seq<Listing>, from: nat, visited: set<Path>)
  {
    forall i :: from <= i < |ls| ==> ChildDirs(store, ls[i].dir) <= visited
  }

  /** The facts a walk from `w` to `r` establishes about what it reached:
      every subdirectory of a listing it requested was visited, and with no
      depth limit every directory it newly visited was listed. */
  predicate Reached(store: Store, maxDepth: int, w: Walk, r: Walk)
  {
    && w.listed <= r.listed
    && ChildrenVisited(store, r.listed, |w.listed|, r.visited)
    && (maxDepth < 0 ==> r.visited - w.visited == ListedDirs(r.listed, |w.listed|))
  }

  /** Two walks, one after the other, reach what both reach. */
  lemma ReachedChain(store: Store, maxDepth: int, w: Walk, m: Walk, r: Walk)
    requires w.visited <= m.visited <= r.visited
    requires Reached(store, maxDepth, w, m) && Reached(store, maxDepth, m, r)
    ensures Reached(store, maxDepth, w, r)
  {
    forall i | |w.listed| <= i < |r.listed|
      ensures ChildDirs(store, r.listed[i].dir) <= r.visited
    {
      if i < |m.listed| {
        assert r.listed[i] == m.listed[i];
      }
    }
    if maxDepth < 0 {
      assert ListedDirs(r.listed, |w.listed|) == ListedDirs(m.listed, |w.listed|) + ListedDirs(r.listed, |m.listed|) by {
        forall d | d in ListedDirs(r.listed, |w.listed|)
          ensures d in ListedDirs(m.listed, |w.listed|) + ListedDirs(r.listed, |m.listed|)
        {
          var i :| |w.listed| <= i < |r.listed| && r.listed[i].dir == d;
          if i < |m.listed| {
            assert m.listed[i] == r.listed[i];
          }
        }
        forall d | d in ListedDirs(m.listed, |w.listed|)
          ensures d in ListedDirs(r.listed, |w.listed|)
        {
          var i :| |w.listed| <= i < |m.listed| && m.listed[i].dir == d;
          assert r.listed[i] == m.listed[i];
        }
      }
    }
  }

  /** Listing `dir` and then looping over its listing reaches what the loop
      reaches, once the loop has visited the subdirectories of `dir`. */
  lemma ReachedAfterListing(store: Store, maxDepth: int, w: Walk, dir: Path, depth: nat, asked: Walk, r: Walk)
    requires dir !in w.visited
    requires asked == Walk(w.visited + {dir}, w.found, w.listed + [Listing(dir, depth)])
    requires asked.visited <= r.visited && Reached(store, maxDepth, asked, r)
    requires ChildDirs(store, dir) <= r.visited
    ensures Reached(store, maxDepth, w, r)
  {
    assert r.listed[|w.listed|] == Listing(dir, depth);
    forall i | |w.listed| <= i < |r.listed|
      ensures ChildDirs(store, r.listed[i].dir) <= r.visited
    {
    }
    if maxDepth < 0 {
      assert ListedDirs(r.listed, |w.listed|) == {dir} + ListedDirs(r.listed, |asked.listed|) by {
        forall d | d in ListedDirs(r.listed, |w.listed|)
          ensures d in {dir} + ListedDirs(r.listed, |asked.listed|)
        {
          var i :| |w.listed| <= i < |r.listed| && r.listed[i].dir == d;
          if i == |w.listed| {
            assert d == dir;
          }
        }
      }
    }
  }

  /** The walk from `dir` visits every subdirectory of every listing it
      requests, and with no depth limit lists every directory it visits. */
  lemma {:induction false} ScanReaches(store: Store, dir: Path, depth: nat, maxDepth: int, w: Walk)
    ensures Reached(store, maxDepth, w, Scan(store, dir, depth, maxDepth, w))
    decreases Unlisted(store, w.visited), 0, 0
  {
    if dir !in w.visited && WithinDepth(depth, maxDepth) {
      var asked := Walk(w.visited + {dir}, w.found, w.listed + [Listing(dir, depth)]);
      var r := Scan(store, dir, depth, maxDepth, w);
      if dir in store {
        UnlistedShrinks(store, w.visited, dir);
        ScanListed(store, dir, depth, maxDepth, w);
        ScanItemsReaches(store, store[dir], depth, maxDepth, asked);
      } else {
        assert r == asked;
        assert ListedDirs(asked.listed, |asked.listed|) == {};
      }
      ReachedAfterListing(store, maxDepth, w, dir, depth, asked, r);
    }
  }

  lemma {:induction false} StepReaches(store: Store, it: Entry, depth: nat, maxDepth: int, w: Walk)
    ensures var r := Step(store, it, depth, maxDepth, w);
            && Reached(store, maxDepth, w, r)
            && (it.kind == DirectoryKind ==> it.filename in r.visited)
    decreases Unlisted(store, w.visited), 1, 0
  {
    if !IsAudio(it) && it.kind == DirectoryKind {
      ScanReaches(store, it.filename, depth + 1, maxDepth, w);
    }
  }

  /** The loop over one listing visits each subdirectory it names. */
  lemma {:induction false} ScanItemsReaches(store: Store, items: seq<Entry>, depth: nat, maxDepth: int, w: Walk)
    ensures var r := ScanItems(store, items, depth, maxDepth, w);
            Reached(store, maxDepth, w, r) && DirsOf(items) <= r.visited
    decreases Unlisted(store, w.visited), 2, |items|
  {
    var r := ScanItems(store, items, depth, maxDepth, w);
    if items == [] {
      assert ListedDirs(r.listed, |w.listed|) == {};
    } else {
      var next := Step(store, items[0], depth, maxDepth, w);
      StepReaches(store, items[0], depth, maxDepth, w);
      UnlistedMonotone(store, w.visited, next.visited);
      ScanItemsReaches(store, items[1..], depth, maxDepth, next);
      ReachedChain(store, maxDepth, w, next, r);
      forall d | d in DirsOf(items)
        ensures d in r.visited
      {
        var e :| e in items && e.kind == DirectoryKind && e.filename == d;
        if e != items[0] {
          assert e in items[1..];
        }
      }
    }
  }

  /** A search visits every root, visits every subdirectory of every listing
      it requests, and with no depth limit lists every directory it visits. */
  lemma {:induction false} ScanRootsReaches(store: Store, roots: seq<Path>, maxDepth: int, w: Walk)
    ensures var r := ScanRoots(store, roots, maxDepth, w);
            && Reached(store, maxDepth, w, r)
            && forall k :: 0 <= k < |roots| ==> roots[k] in r.visited
  {
    var r := ScanRoots(store, roots, maxDepth, w);
    if roots == [] {
      assert ListedDirs(r.listed, |w.listed|) == {};
    } else {
      var w1 := Scan(store, roots[0], 0, maxDepth, w);
      ScanReaches(store, roots[0], 0, maxDepth, w);
      ScanRootsReaches(store, roots[1..], maxDepth, w1);
      ReachedChain(store, maxDepth, w, w1, r);
      forall k | 0 <= k < |roots|
        ensures roots[k] in r.visited
      {
        if k > 0 {
          assert roots[k] == roots[1..][k - 1];
        }
      }
    }
  }

  /** `p` is a chain of directories, each named as a subdirectory in the
      listing of the one before it. */
  predicate IsChain(store: Store, p: seq<Path>)
  {
    forall i :: 0 <= i < |p| - 1 ==> p[i + 1] in ChildDirs(store, p[i])
  }

  lemma {:induction false} ChainStaysInside(store: Store, p: seq<Path>, inside: set<Path>)
    requires IsChain(store, p) && |p| > 0 && p[0] in inside
    requires forall d :: d in inside ==> ChildDirs(store, d) <= inside
    ensures p[|p| - 1] in inside
  {
    if |p| > 1 {
      assert IsChain(store, p[..|p| - 1]);
      ChainStaysInside(store, p[..|p| - 1], inside);
      assert p[|p| - 1] in ChildDirs(store, p[|p| - 2]);
    }
  }

  /** With no depth limit, a search that starts afresh lists every directory
      reachable from one of its roots, however the server's directories
      link to each other. */
  lemma UnlimitedSearchReachesAll(store: Store, roots: seq<Path>, maxDepth: int, p: seq<Path>)
    requires maxDepth < 0
    requires IsChain(store, p) && |p| > 0 && p[0] in roots
    ensures p[|p| - 1] in ListedDirs(ScanRoots(store, roots, maxDepth, Walk({}, [], [])).listed, 0)
  {
    var w := Walk({}, [], []);
    var r := ScanRoots(store, roots, maxDepth, w);
    ScanRootsReaches(store, roots, maxDepth, w);
    assert r.visited == ListedDirs(r.listed, 0);
    forall d | d in r.visited
      ensures ChildDirs(store, d) <= r.visited
    {
      var i :| 0 <= i < |r.listed| && r.listed[i].dir == d;
    }
    var k :| 0 <= k < |roots| && roots[k] == p[0];
    ChainStaysInside(store, p, r.visited);
  }

  // ---------------------------------------------------------------------
  // Only the depth gate leaves a directory unlisted
  // ---------------------------------------------------------------------

  /** Some listing in `ls` is at the depth limit itself and names `d` as a
      subdirectory, so the crawl of `d` from there is one level too deep. */
  ghost predicate Gated(store: Store, ls: seq<Listing>, maxDepth: int, d: Path)
  {
    exists i :: 0 <= i < |ls| && ls[i].depth == maxDepth && d in ChildDirs(store, ls[i].dir)
  }

  lemma GatedGrows(store: Store, ls: seq<Listing>, ls': seq<Listing>, maxDepth: int, d: Path)
    requires ls <= ls' && Gated(store, ls, maxDepth, d)
    ensures Gated(store, ls', maxDepth, d)
  {
    var i :| 0 <= i < |ls| && ls[i].depth == maxDepth && d in ChildDirs(store, ls[i].dir);
    assert ls'[i] == ls[i];
  }

  /** A directory listed in `ls` from `from` on is listed in any longer
      trace from the same index. */
  lemma ListedDirsPrefix(ls: seq<Listing>, ls': seq<Listing>, from: nat)
    requires ls <= ls'
    ensures ListedDirs(ls, from) <= ListedDirs(ls', from)
  {
    forall d | d in ListedDirs(ls, from)
      ensures d in ListedDirs(ls', from)
    {
      var i :| from <= i < |ls| && ls[i].dir == d;
      assert ls'[i] == ls[i];
    }
  }

  lemma ListedDirsSuffix(ls: seq<Listing>, from: nat, from': nat)
    requires from' <= from
    ensures ListedDirs(ls, from) <= ListedDirs(ls, from')
  {
  }

  /** Every directory a call newly visits but does not list is either `dir`
      itself, turned away by the gate, or a subdirectory that a listing at
      the limit names. */
  lemma {:induction false} ScanGated(store: Store, dir: Path, depth: nat, maxDepth: int, w: Walk)
    requires maxDepth >= 0
    ensures var r := Scan(store, dir, depth, maxDepth, w);
            forall d :: d in r.visited && d !in w.visited && d !in ListedDirs(r.listed, |w.listed|) ==>
              (d == dir && depth > maxDepth) || Gated(store, r.listed, maxDepth, d)
    decreases Unlisted(store, w.visited), 0, 0
  {
    var r := Scan(store, dir, depth, maxDepth, w);
    if dir !in w.visited && WithinDepth(depth, maxDepth) {
      var asked := Walk(w.visited + {dir}, w.found, w.listed + [Listing(dir, depth)]);
      assert asked.listed[|w.listed|].dir == dir;
      assert dir in ListedDirs(asked.listed, |w.listed|);
      if dir in store {
        ScanListed(store, dir, depth, maxDepth, w);
        UnlistedShrinks(store, w.visited, dir);
        ScanItemsGated(store, dir, |w.listed|, store[dir], depth, maxDepth, asked);
        ListedDirsPrefix(asked.listed, r.listed, |w.listed|);
        ListedDirsSuffix(r.listed, |asked.listed|, |w.listed|);
      }
    }
  }

  /** One turn of the loop over the listing of `parent`, at index `pi` of
      the trace and within the limit: whatever it newly visits without
      listing is gated. */
  lemma {:induction false} StepGated(store: Store, parent: Path, pi: nat, it: Entry, depth: nat, maxDepth: int, w: Walk)
    requires maxDepth >= 0 && WithinDepth(depth, maxDepth)
    requires pi < |w.listed| && w.listed[pi] == Listing(parent, depth)
    requires parent in store && it in store[parent]
    ensures var r := Step(store, it, depth, maxDepth, w);
            forall d :: d in r.visited && d !in w.visited && d !in ListedDirs(r.listed, |w.listed|) ==>
              Gated(store, r.listed, maxDepth, d)
    decreases Unlisted(store, w.visited), 1, 0
  {
    if !IsAudio(it) && it.kind == DirectoryKind {
      var r := Scan(store, it.filename, depth + 1, maxDepth, w);
      ScanGated(store, it.filename, depth + 1, maxDepth, w);
      assert it.filename in ChildDirs(store, parent);
      assert r.listed[pi] == w.listed[pi];
    }
  }

  lemma {:induction false} ScanItemsGated(store: Store, parent: Path, pi: nat, items: seq<Entry>, depth: nat, maxDepth: int, w: Walk)
    requires maxDepth >= 0 && WithinDepth(depth, maxDepth)
    requires pi < |w.listed| && w.listed[pi] == Listing(parent, depth)
    requires parent in store && forall k :: 0 <= k < |items| ==> items[k] in store[parent]
    ensures var r := ScanItems(store, items, depth, maxDepth, w);
            forall d :: d in r.visited && d !in w.visited && d !in ListedDirs(r.listed, |w.listed|) ==>
              Gated(store, r.listed, maxDepth, d)
    decreases Unlisted(store, w.visited), 2, |items|
  {
    if items != [] {
      var next := Step(store, items[0], depth, maxDepth, w);
      StepGated(store, parent, pi, items[0], depth, maxDepth, w);
      UnlistedMonotone(store, w.visited, next.visited);
      assert next.listed[pi] == w.listed[pi];
      ScanItemsGated(store, parent, pi, items[1..], depth, maxDepth, next);
      var r := ScanItems(store, items[1..], depth, maxDepth, next);
      ListedDirsPrefix(next.listed, r.listed, |w.listed|);
      ListedDirsSuffix(r.listed, |next.listed|, |w.listed|);
      forall d | d in r.visited && d !in w.visited && d !in ListedDirs(r.listed, |w.listed|)
        ensures Gated(store, r.listed, maxDepth, d)
      {
        if d in next.visited {
          GatedGrows(store, next.listed, r.listed, maxDepth, d);
        }
      }
    }
  }

  /** Over the roots of a search: every directory newly visited but not
      listed is gated. */
  lemma {:induction false} ScanRootsGated(store: Store, roots: seq<Path>, maxDepth: int, w: Walk)
    requires maxDepth >= 0
    ensures var r := ScanRoots(store, roots, maxDepth, w);
            forall d :: d in r.visited && d !in w.visited && d !in ListedDirs(r.listed, |w.listed|) ==>
              Gated(store, r.listed, maxDepth, d)
  {
    if roots != [] {
      var w1 := Scan(store, roots[0], 0, maxDepth, w);
      ScanGated(store, roots[0], 0, maxDepth, w);
      ScanRootsGated(store, roots[1..], maxDepth, w1);
      var r := ScanRoots(store, roots[1..], maxDepth, w1);
      ListedDirsPrefix(w1.listed, r.listed, |w.listed|);
      ListedDirsSuffix(r.listed, |w1.listed|, |w.listed|);
      forall d | d in r.visited && d !in w.visited && d !in ListedDirs(r.listed, |w.listed|)
        ensures Gated(store, r.listed, maxDepth, d)
      {
        if d in w1.visited {
          GatedGrows(store, w1.listed, r.listed, maxDepth, d);
        }
      }
    }
  }

  /** The visited set is shared by all roots and a directory is marked
      before the gate, so a root lying under an earlier root can be skipped:
      with roots `/` and `/a`, `/a` a subdirectory of `/` holding one audio
      file, and a limit of 0, the walk from `/` marks `/a` without listing
      it, the walk from `/a` stops at the visited check, and the audio file
      is never found. */
  lemma NestedRootSkipped()
    ensures var song := Entry("/a/x.mp3", "x.mp3", FileKind, Some("audio/mpeg"));
            var sub := Entry("/a", "a", DirectoryKind, None);
            var store: Store := map["/" := [sub], "/a" := [song]];
            var r := ScanRoots(store, ["/", "/a"], 0, Walk({}, [], []));
            && "/a" in ChildDirs(store, "/") && IsAudio(song) && song in store["/a"]
            && "/a" in r.visited && r.listed == [Listing("/", 0)] && r.found == []
  {
    var song := Entry("/a/x.mp3", "x.mp3", FileKind, Some("audio/mpeg"));
    var sub := Entry("/a", "a", DirectoryKind, None);
    var store: Store := map["/" := [sub], "/a" := [song]];
    var w0 := Walk({}, [], []);
    var asked := Walk({"/"}, [], [Listing("/", 0)]);
    var marked := Walk({"/", "/a"}, [], [Listing("/", 0)]);
    assert StartsWith("audio/mpeg", "audio");
    assert sub in store["/"];
    ScanListed(store, "/", 0, 0, w0);
    assert store["/"] == [sub];
    assert Walk(w0.visited + {"/"}, w0.found, w0.listed + [Listing("/", 0)]) == asked;
    assert [sub][0] == sub && [sub][1..] == [];
    assert Step(store, sub, 0, 0, asked) == Scan(store, "/a", 1, 0, asked) == marked;
    assert ScanItems(store, [sub], 0, 0, asked) == marked;
    assert Scan(store, "/a", 0, 0, marked) == marked;
    assert ["/", "/a"][0] == "/" && ["/", "/a"][1..] == ["/a"];
    assert Scan(store, "/", 0, 0, w0) == marked;
    assert ScanRoots(store, ["/a"], 0, marked) == marked;
    assert ScanRoots(store, ["/", "/a"], 0, w0) == ScanRoots(store, ["/a"], 0, marked);
  }

  /** With a depth limit, a fresh search lists every subdirectory of every
      directory it lists, unless some listing at the limit itself names that
      subdirectory. On a tree of directories with a single root, or with
      roots none of which lies under another, this means everything down to
      the limit is listed. */
  lemma SearchListsAllWithinLimit(store: Store, roots: seq<Path>, maxDepth: int)
    requires maxDepth >= 0
    ensures var r := ScanRoots(store, roots, maxDepth, Walk({}, [], []));
            forall i, d :: 0 <= i < |r.listed| && d in ChildDirs(store, r.listed[i].dir) ==>
              d in ListedDirs(r.listed, 0) || Gated(store, r.listed, maxDepth, d)
  {
    ScanRootsReaches(store, roots, maxDepth, Walk({}, [], []));
    ScanRootsGated(store, roots, maxDepth, Walk({}, [], []));
  }

  // ---------------------------------------------------------------------
  // Walks that start afresh
  // ---------------------------------------------------------------------

  lemma {:induction false} AudioOfIsAudio(store: Store, ls: seq<Listing>)
    ensures forall e :: e in AudioOf(store, ls) ==> IsAudio(e)
  {
    if ls != [] {
      AudioOfIsAudio(store, ls[1..]);
    }
  }

  /** What a search collects from a fresh visited set and an empty result:
      every directory is listed at most once, every listing passes the depth
      gate and one at depth 0 is a root, and the result holds exactly the
      audio entries of those listings, each as often as they name it. */
  lemma FreshSearch(store: Store, roots: seq<Path>, maxDepth: int)
    ensures var r := ScanRoots(store, roots, maxDepth, Walk({}, [], []));
            && TraceOk(r)
            && ListedFromRoots(r.listed, 0, roots, maxDepth)
            && multiset(r.found) == multiset(AudioOf(store, r.listed))
            && forall e :: e in r.found ==> IsAudio(e)
  {
    var w := Walk({}, [], []);
    var r := ScanRoots(store, roots, maxDepth, w);
    ScanRootsListOnce(store, roots, maxDepth, w);
    ScanRootsDepths(store, roots, maxDepth, w);
    ScanRootsFinds(store, roots, maxDepth, w);
    assert r.found[0..] == r.found && r.listed[0..] == r.listed;
    AudioOfIsAudio(store, r.listed);
    forall e | e in r.found
      ensures IsAudio(e)
    {
      assert e in multiset(AudioOf(store, r.listed));
    }
  }

  /** What one top-level call of the crawler collects from a fresh visited
      set and an empty result: `dir` itself is listed first, at depth 0,
      whatever the limit; every later listing lies deeper and passes the
      gate; no directory is listed twice; and the result holds exactly the
      audio entries of those listings. */
  lemma FreshScan(store: Store, dir: Path, maxDepth: int)
    ensures var r := Scan(store, dir, 0, maxDepth, Walk({}, [], []));
            && |r.listed| > 0 && r.listed[0] == Listing(dir, 0)
            && ListedBelow(r.listed, 1, 0, maxDepth)
            && TraceOk(r)
            && multiset(r.found) == multiset(AudioOf(store, r.listed))
            && forall e :: e in r.found ==> IsAudio(e)
  {
    var w := Walk({}, [], []);
    var r := Scan(store, dir, 0, maxDepth, w);
    ScanDepths(store, dir, 0, maxDepth, w);
    ScanListsOnce(store, dir, 0, maxDepth, w);
    ScanFinds(store, dir, 0, maxDepth, w);
    assert r.found[0..] == r.found && r.listed[0..] == r.listed;
    AudioOfIsAudio(store, r.listed);
    forall e | e in r.found
      ensures IsAudio(e)
    {
      assert e in multiset(AudioOf(store, r.listed));
    }
  }

  /** One turn of the loop over a listing, as the in-place crawler takes it. */
  lemma ScanItemsAt(store: Store, items: seq<Entry>, i: nat, depth: nat, maxDepth: int, w: Walk)
    requires i < |items|
    ensures ScanItems(store, items[i..], depth, maxDepth, w)
         == ScanItems(store, items[i + 1..], depth, maxDepth, Step(store, items[i], depth, maxDepth, w))
  {
    assert items[i..][1..] == items[i + 1..];
  }

  /** One root of a search, as the in-place search takes it. */
  lemma ScanRootsAt(store: Store, roots: seq<Path>, k: nat, maxDepth: int, w: Walk)
    requires k < |roots|
    ensures ScanRoots(store, roots[k..], maxDepth, w)
         == ScanRoots(store, roots[k + 1..], maxDepth, Scan(store, roots[k], 0, maxDepth, w))
  {
    assert roots[k..][1..] == roots[k + 1..];
  }

  // ---------------------------------------------------------------------
  // The crawl, in place
  // ---------------------------------------------------------------------

  /** The state one crawl shares between all its recursive calls: the
      visited set and the result array that `scanDirRecursive` receives by
      reference and mutates. */
  class Crawl {
    var visited: set<Path>
    var result: seq<Entry>
    /** The listings requested so far (see `Walk`). */
    ghost var listed: seq<Listing>

    ghost function State(): Walk
      reads this
    {
      Walk(visited, result, listed)
    }

    constructor ()
      ensures State() == Walk({}, [], [])
    {
      visited := {};
      result := [];
      listed := [];
    }

    /** `scanDirRecursive(client, dir, result, depth, maxDepth, visited)`,
        changing this crawl's visited set and result exactly as `Scan`
        says. */
    method ScanDirRecursive(store: Store, dir: Path, depth: nat, maxDepth: int)
      modifies this
      ensures State() == Scan(store, dir, depth, maxDepth, old(State()))
      decreases Unlisted(store, visited)
    {
      if dir in visited {
        return;
      }
      visited := visited + {dir};
      if maxDepth >= 0 && depth > maxDepth {
        return;
      }
      listed := listed + [Listing(dir, depth)];
      if dir !in store {
        return;  // the listing failed: give up on this directory only
      }
      var items := store[dir];
      ghost var asked := State();
      ScanListed(store, dir, depth, maxDepth, old(State()));
      UnlistedShrinks(store, old(visited), dir);
      assert items[0..] == items;
      for i := 0 to |items|
        invariant asked.visited <= visited
        invariant ScanItems(store, items[i..], depth, maxDepth, State())
               == ScanItems(store, items, depth, maxDepth, asked)
      {
        var it := items[i];
        ScanItemsAt(store, items, i, depth, maxDepth, State());
        ghost var next := Step(store, it, depth, maxDepth, State());
        if IsAudio(it) {
          result := result + [it];
        } else if it.kind == DirectoryKind {
          UnlistedMonotone(store, asked.visited, visited);
          ScanDirRecursive(store, it.filename, depth + 1, maxDepth);
        }
        assert State() == next;
      }
    }
  }
}
