/**
 * One turn of the `crawl` loop on values, and the invariant every turn keeps.
 *
 * A turn pops the head of the queue; skips it when it was visited; otherwise marks it
 * visited before downloading it; when the download fails that is all; when it succeeds it
 * writes the site map entry of the page and appends the page's new links to the queue.
 *
 * The invariant is stated over a ghost record of the run (`Trace`): every path ever queued,
 * in queue order, how many were popped, and the paths processed, in order.
 */
module CrawlModel {
  import opened Wrappers
  import opened Paths
  import opened Pages
  import opened Links
  import opened SiteMaps

  /** The only path in the queue of a new crawler. */
  const Root := "/"

  /** What the crawler gets from outside: `urljoin(base_url, .)`, and the download of a
      path (`None` when the request or the save fails). */
  datatype Web = Web(resolve: string -> string, fetch: string -> Option<Page>)

  /** The mutable state of `WebsiteCrawler`: `visited`, `to_visit` and `site_map`. */
  datatype CrawlState = CrawlState(visited: set<string>, toVisit: seq<string>, siteMap: map<string, PageInfo>)

  /** The ghost record of a run: every path ever queued, how many were popped, and the
      paths that were processed (not skipped). */
  datatype Trace = Trace(enqueued: seq<string>, popped: nat, history: seq<string>)

  function Elems(s: seq<string>): set<string> {
    set x | x in s
  }

  predicate Distinct(s: seq<string>) {
    forall i, j :: 0 <= i < j < |s| ==> s[i] != s[j]
  }

  /** Every same-site path the page at `path` links to; none when it does not download. */
  function Targets(base: string, web: Web, path: string): set<string> {
    match web.fetch(path)
    case None => {}
    case Some(page) => CandidatePaths(base, web.resolve, page.hrefs)
  }

  /** A set of paths that no downloaded page of it links out of. */
  predicate Closed(base: string, web: Web, paths: set<string>) {
    forall p {:trigger Targets(base, web, p)} :: p in paths ==> Targets(base, web, p) <= paths
  }

  /** The paths of `s` without the repeats, each where it first occurs. */
  function FirstOccurrences(s: seq<string>): seq<string>
    decreases |s|
  {
    if s == [] then []
    else
      var before := FirstOccurrences(s[..|s| - 1]);
      if s[|s| - 1] in before then before else before + [s[|s| - 1]]
  }

  /** The links a turn appends to the queue. */
  function Discovered(base: string, web: Web, s: CrawlState): seq<string>
    requires s.toVisit != []
  {
    var path := s.toVisit[0];
    if path in s.visited then []
    else
      match web.fetch(path)
      case None => []
      case Some(page) => NewLinks(base, web.resolve, page.hrefs, s.visited + {path}, s.toVisit[1..])
  }

  /** One turn of the `crawl` loop. */
  function Next(base: string, web: Web, s: CrawlState): CrawlState
    requires s.toVisit != []
  {
    var path, rest := s.toVisit[0], s.toVisit[1..];
    if path in s.visited then CrawlState(s.visited, rest, s.siteMap)
    else
      var siteMap := match web.fetch(path)
        case None => s.siteMap
        case Some(page) => s.siteMap[NormalizedPath(path) := PageEntry(NormalizedPath(path), page)];
      CrawlState(s.visited + {path}, rest + Discovered(base, web, s), siteMap)
  }

  /** The ghost record after one turn. */
  function NextTrace(base: string, web: Web, s: CrawlState, t: Trace): Trace
    requires s.toVisit != []
  {
    var path := s.toVisit[0];
    Trace(t.enqueued + Discovered(base, web, s), t.popped + 1,
          if path in s.visited then t.history else t.history + [path])
  }

  /** The queue is what was queued and not yet popped, first in first out; the processed
      paths are the popped ones without repeats, and they are the visited set. */
  ghost predicate QueueInv(s: CrawlState, t: Trace) {
    && t.popped <= |t.enqueued|
    && s.toVisit == t.enqueued[t.popped..]
    && t.history == FirstOccurrences(t.enqueued[..t.popped])
    && s.visited == Elems(t.history)
  }

  /** The first path queued is the root, and every later one is a link of an earlier one. */
  ghost predicate DiscoveryInv(base: string, web: Web, t: Trace) {
    && t.enqueued != [] && t.enqueued[0] == Root
    && (forall k :: 0 < k < |t.enqueued| ==>
          exists m :: 0 <= m < k && t.enqueued[k] in Targets(base, web, t.enqueued[m]))
  }

  /** Every link of a visited page is visited or queued. */
  ghost predicate ClosureInv(base: string, web: Web, s: CrawlState) {
    forall p {:trigger Targets(base, web, p)} :: p in s.visited ==> Targets(base, web, p) <= s.visited + Elems(s.toVisit)
  }

  /** What holds of the crawler between two turns: the three invariants above, and the
      site map is the one built from the processed paths. */
  ghost predicate Inv(base: string, web: Web, s: CrawlState, t: Trace) {
    && QueueInv(s, t)
    && s.siteMap == SiteMapOf(web.fetch, NormalizedPath, t.history)
    && DiscoveryInv(base, web, t)
    && ClosureInv(base, web, s)
  }

  /** The state of a new crawler. */
  const Start := CrawlState({}, [Root], map[])
  const StartTrace := Trace([Root], 0, [])

  // ----- lemmas -----

  /** The processed paths are the popped ones, each once. */
  lemma {:induction false} FirstOccurrencesSpec(s: seq<string>)
    ensures Elems(FirstOccurrences(s)) == Elems(s)
    ensures Distinct(FirstOccurrences(s))
    decreases |s|
  {
    if s != [] {
      var init := s[..|s| - 1];
      FirstOccurrencesSpec(init);
      assert s == init + [s[|s| - 1]];
      assert Elems(s) == Elems(init) + {s[|s| - 1]};
    }
  }

  lemma StartInv(base: string, web: Web)
    ensures Inv(base, web, Start, StartTrace)
  {
    assert StartTrace.enqueued[..0] == [];
  }

  /** The links a turn appends are links of the popped page that are neither visited
      after the turn nor left in the queue. */
  lemma DiscoveredAreNew(base: string, web: Web, s: CrawlState)
    requires s.toVisit != []
    ensures var links, s' := Discovered(base, web, s), Next(base, web, s);
      forall x :: x in links ==> x in Targets(base, web, s.toVisit[0]) && x !in s'.visited && x !in s.toVisit[1..]
  {
    var path, rest := s.toVisit[0], s.toVisit[1..];
    if path !in s.visited && web.fetch(path).Some? {
      var page := web.fetch(path).value;
      forall x | x in Discovered(base, web, s)
        ensures x in Targets(base, web, path) && x !in s.visited + {path} && x !in rest
      {
        NewLinksMembers(base, web.resolve, page.hrefs, s.visited + {path}, rest, x);
      }
    }
  }

  lemma NextKeepsQueueInv(base: string, web: Web, s: CrawlState, t: Trace)
    requires QueueInv(s, t) && s.toVisit != []
    ensures QueueInv(Next(base, web, s), NextTrace(base, web, s, t))
  {
    var path, rest := s.toVisit[0], s.toVisit[1..];
    var links := Discovered(base, web, s);
    var e, e' := t.enqueued, t.enqueued + links;
    assert path == e[t.popped];
    assert e'[..t.popped + 1] == e[..t.popped] + [path];
    assert e'[t.popped + 1..] == rest + links;
    assert path in s.visited <==> path in t.history;
  }

  lemma NextKeepsSiteMap(base: string, web: Web, s: CrawlState, t: Trace)
    requires s.toVisit != [] && s.siteMap == SiteMapOf(web.fetch, NormalizedPath, t.history)
    ensures Next(base, web, s).siteMap == SiteMapOf(web.fetch, NormalizedPath, NextTrace(base, web, s, t).history)
  {
    var h := t.history + [s.toVisit[0]];
    assert h[..|h| - 1] == t.history;
  }

  lemma NextKeepsDiscoveryInv(base: string, web: Web, s: CrawlState, t: Trace)
    requires QueueInv(s, t) && DiscoveryInv(base, web, t) && s.toVisit != []
    ensures DiscoveryInv(base, web, NextTrace(base, web, s, t))
  {
    var links := Discovered(base, web, s);
    var e, e' := t.enqueued, t.enqueued + links;
    DiscoveredAreNew(base, web, s);
    assert e[t.popped] == s.toVisit[0];
    forall k | 0 < k < |e'|
      ensures exists m :: 0 <= m < k && e'[k] in Targets(base, web, e'[m])
    {
      if k < |e| {
        var m :| 0 <= m < k && e[k] in Targets(base, web, e[m]);
        assert e'[m] == e[m];
      } else {
        assert e'[k] == links[k - |e|];
        assert e'[t.popped] == s.toVisit[0];
      }
    }
  }

  lemma NextKeepsClosureInv(base: string, web: Web, s: CrawlState)
    requires ClosureInv(base, web, s) && s.toVisit != []
    ensures ClosureInv(base, web, Next(base, web, s))
  {
    var path, rest := s.toVisit[0], s.toVisit[1..];
    var s' := Next(base, web, s);
    var links := Discovered(base, web, s);
    assert s'.toVisit == rest + links;
    assert Elems(s.toVisit) == {path} + Elems(rest);
    assert Elems(s'.toVisit) == Elems(rest) + Elems(links);
    if path !in s.visited && web.fetch(path).Some? {
      var page := web.fetch(path).value;
      forall x | x in Targets(base, web, path) ensures x in s'.visited + Elems(s'.toVisit) {
        NewLinksMembers(base, web.resolve, page.hrefs, s'.visited, rest, x);
      }
    }
  }

  /** The turn that downloads a page, written out. */
  lemma NextOfDownload(base: string, web: Web, s: CrawlState, page: Page)
    requires s.toVisit != [] && s.toVisit[0] !in s.visited && web.fetch(s.toVisit[0]) == Some(page)
    ensures var path, rest := s.toVisit[0], s.toVisit[1..];
      && Next(base, web, s).visited == s.visited + {path}
      && Next(base, web, s).toVisit == rest + NewLinks(base, web.resolve, page.hrefs, s.visited + {path}, rest)
      && Next(base, web, s).siteMap == s.siteMap[NormalizedPath(path) := PageEntry(NormalizedPath(path), page)]
  {
  }

  /** The entry the loop body builds from `get_file_paths` and `extract_page_info` is the
      one `Next` records. */
  lemma RecordsPageEntry(m: map<string, PageInfo>, path: string, page: Page, files: FilePaths, title: string, description: string)
    requires files == GetFilePaths(path) && (title, description) == ExtractPageInfo(page)
    ensures m[files.base := PageInfo(files.base, "./html/" + files.base + ".html",
                                     if page.convertsToMarkdown then "./markdown/" + files.base + ".md" else "",
                                     title, description)]
         == m[NormalizedPath(path) := PageEntry(NormalizedPath(path), page)]
  {
  }

  /** Every turn keeps the invariant. */
  lemma NextKeepsInv(base: string, web: Web, s: CrawlState, t: Trace, s': CrawlState, t': Trace)
    requires Inv(base, web, s, t) && s.toVisit != []
    requires s' == Next(base, web, s) && t' == NextTrace(base, web, s, t)
    ensures Inv(base, web, s', t')
  {
    NextKeepsQueueInv(base, web, s, t);
    NextKeepsSiteMap(base, web, s, t);
    NextKeepsDiscoveryInv(base, web, s, t);
    NextKeepsClosureInv(base, web, s);
  }

  /** Every path ever queued lies in any closed set that holds the root. */
  lemma {:induction false} EnqueuedWithin(base: string, web: Web, t: Trace, paths: set<string>, k: nat)
    requires DiscoveryInv(base, web, t)
    requires Root in paths && Closed(base, web, paths)
    requires k < |t.enqueued|
    ensures t.enqueued[k] in paths
    decreases k
  {
    if k > 0 {
      var m :| 0 <= m < k && t.enqueued[k] in Targets(base, web, t.enqueued[m]);
      EnqueuedWithin(base, web, t, paths, m);
    }
  }

  /** Whatever the crawler visited or queued lies in any closed set that holds the root:
      it reaches pages through links only, starting at "/". */
  lemma ReachedWithin(base: string, web: Web, s: CrawlState, t: Trace, paths: set<string>)
    requires QueueInv(s, t) && DiscoveryInv(base, web, t)
    requires Root in paths && Closed(base, web, paths)
    ensures s.visited <= paths
    ensures forall k :: 0 <= k < |s.toVisit| ==> s.toVisit[k] in paths
  {
    forall k | 0 <= k < |s.toVisit| ensures s.toVisit[k] in paths {
      assert s.toVisit[k] == t.enqueued[t.popped + k];
      EnqueuedWithin(base, web, t, paths, t.popped + k);
    }
    FirstOccurrencesSpec(t.enqueued[..t.popped]);
    forall x | x in s.visited ensures x in paths {
      var i :| 0 <= i < t.popped && t.enqueued[..t.popped][i] == x;
      EnqueuedWithin(base, web, t, paths, i);
    }
  }

  /** When the queue is empty the crawl is complete: the visited set holds "/", every link of
      a visited page is visited, and it is the least such set, so it is exactly the part of
      the site reachable from "/" through downloaded pages. Each path was processed once. */
  lemma FinishedCrawl(base: string, web: Web, s: CrawlState, t: Trace)
    requires Inv(base, web, s, t) && s.toVisit == []
    ensures Root in s.visited && Closed(base, web, s.visited)
    ensures forall paths :: Root in paths && Closed(base, web, paths) ==> s.visited <= paths
    ensures s.visited == Elems(t.history) && Distinct(t.history)
  {
    FirstOccurrencesSpec(t.enqueued[..t.popped]);
    assert t.enqueued[..t.popped][0] == Root;
    assert Elems(s.toVisit) == {};
    forall paths | Root in paths && Closed(base, web, paths) ensures s.visited <= paths {
      ReachedWithin(base, web, s, t, paths);
    }
  }

  /** A turn makes progress inside any finite closed set that holds the root: it either
      shortens the queue without visiting anything, or visits a path of the set that was
      not visited. */
  lemma NextProgress(base: string, web: Web, s: CrawlState, t: Trace, paths: set<string>)
    requires Inv(base, web, s, t) && s.toVisit != []
    requires Root in paths && Closed(base, web, paths)
    ensures s.visited <= Next(base, web, s).visited <= paths
    ensures s.toVisit[0] in s.visited ==>
              Next(base, web, s).visited == s.visited && |Next(base, web, s).toVisit| < |s.toVisit|
    ensures s.toVisit[0] !in s.visited ==> |paths - Next(base, web, s).visited| < |paths - s.visited|
  {
    ReachedWithin(base, web, s, t, paths);
    var path := s.toVisit[0];
    if path !in s.visited {
      assert paths - Next(base, web, s).visited == (paths - s.visited) - {path};
    }
  }

  /** What a turn does to the queue and the visited set: the popped path is visited from then
      on, even when its download fails; nothing leaves the visited set; the rest of the queue
      keeps its order and the new links go after it, none of them visited or already queued;
      a failed download leaves the site map as it was. */
  lemma NextIsFifo(base: string, web: Web, s: CrawlState)
    requires s.toVisit != []
    ensures var s' := Next(base, web, s);
      && s.visited <= s'.visited
      && s'.visited == s.visited + {s.toVisit[0]}
      && |s'.toVisit| >= |s.toVisit| - 1 && s'.toVisit[..|s.toVisit| - 1] == s.toVisit[1..]
      && (forall x :: x in s'.toVisit[|s.toVisit| - 1..] ==> x !in s'.visited && x !in s.toVisit[1..])
      && (s.toVisit[0] in s.visited || web.fetch(s.toVisit[0]).None? ==> s'.siteMap == s.siteMap)
  {
    var s' := Next(base, web, s);
    var links := Discovered(base, web, s);
    assert s'.toVisit == s.toVisit[1..] + links;
    assert s'.toVisit[|s.toVisit| - 1..] == links;
    DiscoveredAreNew(base, web, s);
  }
}
