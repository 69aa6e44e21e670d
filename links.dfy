/**
 * Which `href`s of a page `extract_links` turns into new paths for the crawl queue.
 *
 * `urljoin(base_url, href)` is not modelled: it is the `resolve` parameter, any total
 * function from an `href` to an absolute URL. The same-site test is the one the code makes,
 * a string prefix test on the resolved URL (so `https://mikecreighton.com.evil/x` passes it
 * for the base `https://mikecreighton.com`).
 */
module Links {
  import opened Urls

  /** The test `extract_links` applies to one `href`, against the visited set and the queue
      as they are when it is called. */
  predicate Keeps(base: string, resolve: string -> string, href: string, visited: set<string>, queued: seq<string>) {
    var path := UrlPath(resolve(href));
    StartsWith(resolve(href), base) && path != [] && path !in visited && path !in queued
  }

  /** What one `href` adds to the list: its path when it is kept, nothing otherwise. */
  function Kept(base: string, resolve: string -> string, href: string, visited: set<string>, queued: seq<string>): seq<string> {
    if Keeps(base, resolve, href, visited, queued) then [UrlPath(resolve(href))] else []
  }

  function KeptBy(base: string, resolve: string -> string, visited: set<string>, queued: seq<string>): string -> seq<string> {
    href => Kept(base, resolve, href, visited, queued)
  }

  /** What a run of `href`s adds to the list, one `href` after the other. */
  function Collect(kept: string -> seq<string>, hrefs: seq<string>): seq<string>
    decreases |hrefs|
  {
    if hrefs == [] then [] else Collect(kept, hrefs[..|hrefs| - 1]) + kept(hrefs[|hrefs| - 1])
  }

  /** The list `extract_links` returns: the path of every kept `href`, in document order,
      repeats included. */
  function NewLinks(base: string, resolve: string -> string, hrefs: seq<string>, visited: set<string>, queued: seq<string>): seq<string> {
    Collect(KeptBy(base, resolve, visited, queued), hrefs)
  }

  /** Every same-site path an `href` of the page leads to, whatever was visited or queued. */
  function CandidatePaths(base: string, resolve: string -> string, hrefs: seq<string>): set<string> {
    set h | h in hrefs && StartsWith(resolve(h), base) && UrlPath(resolve(h)) != [] :: UrlPath(resolve(h))
  }

  // ----- lemmas -----

  lemma {:induction false} CollectMembers(kept: string -> seq<string>, hrefs: seq<string>, x: string)
    ensures x in Collect(kept, hrefs) <==> exists i :: 0 <= i < |hrefs| && x in kept(hrefs[i])
    decreases |hrefs|
  {
    if hrefs != [] {
      var init := hrefs[..|hrefs| - 1];
      CollectMembers(kept, init, x);
      assert forall i :: 0 <= i < |init| ==> init[i] == hrefs[i];
    }
  }

  lemma CollectSnoc(kept: string -> seq<string>, hrefs: seq<string>, href: string)
    ensures Collect(kept, hrefs + [href]) == Collect(kept, hrefs) + kept(href)
  {
    var hs := hrefs + [href];
    assert hs[..|hs| - 1] == hrefs;
  }

  lemma {:induction false} CollectAppend(kept: string -> seq<string>, h1: seq<string>, h2: seq<string>)
    ensures Collect(kept, h1 + h2) == Collect(kept, h1) + Collect(kept, h2)
    decreases |h2|
  {
    if h2 == [] {
      assert h1 + h2 == h1;
    } else {
      var init, last := h2[..|h2| - 1], h2[|h2| - 1];
      CollectAppend(kept, h1, init);
      assert h2 == init + [last];
      assert h1 + h2 == (h1 + init) + [last];
      CollectSnoc(kept, h1 + init, last);
      CollectSnoc(kept, init, last);
      var c1, c2, k := Collect(kept, h1), Collect(kept, init), kept(last);
      assert (c1 + c2) + k == c1 + (c2 + k);
    }
  }

  /** One `href` on its own gives its path when it is kept, and nothing otherwise. */
  lemma NewLinksOfOne(base: string, resolve: string -> string, href: string, visited: set<string>, queued: seq<string>)
    ensures NewLinks(base, resolve, [href], visited, queued) == Kept(base, resolve, href, visited, queued)
  {
    var kept := KeptBy(base, resolve, visited, queued);
    assert [href][..0] == [];
    assert Collect(kept, [href]) == kept(href);
  }

  /** A path is returned exactly when some `href` of the page leads to it on the same site
      and it is neither visited nor queued. */
  lemma NewLinksMembers(base: string, resolve: string -> string, hrefs: seq<string>, visited: set<string>, queued: seq<string>, x: string)
    ensures x in NewLinks(base, resolve, hrefs, visited, queued) <==>
            x in CandidatePaths(base, resolve, hrefs) && x !in visited && x !in queued
  {
    var kept := KeptBy(base, resolve, visited, queued);
    CollectMembers(kept, hrefs, x);
    if x in CandidatePaths(base, resolve, hrefs) && x !in visited && x !in queued {
      var h :| h in hrefs && StartsWith(resolve(h), base) && UrlPath(resolve(h)) == x;
      var i :| 0 <= i < |hrefs| && hrefs[i] == h;
      assert x in kept(hrefs[i]);
    }
  }

  /** The links of two runs of `href`s are the links of each, in order: document order is
      kept and nothing is deduplicated within a page. */
  lemma NewLinksAppend(base: string, resolve: string -> string, h1: seq<string>, h2: seq<string>, visited: set<string>, queued: seq<string>)
    ensures NewLinks(base, resolve, h1 + h2, visited, queued) ==
            NewLinks(base, resolve, h1, visited, queued) + NewLinks(base, resolve, h2, visited, queued)
  {
    CollectAppend(KeptBy(base, resolve, visited, queued), h1, h2);
  }
}
