/**
 * The site map `crawl` builds: one `PageInfo` per page identifier, written when a page is
 * downloaded, the last download of an identifier winning.
 */
module SiteMaps {
  import opened Wrappers
  import opened Text
  import opened Paths
  import opened Pages

  /** The entry `crawl` stores for a downloaded page under the identifier `key`. */
  function PageEntry(key: string, page: Page): PageInfo {
    var (title, description) := ExtractPageInfo(page);
    PageInfo(key, "./html/" + key + ".html",
             if page.convertsToMarkdown then "./markdown/" + key + ".md" else "",
             title, description)
  }

  /** The site map after the crawl has processed the paths of `history` in order, where
      `fetch` says which of them download and what they hold, and `keyOf` gives the
      identifier of a path (the crawler passes `NormalizedPath`; the facts below hold for
      any identifier function). */
  function SiteMapOf(fetch: string -> Option<Page>, keyOf: string -> string, history: seq<string>): map<string, PageInfo>
    decreases |history|
  {
    if history == [] then map[]
    else
      var before := SiteMapOf(fetch, keyOf, history[..|history| - 1]);
      var path := history[|history| - 1];
      match fetch(path)
      case None => before
      case Some(page) => before[keyOf(path) := PageEntry(keyOf(path), page)]
  }

  /** The shape every site map entry has. */
  predicate WellFormedEntry(key: string, e: PageInfo) {
    && key != []
    && e.base == key
    && e.html == "./html/" + key + ".html"
    && (e.markdown == "./markdown/" + key + ".md" || e.markdown == "")
    && IsClean(e.name) && IsClean(e.description)
  }

  // ----- lemmas -----

  /** The entry of a downloaded path names the files `get_file_paths` gives for it (with a
      leading "./"), and names the Markdown file only when the conversion succeeded. */
  lemma PageEntryNamesItsFiles(path: string, page: Page)
    ensures var e, files := PageEntry(NormalizedPath(path), page), GetFilePaths(path);
      && e.base == files.base
      && e.html == "./" + files.html
      && e.markdown == (if page.convertsToMarkdown then "./" + files.markdown else "")
      && WellFormedEntry(files.base, e)
  {
    var key := NormalizedPath(path);
    NormalizedPathNonEmpty(path);
    assert "./html/" + key + ".html" == "./" + (HtmlDir + "/" + key + ".html");
    assert "./markdown/" + key + ".md" == "./" + (MarkdownDir + "/" + key + ".md");
  }

  /** Downloading `path` writes the entry of `key`. */
  predicate Writes(fetch: string -> Option<Page>, keyOf: string -> string, path: string, key: string) {
    fetch(path).Some? && keyOf(path) == key
  }

  lemma SiteMapKeysUnwritten(fetch: string -> Option<Page>, keyOf: string -> string, history: seq<string>, key: string)
    requires history != [] && !Writes(fetch, keyOf, history[|history| - 1], key)
    ensures key in SiteMapOf(fetch, keyOf, history) <==> key in SiteMapOf(fetch, keyOf, history[..|history| - 1])
  {
  }

  /** The keys of the site map are the identifiers of the paths that downloaded. */
  lemma {:induction false} SiteMapKeys(fetch: string -> Option<Page>, keyOf: string -> string, history: seq<string>, key: string)
    ensures key in SiteMapOf(fetch, keyOf, history) <==>
            exists i :: 0 <= i < |history| && Writes(fetch, keyOf, history[i], key)
    decreases |history|
  {
    if history != [] {
      var init, last := history[..|history| - 1], history[|history| - 1];
      SiteMapKeys(fetch, keyOf, init, key);
      if Writes(fetch, keyOf, last, key) {
        assert Writes(fetch, keyOf, history[|history| - 1], key);
      } else {
        SiteMapKeysUnwritten(fetch, keyOf, history, key);
        assert forall i :: 0 <= i < |init| ==> init[i] == history[i];
      }
    }
  }

  /** Last write wins: the entry of an identifier comes from the last downloaded path with
      that identifier, so `/about` and `/about/` share one entry. */
  lemma {:induction false} SiteMapLastWrite(fetch: string -> Option<Page>, keyOf: string -> string, history: seq<string>, i: nat)
    requires i < |history| && fetch(history[i]).Some?
    requires forall j :: i < j < |history| && fetch(history[j]).Some? ==> keyOf(history[j]) != keyOf(history[i])
    ensures keyOf(history[i]) in SiteMapOf(fetch, keyOf, history)
    ensures SiteMapOf(fetch, keyOf, history)[keyOf(history[i])] == PageEntry(keyOf(history[i]), fetch(history[i]).value)
    decreases |history|
  {
    if i < |history| - 1 {
      var init := history[..|history| - 1];
      assert init[i] == history[i];
      forall j | i < j < |init| && fetch(init[j]).Some? ensures keyOf(init[j]) != keyOf(init[i]) {
        assert init[j] == history[j];
      }
      SiteMapLastWrite(fetch, keyOf, init, i);
    }
  }

  /** Every entry is stored under its own identifier and has the shape of `PageEntry`. */
  lemma {:induction false} SiteMapWellFormed(fetch: string -> Option<Page>, history: seq<string>)
    ensures forall key :: key in SiteMapOf(fetch, NormalizedPath, history) ==> WellFormedEntry(key, SiteMapOf(fetch, NormalizedPath, history)[key])
    decreases |history|
  {
    if history != [] {
      var last := history[|history| - 1];
      SiteMapWellFormed(fetch, history[..|history| - 1]);
      if fetch(last).Some? {
        PageEntryNamesItsFiles(last, fetch(last).value);
      }
    }
  }
}
