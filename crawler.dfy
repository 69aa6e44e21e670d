/**
 * `WebsiteCrawler`: a breadth-first crawl of one site from "/", following same-site links,
 * recording each downloaded page in a site map keyed by its normalised path.
 */
module Crawler {
  import opened Wrappers
  import opened Urls
  import opened Paths
  import opened Pages
  import opened Links
  import opened SiteMaps
  import opened CrawlModel

  class WebsiteCrawler {
    const baseUrl: string
    const web: Web
    var visited: set<string>
    var toVisit: seq<string>
    var siteMap: map<string, PageInfo>
    /** Every path ever queued, how many were popped, and the processed paths in order. */
    ghost var trace: Trace

    function State(): CrawlState
      reads this
    {
      CrawlState(visited, toVisit, siteMap)
    }

    ghost predicate Valid()
      reads this
    {
      Inv(baseUrl, web, State(), trace)
    }

    /** A new crawler: nothing visited, "/" queued, an empty site map. */
    constructor(baseUrl: string, web: Web)
      ensures this.baseUrl == baseUrl && this.web == web
      ensures visited == {} && toVisit == [Root] && siteMap == map[]
      ensures Valid()
    {
      this.baseUrl := baseUrl;
      this.web := web;
      visited := {};
      toVisit := [Root];
      siteMap := map[];
      trace := StartTrace;
      new;
      StartInv(baseUrl, web);
    }

    /** `extract_links`: the paths of the page's same-site links that are neither visited
        nor queued, in document order. */
    method ExtractLinks(page: Page) returns (links: seq<string>)
      ensures links == NewLinks(baseUrl, web.resolve, page.hrefs, visited, toVisit)
    {
      links := [];
      for i := 0 to |page.hrefs|
        invariant links == NewLinks(baseUrl, web.resolve, page.hrefs[..i], visited, toVisit)
      {
        var href := page.hrefs[i];
        assert page.hrefs[..i + 1][..i] == page.hrefs[..i];
        var absoluteUrl := web.resolve(href);
        if StartsWith(absoluteUrl, baseUrl) {
          var relativePath := UrlPath(absoluteUrl);
          if relativePath != [] && relativePath !in visited && relativePath !in toVisit {
            links := links + [relativePath];
          }
        }
      }
      assert page.hrefs[..|page.hrefs|] == page.hrefs;
    }

    /** One pass of the `while self.to_visit` loop of `crawl`: pop the head of the queue;
        skip it when visited; otherwise mark it visited, download it, and when that works
        record its site map entry and queue its new links. */
    method CrawlStep()
      requires Valid() && toVisit != []
      modifies this
      ensures Valid()
      ensures State() == Next(baseUrl, web, old(State()))
      ensures trace == NextTrace(baseUrl, web, old(State()), old(trace))
    {
      ghost var s, t := State(), trace;
      trace := NextTrace(baseUrl, web, s, t);

      var currentPath := toVisit[0];
      toVisit := toVisit[1..];
      if currentPath !in visited {
        visited := visited + {currentPath};
        var page := web.fetch(currentPath);
        if page.Some? {
          var files := GetFilePaths(currentPath);
          var (title, description) := ExtractPageInfo(page.value);
          var markdownSuccess := page.value.convertsToMarkdown;
          NextOfDownload(baseUrl, web, s, page.value);
          RecordsPageEntry(siteMap, currentPath, page.value, files, title, description);
          siteMap := siteMap[files.base := PageInfo(
            files.base,
            "./html/" + files.base + ".html",
            if markdownSuccess then "./markdown/" + files.base + ".md" else "",
            title,
            description)];
          var newLinks := ExtractLinks(page.value);
          toVisit := toVisit + newLinks;
        }
      }
      NextKeepsInv(baseUrl, web, s, t, State(), trace);
    }

    /** `crawl`: runs passes until the queue is empty and returns the site map.
        The crawl ends when the site reachable from "/" is finite: `universe` is any finite
        set of paths holding "/" that no downloaded page links out of. */
    method Crawl(ghost universe: set<string>) returns (result: map<string, PageInfo>)
      requires Valid()
      requires Root in universe && Closed(baseUrl, web, universe)
      modifies this
      ensures Valid()
      ensures toVisit == [] && result == siteMap
      ensures old(visited) <= visited
      ensures Root in visited && Closed(baseUrl, web, visited)
      ensures forall paths :: Root in paths && Closed(baseUrl, web, paths) ==> visited <= paths
      ensures visited == Elems(trace.history) && Distinct(trace.history)
      ensures siteMap == SiteMapOf(web.fetch, NormalizedPath, trace.history)
      ensures forall key :: key in siteMap ==> WellFormedEntry(key, siteMap[key])
    {
      ReachedWithin(baseUrl, web, State(), trace, universe);
      while toVisit != []
        invariant Valid()
        invariant old(visited) <= visited <= universe
        decreases |universe - visited|, |toVisit|
      {
        NextProgress(baseUrl, web, State(), trace, universe);
        CrawlStep();
      }
      result := siteMap;
      FinishedCrawl(baseUrl, web, State(), trace);
      SiteMapWellFormed(web.fetch, trace.history);
    }
  }
}
