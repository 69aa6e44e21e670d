# WebsiteCrawler, modelled in Dafny

`download.py` crawls one web site breadth-first from "/". It saves every page it can
download as HTML and as Markdown. It builds a site map that records, for each page, its
identifier, its two files, its title and its description. This project models the
crawler class, `WebsiteCrawler`, and proves what it does.

The modules follow the parts of the crawler:

- `Text` models `clean_text`. The model follows the code's steps: CR and LF become
  spaces, `\s+` becomes one space, then `strip()`. It is proved equal to Python's
  `" ".join(text.split())`. From that follow the shape of the result, that the words are
  kept, and idempotence.
- `Urls` models `urlparse(url).path`, following CPython's `urlsplit` and `urlparse` step
  by step. A scheme, a `//netloc`, a `#fragment`, a `?query` and, for the `uses_params`
  schemes, the `;params` of the last segment are cut off. It also models the
  `startswith` prefix test.
- `Paths` models `get_normalized_path` and the path names `get_file_paths` computes.
- `Pages` holds the page as the crawler sees it, the `PageInfo` record and
  `extract_page_info`.
- `Links` models `extract_links` on values.
- `SiteMaps` models the site map entry the crawl loop writes, and the site map after a
  sequence of processed paths.
- `CrawlModel` models one pass of the `crawl` loop (`Next`). It defines the invariant every
  pass keeps, over a ghost record of the run: every path ever queued, how many were
  popped, and the paths processed in order.
- `Crawler` is the class `WebsiteCrawler`. Its fields are `visited`, `toVisit` and
  `siteMap`. `ExtractLinks`, `CrawlStep` (the loop body) and `Crawl` are imperative
  methods proved against `NewLinks` and `Next`.
- `Examples` states concrete behaviours for any host name and path segment:
  - the lookalike host passes the same-site test;
  - a repeated link is queued twice;
  - `/about` and `/about/` share one entry;
  - `//blog/post` and `foo:bar` are misread;
  - line breaks in a title are cleaned.

The outside world is a parameter of the crawler, a value `Web`. It has two parts:

- `resolve` stands for `urljoin(base_url, href)`.
- `fetch` maps a path to the page it downloads to, or to `None` when the request or the
  saving of the HTML file fails. The page holds the `<title>`, the description
  `<meta>`, the `href` of every `<a>` element that has one, in document order, and
  whether the Markdown conversion succeeds.

Where the code does something other than its docstrings or a reader would expect, the
model follows the code:

- The same-site filter is a string prefix test on the resolved URL, not a comparison of
  origins. So `https://mikecreighton.com.evil/x` passes it (`Examples.LookalikeHostPassesFilter`).
- `extract_links` queues the raw path of a link, such as `/blog`, and not its normalised
  identifier.
- Normalising is not idempotent. An identifier like `foo:bar` is read as a URL with
  scheme `foo` (`Examples.NormalizationNotIdempotent`).
- `..` in a path is not sanitised, and no path is rejected.
- `/index`, `/` and `""` all get the identifier `index` and share its files
  (`Examples.RootIdentifiers`, `Examples.IndexPageIsRoot`).

## Model

| member | source | states |
|---|---|---|
| Text.CleanTextIsJoinedWords | download.py:154-177 | `CleanText`, the model of `clean_text` (CR/LF to space, `\s+` to one space, strip, "" for empty input) equals `" ".join(text.split())` on every input |
| Text.CleanTextIsClean | download.py:165-175 | the result is "" for "" and is always clean: no CR or LF, no leading or trailing whitespace, no two whitespace characters in a row, every whitespace a plain space |
| Text.CleanTextKeepsWords | download.py:168-175 | cleaning keeps the words of the text, in order |
| Text.CleanTextOfClean | download.py:154-177 | clean text is left unchanged |
| Text.CleanTextIdempotent | download.py:154-177 | `clean_text(clean_text(t)) == clean_text(t)` |
| Text.JoinWordsIsClean | download.py:172-175 | words joined by single spaces form a clean string |
| Text.WordsOfJoinWords | download.py:172-175 | splitting joined words gives the words back |
| Text.CleanIsJoinedWords | download.py:172-175 | a clean string is its words joined by single spaces |
| Urls.UrlPathHasNoQueryOrFragment | download.py:199 | the path `UrlPath` extracts, as `urlparse(url).path` does, never holds '?' or '#' |
| Urls.UrlPathOfPlainPath | download.py:96 | a path with one leading '/' and no '?', '#' or ';' is its own path |
| Urls.UrlPathAfterOrigin | download.py:197-199 | `UrlPath`, the model of `urlparse(url).path`: after `scheme://host`, the path is what follows the host, with the query, fragment and params cut off |
| Paths.NormalizedPathTrimsSlashes | download.py:86-104 | `NormalizedPath` (the path of the URL, then `IdOfPath`) models `get_normalized_path`: the identifier is "index" when the path is empty or only slashes; otherwise it is the path without its leading and trailing '/', non-empty and neither starting nor ending with '/' |
| Paths.NormalizedPathNonEmpty | download.py:97-104 | every identifier is non-empty |
| Paths.NormalizedPathOfSegment | download.py:96-104 | a one-segment path, with or without slashes around it, is identified by that segment |
| Paths.FilePathsMatchIds | download.py:106-130 | `GetFilePaths`, the model of `get_file_paths`, returns the identifier as its third part, and two URL paths get the same HTML path string, and the same Markdown path string, exactly when their identifiers are equal |
| Pages.ExtractPageInfo | download.py:132-152 | "No Title" without a title element; "" for a title element without a single string; "" without a description meta or without its `content`; both results clean |
| Pages.ExtractPageInfoKeepsWords | download.py:142-152 | title and description keep the words of the raw text, in order, with no CR or LF |
| Pages.ExtractPageInfoIsStable | download.py:149-150 | cleaning the extracted title or description again changes nothing |
| Links.NewLinksMembers | download.py:179-207 | `NewLinks`, the model of `extract_links`, returns a path exactly when `Keeps` holds for an `href`: an `href` of the page resolves to a URL starting with the base, its path is non-empty, and it is neither visited nor queued |
| Links.NewLinksAppend | download.py:190-207 | the links of two runs of `href`s are the links of each, in order: document order is kept and repeats within a page are not removed |
| Links.NewLinksOfOne | download.py:192-205 | one `href` gives its path when it passes the tests, and nothing otherwise |
| SiteMaps.PageEntryNamesItsFiles | download.py:289-295 | `PageEntry`, the site map entry the loop writes: the entry of a downloaded path is keyed by its identifier, names `./` plus the files `get_file_paths` gives, names the Markdown file only when conversion succeeded, and is well formed |
| SiteMaps.SiteMapKeys | download.py:267-295 | `SiteMapOf` is the site map after a sequence of processed paths: its keys are the identifiers of the processed paths that downloaded |
| SiteMaps.SiteMapLastWrite | download.py:289-295 | the entry of an identifier comes from the last downloaded path with that identifier |
| SiteMaps.SiteMapWellFormed | download.py:289-295 | every entry is stored under its own identifier and has the shape of a page entry |
| CrawlModel.StartInv | download.py:48-51 | the initial state (nothing visited, "/" queued, empty site map) satisfies the invariant |
| CrawlModel.DiscoveredAreNew | download.py:298-299 | the links a pass appends are links of the popped page that are neither visited after the pass nor still queued |
| CrawlModel.NextKeepsQueueInv | download.py:267-299 | a pass keeps the queue equal to what was queued and not yet popped, and the visited set equal to the popped paths |
| CrawlModel.NextKeepsSiteMap | download.py:275-295 | a pass keeps the site map equal to the one built from the processed paths |
| CrawlModel.NextKeepsDiscoveryInv | download.py:298-299 | every queued path after "/" is a link of an earlier queued path |
| CrawlModel.NextKeepsClosureInv | download.py:273-299 | every link of a visited page is visited or queued |
| CrawlModel.NextKeepsInv | download.py:267-299 | `Next`, one pass of the `crawl` loop, keeps the whole invariant |
| CrawlModel.EnqueuedWithin | download.py:298-299 | every path ever queued lies in any link-closed set of paths that holds "/" |
| CrawlModel.ReachedWithin | download.py:267-299 | every visited or queued path lies in any link-closed set that holds "/" |
| CrawlModel.NextProgress | download.py:267-299 | a pass either skips a visited path and shortens the queue, or visits a new path of the reachable set |
| CrawlModel.FinishedCrawl | download.py:267-303 | with the queue empty, the visited set holds "/", is closed under links, and is the least such set; each path was processed once |
| CrawlModel.NextIsFifo | download.py:268-299 | the head is popped and visited from then on even when its download fails; nothing leaves the visited set; under `Next` the rest of the queue keeps its order and the new links go after it, none visited or already queued; a skipped or failed path leaves the site map unchanged |
| Crawler.WebsiteCrawler.constructor | download.py:41-51 | a new crawler has nothing visited, "/" queued and an empty site map |
| Crawler.WebsiteCrawler.ExtractLinks | download.py:179-207 | the loop returns exactly `NewLinks` of the page's `href`s against the current visited set and queue |
| Crawler.WebsiteCrawler.CrawlStep | download.py:267-299 | one pass of the loop body takes the state to `Next` of the old state and keeps the invariant |
| Crawler.WebsiteCrawler.Crawl | download.py:260-303 | the crawl ends with an empty queue and returns the site map; the visited set only grows, is exactly the part of the site reachable from "/" through downloaded pages, and each path was processed once; the site map is the one built from the processed paths, every entry well formed |
| Examples.PathAfterHttpsHost | download.py:199 | after `https://host`, a plain path is the path of the URL |
| Examples.LookalikeHostPassesFilter | download.py:194-205 | with base `https://host`, a link to `https://host<suffix>/x` passes the prefix test and its path `/x` is queued |
| Examples.RepeatedLinkQueuedTwice | download.py:192-205 | two `href`s to the same new path queue it twice |
| Examples.SameKeyCollides | download.py:289-295 | two downloaded paths with one identifier leave one entry, from the later one |
| Examples.TrailingSlashCollides | download.py:97-104 | `/seg` and `/seg/` share the identifier `seg` and one site map entry, written by the page processed last |
| Examples.RootIdentifiers | download.py:97-101 | "/" and "" are both identified as "index" |
| Examples.IndexPageIsRoot | download.py:97-104 | "/index" is identified as "index", like "/" |
| Examples.DoubleSlashLosesFirstSegment | download.py:96-104 | `//first/seg` is read as host `first` and path `/seg`, so it is identified as `seg` |
| Examples.ColonAsScheme | download.py:96-104 | letters followed by ':' are read as a scheme: `foo:bar` is identified as `bar` |
| Examples.NormalizationNotIdempotent | download.py:96-104 | `/foo:bar` is identified as `foo:bar`, and normalising that again gives `bar` |
| Examples.CleanTitle | download.py:169-175 | a line break and the whitespace around it become one space: `a\r\n b` is cleaned to `a b` |

## Left out

- HTTP, parsing and conversion are not modelled. `requests.get`, BeautifulSoup and MarkItDown are the `fetch` oracle and the data of a `Page`. A failed request or a failed write of the HTML file is `fetch` returning `None`.
- `urljoin` is not modelled. It is the `resolve` parameter, a total function from an `href` to an absolute URL.
- A malformed `href`, or a malformed path it queues, aborts the whole crawl, and the model does not cover it. For an `href` such as `http://[x/`, or one whose netloc fails the NFKC check, `urljoin` and `urlparse` raise `ValueError` inside `extract_links` (download.py:194, 199). That call is outside every `try` of `crawl` (download.py:298), so the Python crawl ends with the exception and returns no site map. A queued path can abort the crawl in the same way. A same-site `href` such as `https://host//[x/y` passes the prefix test, and its path `//[x/y` is queued. When that path is popped, `download_page` joins it to the base URL at download.py:219, before its `try` (download.py:222). `urljoin` reads `[x` as a netloc and raises `ValueError`. Any queued path whose `//` netloc has an unmatched `[` or `]`, or fails the NFKC check, does the same. In the model `resolve`, `UrlPath` and `fetch` are total, and every crawl returns a site map.
- Some `urlsplit` details are not modelled: the stripping of leading control characters and spaces, and the removal of tab, CR and LF.
- Paths.FilePathsMatchIds: the "only if" half holds for the path strings, not for the files on disk. The file paths are joined with `pathlib` (download.py:127-128), which collapses `//` and `.` segments. So the identifiers `a//b` (from `/a//b`) and `a/b`, or `./b` and `b`, name one file `html/a/b.html` or `html/b.html`. The crawl then keeps two site map entries whose pages overwrite one file. The model does not describe that overwrite.
- Directory handling is not modelled: `_clear_directory`, and the `mkdir` calls of `get_file_paths` for multi-segment identifiers. `Path` objects are their `str()` forms; `pathlib` normalisation of the joined paths is not modelled.
- `save_site_map`, JSON, logging and `main` are not modelled. The separate serving script (`server.py`) is not part of this model.
- `extract_links` takes a `current_url` argument that it never uses, so the model has no such parameter.
- Crawler.WebsiteCrawler.Crawl: requires a finite set of paths that holds "/" and that no downloaded page links out of. The Python loop does not stop on a site with infinitely many reachable paths, and the model does not describe that case.
- Crawler.WebsiteCrawler.CrawlStep: the body of the `while` loop of `crawl` as a method of its own. Its two `continue`s are the branches in which nothing else happens.
- SiteMaps.SiteMapOf: takes the identifier function as a parameter. The crawler passes `NormalizedPath`, and the facts about it hold for any such function.
