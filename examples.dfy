/**
 * Cases of the crawler's behaviour, each stated for any host name and path segment
 * (the site it was written for has `https://mikecreighton.com` as its base).
 */
module Examples {
  import opened Wrappers
  import opened Text
  import opened Urls
  import opened Paths
  import opened Pages
  import opened Links
  import opened SiteMaps

  lemma Https()
    ensures AsciiLower("https") == "https"
    ensures IsAsciiLetter("https"[0]) && forall k :: 0 <= k < 5 ==> IsSchemeChar("https"[k])
  {
    AsciiLowerOfLower("https");
  }

  predicate IsHostName(host: string) {
    forall k :: 0 <= k < |host| ==> host[k] != '/' && host[k] != '?' && host[k] != '#'
  }

  /** After an `https://host` origin, a plain path is the path of the URL. */
  lemma PathAfterHttpsHost(host: string, rest: string)
    requires IsHostName(host)
    requires rest != [] && rest[0] == '/' && '?' !in rest && '#' !in rest && ';' !in rest
    ensures UrlPath("https://" + host + rest) == rest
  {
    Https();
    assert "https://" + host + rest == "https" + "://" + host + rest;
    UrlPathAfterOrigin("https", host, rest);
    PathPartOfPlain("https", rest);
  }

  lemma PrefixOfConcat(a: string, b: string)
    ensures StartsWith(a + b, a)
  {
    assert (a + b)[..|a|] == a;
  }

  lemma HostNameConcat(a: string, b: string)
    requires IsHostName(a) && IsHostName(b)
    ensures IsHostName(a + b)
  {
    assert forall k :: |a| <= k < |a + b| ==> (a + b)[k] == b[k - |a|];
  }

  lemma LongerHostHasPrefix(host: string, suffix: string, rest: string)
    ensures StartsWith("https://" + (host + suffix) + rest, "https://" + host)
  {
    assert "https://" + (host + suffix) + rest == ("https://" + host) + (suffix + rest);
    PrefixOfConcat("https://" + host, suffix + rest);
  }

  lemma LookalikeUrl(host: string, suffix: string)
    requires IsHostName(host) && IsHostName(suffix)
    ensures StartsWith("https://" + (host + suffix) + "/x", "https://" + host)
    ensures UrlPath("https://" + (host + suffix) + "/x") == "/x"
  {
    HostNameConcat(host, suffix);
    PathAfterHttpsHost(host + suffix, "/x");
    LongerHostHasPrefix(host, suffix, "/x");
  }

  /** The same-site test is a string prefix test: with the base `https://mikecreighton.com`,
      a link to a lookalike host such as `https://mikecreighton.com.evil/x` passes it, and
      its path is queued. */
  lemma LookalikeHostPassesFilter(host: string, suffix: string)
    requires IsHostName(host) && IsHostName(suffix)
    ensures var base := "https://" + host;
      var link := "https://" + (host + suffix) + "/x";
      && Keeps(base, h => h, link, {}, [])
      && NewLinks(base, h => h, [link], {}, []) == ["/x"]
  {
    var link := "https://" + (host + suffix) + "/x";
    LookalikeUrl(host, suffix);
    NewLinksOfOne("https://" + host, h => h, link, {}, []);
  }

  lemma SiteLink(host: string, path: string)
    requires IsHostName(host)
    requires path != [] && path[0] == '/' && '?' !in path && '#' !in path && ';' !in path
    ensures StartsWith("https://" + host + path, "https://" + host)
    ensures UrlPath("https://" + host + path) == path
  {
    PathAfterHttpsHost(host, path);
    PrefixOfConcat("https://" + host, path);
  }

  /** A page that links twice to the same new path, say with `href="/blog"` twice,
      queues it twice. */
  lemma RepeatedLinkQueuedTwice(host: string, resolve: string -> string, href: string, visited: set<string>)
    requires IsHostName(host)
    requires resolve(href) == "https://" + host + "/blog" && "/blog" !in visited
    ensures NewLinks("https://" + host, resolve, [href, href], visited, []) == ["/blog", "/blog"]
  {
    var base := "https://" + host;
    SiteLink(host, "/blog");
    assert Keeps(base, resolve, href, visited, []);
    NewLinksOfOne(base, resolve, href, visited, []);
    NewLinksAppend(base, resolve, [href], [href], visited, []);
    assert [href, href] == [href] + [href];
  }

  /** One path segment: non-empty, with no '/', '?', '#' or ';'. */
  predicate IsSegment(seg: string) {
    seg != [] && '/' !in seg && '?' !in seg && '#' !in seg && ';' !in seg
  }

  lemma SlashSegmentId(seg: string)
    requires IsSegment(seg)
    ensures NormalizedPath("/" + seg) == seg
  {
    var p := "/" + seg;
    assert p[1] == seg[0];
    UrlPathOfPlainPath(p);
    NormalizedPathOfSegment(p, seg);
  }

  lemma TrailingSlashSegmentId(seg: string)
    requires IsSegment(seg)
    ensures NormalizedPath("/" + seg + "/") == seg
  {
    var p := "/" + seg + "/";
    assert p[1] == seg[0];
    UrlPathOfPlainPath(p);
    NormalizedPathOfSegment(p, seg);
  }

  /** Two fetched paths with the same identifier leave one site map entry, the one
      written last. */
  lemma SameKeyCollides(fetch: string -> Option<Page>, keyOf: string -> string, a: string, b: string)
    requires keyOf(a) == keyOf(b) && fetch(a).Some? && fetch(b).Some?
    ensures var m := SiteMapOf(fetch, keyOf, [a, b]);
      && m.Keys == {keyOf(a)}
      && m[keyOf(a)] == PageEntry(keyOf(a), fetch(b).value)
  {
    var h := [a, b];
    SiteMapLastWrite(fetch, keyOf, h, 1);
    var m := SiteMapOf(fetch, keyOf, h);
    forall k | k in m ensures k == keyOf(a) {
      SiteMapKeys(fetch, keyOf, h, k);
    }
  }

  /** `/about` and `/about/` are two queue entries but one site map entry: the one processed
      last wins. */
  lemma TrailingSlashCollides(seg: string, first: Page, second: Page)
    requires IsSegment(seg)
    ensures var fetch := (p: string) => if p == "/" + seg then Some(first) else if p == "/" + seg + "/" then Some(second) else None;
      var m := SiteMapOf(fetch, NormalizedPath, ["/" + seg, "/" + seg + "/"]);
      && m.Keys == {seg}
      && m[seg] == PageEntry(seg, second)
  {
    var fetch := (p: string) => if p == "/" + seg then Some(first) else if p == "/" + seg + "/" then Some(second) else None;
    assert "/" + seg != "/" + seg + "/";
    SlashSegmentId(seg);
    TrailingSlashSegmentId(seg);
    SameKeyCollides(fetch, NormalizedPath, "/" + seg, "/" + seg + "/");
  }

  /** "/" and "" name the file of the root page. */
  lemma RootIdentifiers()
    ensures NormalizedPath("/") == Index
    ensures NormalizedPath("") == Index
  {
    NormalizedPathTrimsSlashes("/");
    NormalizedPathTrimsSlashes("");
  }

  /** A page at "/index" shares the root page's files. */
  lemma IndexPageIsRoot()
    ensures NormalizedPath("/" + Index) == Index
  {
    SlashSegmentId(Index);
  }

  /** After "//", everything up to the next '/', '?' or '#' is read as a host name. */
  lemma UrlPathAfterNetloc(host: string, rest: string)
    requires IsHostName(host)
    requires rest == [] || rest[0] == '/' || rest[0] == '?' || rest[0] == '#'
    ensures UrlPath("//" + host + rest) == PathPart("", rest)
  {
    var url := "//" + host + rest;
    assert !IsAsciiLetter(url[0]);
    assert SplitScheme(url) == ("", url);
    assert StartsWith(url, "//") by {
      assert url[..2] == "//";
    }
    assert NetlocEnd(url, 2) == 2 + |host| by {
      forall k | 2 <= k < 2 + |host| ensures url[k] == host[k - 2] { }
      assert rest != [] ==> url[2 + |host|] == rest[0];
    }
    assert url[2 + |host|..] == rest;
  }

  /** A path that starts with "//" is read as a host name followed by a path, so its
      first segment is lost: "//blog/post" is identified as "post". */
  lemma DoubleSlashLosesFirstSegment(first: string, seg: string)
    requires IsSegment(first) && IsSegment(seg)
    ensures NormalizedPath("//" + first + "/" + seg) == seg
  {
    var url := "//" + first + "/" + seg;
    assert url == "//" + first + ("/" + seg);
    UrlPathAfterNetloc(first, "/" + seg);
    PathPartOfPlain("", "/" + seg);
    NormalizedPathOfSegment(url, seg);
  }

  predicate IsLetters(s: string) {
    s != [] && forall k :: 0 <= k < |s| ==> IsAsciiLetter(s[k])
  }

  /** Letters before the first ':' are read as a scheme. */
  lemma SchemeOfLetters(scheme: string, rest: string)
    requires IsLetters(scheme)
    ensures SplitScheme(scheme + ":" + rest) == (AsciiLower(scheme), rest)
  {
    var url := scheme + ":" + rest;
    assert forall k :: 0 <= k < |scheme| ==> url[k] == scheme[k];
    assert url[|scheme|] == ':';
    assert FindFrom(url, ':', 0) == |scheme|;
    assert url[..|scheme|] == scheme && url[|scheme| + 1..] == rest;
  }

  lemma ColonAsScheme(scheme: string, rest: string)
    requires IsLetters(scheme) && IsSegment(rest)
    ensures NormalizedPath(scheme + ":" + rest) == rest
  {
    SchemeOfLetters(scheme, rest);
    assert !StartsWith(rest, "//") by {
      assert rest[0] != '/';
    }
    PathPartOfPlain(AsciiLower(scheme), rest);
    NormalizedPathOfSegment(scheme + ":" + rest, rest);
  }

  lemma ColonSegment(scheme: string, rest: string)
    requires IsLetters(scheme) && IsSegment(rest)
    ensures IsSegment(scheme + ":" + rest)
  {
    var seg := scheme + ":" + rest;
    forall k | 0 <= k < |seg|
      ensures seg[k] != '/' && seg[k] != '?' && seg[k] != '#' && seg[k] != ';'
    {
      if k < |scheme| {
        assert seg[k] == scheme[k];
      } else if k > |scheme| {
        assert seg[k] == rest[k - |scheme| - 1];
      }
    }
  }

  /** Normalising is not idempotent: an identifier holding ':' after letters reads as a
      scheme, so "/foo:bar" is identified as "foo:bar", and that as "bar". */
  lemma NormalizationNotIdempotent(scheme: string, rest: string)
    requires IsLetters(scheme) && IsSegment(rest)
    ensures NormalizedPath("/" + scheme + ":" + rest) == scheme + ":" + rest
    ensures NormalizedPath(NormalizedPath("/" + scheme + ":" + rest)) == rest
  {
    ColonSegment(scheme, rest);
    assert "/" + scheme + ":" + rest == "/" + (scheme + ":" + rest);
    SlashSegmentId(scheme + ":" + rest);
    ColonAsScheme(scheme, rest);
  }

  lemma LineBreakIsSpace()
    ensures AllSpace("\r\n ")
  {
  }

  lemma WordsOfBrokenTitle(a: string, b: string)
    requires a != [] && NoSpace(a) && b != [] && NoSpace(b)
    ensures Words(a + "\r\n " + b) == [a, b]
  {
    var t := a + "\r\n " + b;
    assert LStrip(t) == t by {
      assert t[0] == a[0];
    }
    assert t[..|a|] == a && t[|a|] == '\r';
    WordOfPrefix(t, a);
    assert t[|a|..] == "\r\n " + b;
    assert Words(t) == [a] + Words("\r\n " + b);
    LineBreakIsSpace();
    LStripSpacesThen("\r\n ", b);
    WordsOfLStrip("\r\n " + b);
    WordsOfJoinWords([b]);
  }

  /** A line break and the whitespace around it inside a title become one space. */
  lemma CleanTitle(a: string, b: string)
    requires a != [] && NoSpace(a) && b != [] && NoSpace(b)
    ensures CleanText(a + "\r\n " + b) == a + " " + b
  {
    CleanTextIsJoinedWords(a + "\r\n " + b);
    WordsOfBrokenTitle(a, b);
    assert [a, b][1..] == [b];
  }
}
