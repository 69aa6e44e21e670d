/**
 * Page identifiers and file locations (`get_normalized_path` and the path part of
 * `get_file_paths`).
 */
module Paths {
  import opened Urls

  /** The identifier of the site's root page. */
  const Index := "index"

  /** `Path("./html")` and `Path("./markdown")`, as `str()` prints them. */
  const HtmlDir := "html"
  const MarkdownDir := "markdown"

  predicate OnlySlashes(s: string) {
    forall i :: 0 <= i < |s| ==> s[i] == '/'
  }

  /** `s.rstrip("/")`. */
  function RStripSlashes(s: string): (r: string)
    ensures |r| <= |s|
    ensures r == [] || r[|r| - 1] != '/'
  {
    if s != [] && s[|s| - 1] == '/' then RStripSlashes(s[..|s| - 1]) else s
  }

  /** `s.lstrip("/")`. */
  function LStripSlashes(s: string): (r: string)
    ensures |r| <= |s|
    ensures r == [] || r[0] != '/'
  {
    if s != [] && s[0] == '/' then LStripSlashes(s[1..]) else s
  }

  /** `WebsiteCrawler.get_normalized_path`. */
  function NormalizedPath(url: string): string {
    IdOfPath(UrlPath(url))
  }

  /** What `get_normalized_path` makes of the path once `urlparse` has extracted it. */
  function IdOfPath(path: string): string {
    var stripped := RStripSlashes(path);
    if stripped == [] then Index else LStripSlashes(stripped)
  }

  /** The three results of `get_file_paths`: the HTML file, the Markdown file, the id. */
  datatype FilePaths = FilePaths(html: string, markdown: string, base: string)

  /** `WebsiteCrawler.get_file_paths`, without the directories it creates. */
  function GetFilePaths(urlPath: string): FilePaths {
    var normalized := NormalizedPath(urlPath);
    FilePaths(HtmlDir + "/" + normalized + ".html", MarkdownDir + "/" + normalized + ".md", normalized)
  }

  // ----- lemmas -----

  lemma {:induction false} RStripSlashesIsPrefix(s: string)
    ensures RStripSlashes(s) == s[..|RStripSlashes(s)|]
    ensures OnlySlashes(s[|RStripSlashes(s)|..])
    decreases |s|
  {
    if s != [] && s[|s| - 1] == '/' {
      var s' := s[..|s| - 1];
      RStripSlashesIsPrefix(s');
      var k := |RStripSlashes(s)|;
      assert s'[..k] == s[..k];
      assert s[k..] == s'[k..] + ['/'];
    } else {
      assert s[|s|..] == [];
    }
  }

  lemma {:induction false} LStripSlashesIsSuffix(s: string)
    ensures LStripSlashes(s) == s[|s| - |LStripSlashes(s)|..]
    ensures OnlySlashes(s[..|s| - |LStripSlashes(s)|])
    decreases |s|
  {
    if s != [] && s[0] == '/' {
      LStripSlashesIsSuffix(s[1..]);
      var k := |s| - |LStripSlashes(s)|;
      assert s[1..][..k - 1] == s[1..k];
    } else {
      assert s[..0] == [];
    }
  }

  lemma {:induction false} RStripSlashesEmpty(s: string)
    ensures RStripSlashes(s) == [] <==> OnlySlashes(s)
    decreases |s|
  {
    if s != [] && s[|s| - 1] == '/' {
      var s' := s[..|s| - 1];
      RStripSlashesEmpty(s');
      assert OnlySlashes(s) <==> OnlySlashes(s') by {
        assert forall k :: 0 <= k < |s'| ==> s'[k] == s[k];
      }
    } else if s != [] {
      assert s[|s| - 1] != '/';
    }
  }

  lemma {:induction false} LStripSlashesEmpty(s: string)
    ensures LStripSlashes(s) == [] <==> OnlySlashes(s)
    decreases |s|
  {
    if s != [] && s[0] == '/' {
      LStripSlashesEmpty(s[1..]);
      assert OnlySlashes(s) <==> OnlySlashes(s[1..]) by {
        assert forall k :: 1 <= k < |s| ==> s[1..][k - 1] == s[k];
      }
    } else if s != [] {
      assert s[0] != '/';
    }
  }

  lemma IdOfPathTrimsSlashes(p: string)
    ensures OnlySlashes(p) ==> IdOfPath(p) == Index
    ensures !OnlySlashes(p) ==>
      var r := IdOfPath(p);
      && r != [] && r[0] != '/' && r[|r| - 1] != '/'
      && exists i, j :: 0 <= i <= j <= |p| && p[i..j] == r && OnlySlashes(p[..i]) && OnlySlashes(p[j..])
  {
    var q := RStripSlashes(p);
    RStripSlashesIsPrefix(p);
    RStripSlashesEmpty(p);
    if !OnlySlashes(p) {
      var j := |q|;
      var r := LStripSlashes(q);
      LStripSlashesIsSuffix(q);
      LStripSlashesEmpty(q);
      assert !OnlySlashes(q) by {
        assert q[|q| - 1] != '/';
      }
      var i := |q| - |r|;
      assert r[|r| - 1] == q[|q| - 1];
      assert p[i..j] == r by {
        assert q[i..] == p[..j][i..];
      }
      assert p[..i] == q[..i];
    }
  }

  /** `get_normalized_path` gives "index" when the path of the URL is empty or made only
      of '/' (and also for "/index"); otherwise it gives the path with its leading and trailing '/'
      removed, which is non-empty and neither starts nor ends with '/'. */
  lemma NormalizedPathTrimsSlashes(url: string)
    ensures OnlySlashes(UrlPath(url)) ==> NormalizedPath(url) == Index
    ensures !OnlySlashes(UrlPath(url)) ==>
      var p, r := UrlPath(url), NormalizedPath(url);
      && r != [] && r[0] != '/' && r[|r| - 1] != '/'
      && exists i, j :: 0 <= i <= j <= |p| && p[i..j] == r && OnlySlashes(p[..i]) && OnlySlashes(p[j..])
  {
    IdOfPathTrimsSlashes(UrlPath(url));
  }

  /** A path made of one segment, with or without a leading and a trailing '/', is
      identified by that segment. */
  lemma IdOfSegment(p: string, seg: string)
    requires seg != [] && '/' !in seg
    requires p == seg || p == "/" + seg || p == "/" + seg + "/"
    ensures IdOfPath(p) == seg
  {
    var q := "/" + seg;
    assert seg[|seg| - 1] != '/' && seg[0] != '/';
    assert q[|q| - 1] == seg[|seg| - 1] && q[1..] == seg;
    if p == seg {
      assert RStripSlashes(p) == seg;
    } else {
      if p == q + "/" {
        assert p[..|p| - 1] == q;
      }
      assert RStripSlashes(p) == q;
      assert LStripSlashes(q) == LStripSlashes(seg) == seg;
    }
  }

  /** A URL whose path is one segment, with or without slashes around it, is identified
      by that segment. */
  lemma NormalizedPathOfSegment(url: string, seg: string)
    requires seg != [] && '/' !in seg
    requires UrlPath(url) == seg || UrlPath(url) == "/" + seg || UrlPath(url) == "/" + seg + "/"
    ensures NormalizedPath(url) == seg
  {
    IdOfSegment(UrlPath(url), seg);
  }

  /** Every identifier is non-empty. */
  lemma NormalizedPathNonEmpty(url: string)
    ensures NormalizedPath(url) != []
  {
    NormalizedPathTrimsSlashes(url);
  }

  /** Distinct identifiers get distinct file names, and equal identifiers the same ones:
      two URL paths get the same HTML path string (and the same Markdown path string)
      exactly when they normalise to the same identifier. */
  lemma FilePathsMatchIds(u1: string, u2: string)
    ensures GetFilePaths(u1).base == NormalizedPath(u1)
    ensures GetFilePaths(u1).html == GetFilePaths(u2).html <==> NormalizedPath(u1) == NormalizedPath(u2)
    ensures GetFilePaths(u1).markdown == GetFilePaths(u2).markdown <==> NormalizedPath(u1) == NormalizedPath(u2)
  {
    var n1, n2 := NormalizedPath(u1), NormalizedPath(u2);
    var h1, h2 := HtmlDir + "/" + n1 + ".html", HtmlDir + "/" + n2 + ".html";
    if h1 == h2 {
      assert |n1| == |n2|;
      assert n1 == h1[5..5 + |n1|] && n2 == h2[5..5 + |n2|];
    }
    var m1, m2 := MarkdownDir + "/" + n1 + ".md", MarkdownDir + "/" + n2 + ".md";
    if m1 == m2 {
      assert |n1| == |n2|;
      assert n1 == m1[9..9 + |n1|] && n2 == m2[9..9 + |n2|];
    }
  }
}
