/**
 * The two URL facts the crawler relies on: the string-prefix test it uses as its
 * same-site filter, and `urlparse(url).path`.
 *
 * `UrlPath` follows CPython's `urlsplit`/`urlparse` step by step: a scheme is split off at
 * the first ':' when everything before it is a scheme character and the first one is a
 * letter; a `//netloc` part runs up to the first '/', '?' or '#'; then the `#fragment`,
 * the `?query` and, for the schemes listed in `uses_params`, the `;params` of the last
 * path segment are cut off. What is left is the path.
 */
module Urls {

  /** Python's `s.startswith(prefix)`. */
  predicate StartsWith(s: string, prefix: string) {
    |prefix| <= |s| && s[..|prefix|] == prefix
  }

  /** Python's `s.find(c, start)`, with `|s|` standing for Python's -1. */
  function FindFrom(s: string, c: char, start: nat): (i: nat)
    requires start <= |s|
    ensures start <= i <= |s|
    ensures i < |s| ==> s[i] == c
    ensures forall k :: start <= k < i ==> s[k] != c
    decreases |s| - start
  {
    if start == |s| || s[start] == c then start else FindFrom(s, c, start + 1)
  }

  /** Python's `s.rfind(c)` when `c` occurs in `s`. */
  function RFind(s: string, c: char): (i: nat)
    requires c in s
    ensures i < |s| && s[i] == c
    ensures forall k :: i < k < |s| ==> s[k] != c
  {
    if s[|s| - 1] == c then |s| - 1 else RFind(s[..|s| - 1], c)
  }

  /** Where `_splitnetloc` ends the netloc: the first '/', '?' or '#' at or after `start`. */
  function NetlocEnd(s: string, start: nat): (i: nat)
    requires start <= |s|
    ensures start <= i <= |s|
    ensures i < |s| ==> s[i] == '/' || s[i] == '?' || s[i] == '#'
    ensures forall k :: start <= k < i ==> s[k] != '/' && s[k] != '?' && s[k] != '#'
    decreases |s| - start
  {
    if start == |s| || s[start] == '/' || s[start] == '?' || s[start] == '#' then start
    else NetlocEnd(s, start + 1)
  }

  predicate IsAsciiLetter(c: char) {
    'a' <= c <= 'z' || 'A' <= c <= 'Z'
  }

  /** `urllib.parse.scheme_chars`. */
  predicate IsSchemeChar(c: char) {
    IsAsciiLetter(c) || '0' <= c <= '9' || c == '+' || c == '-' || c == '.'
  }

  function AsciiLower(s: string): (r: string)
    ensures |r| == |s|
  {
    seq(|s|, i requires 0 <= i < |s| => if 'A' <= s[i] <= 'Z' then (s[i] as int + 32) as char else s[i])
  }

  /** `urllib.parse.uses_params`: the schemes whose last path segment may carry `;params`. */
  const UsesParams: set<string> :=
    {"", "ftp", "hdl", "prospero", "http", "imap", "https", "shttp", "rtsp", "rtsps",
     "rtspu", "sip", "sips", "mms", "sftp", "tel"}

  /** The scheme split of `urlsplit`: the lower-cased scheme and what follows its ':'. */
  function SplitScheme(url: string): (string, string) {
    var i := FindFrom(url, ':', 0);
    if 0 < i < |url| && IsAsciiLetter(url[0]) && forall k :: 0 <= k < i ==> IsSchemeChar(url[k])
    then (AsciiLower(url[..i]), url[i + 1..])
    else ("", url)
  }

  /** `urllib.parse._splitparams(path)[0]`: cuts the `;params` off the last segment. */
  function WithoutParams(path: string): string {
    var from := if '/' in path then RFind(path, '/') else 0;
    path[..FindFrom(path, ';', from)]
  }

  /** What `urlparse` keeps as the path once the scheme and the netloc are split off. */
  function PathPart(scheme: string, afterNetloc: string): (path: string) {
    var noFragment := afterNetloc[..FindFrom(afterNetloc, '#', 0)];
    var noQuery := noFragment[..FindFrom(noFragment, '?', 0)];
    if scheme in UsesParams && ';' in noQuery then WithoutParams(noQuery) else noQuery
  }

  /** `urlparse(url).path`. */
  function UrlPath(url: string): string {
    var (scheme, rest) := SplitScheme(url);
    var afterNetloc := if StartsWith(rest, "//") then rest[NetlocEnd(rest, 2)..] else rest;
    PathPart(scheme, afterNetloc)
  }

  // ----- lemmas -----

  /** A scheme with no upper-case letter is kept as it is. */
  lemma AsciiLowerOfLower(s: string)
    requires forall k :: 0 <= k < |s| ==> !('A' <= s[k] <= 'Z')
    ensures AsciiLower(s) == s
  {
  }

  lemma PathPartIsPrefix(scheme: string, s: string)
    ensures |PathPart(scheme, s)| <= |s| && PathPart(scheme, s) == s[..|PathPart(scheme, s)|]
    ensures '?' !in PathPart(scheme, s) && '#' !in PathPart(scheme, s)
  {
    var noFragment := s[..FindFrom(s, '#', 0)];
    var noQuery := noFragment[..FindFrom(noFragment, '?', 0)];
    assert noQuery == s[..|noQuery|];
    if scheme in UsesParams && ';' in noQuery {
      var r := WithoutParams(noQuery);
      assert r == noQuery[..|r|];
    }
  }

  /** A path never keeps a query or a fragment. */
  lemma UrlPathHasNoQueryOrFragment(url: string)
    ensures '?' !in UrlPath(url) && '#' !in UrlPath(url)
  {
    var (scheme, rest) := SplitScheme(url);
    var afterNetloc := if StartsWith(rest, "//") then rest[NetlocEnd(rest, 2)..] else rest;
    PathPartIsPrefix(scheme, afterNetloc);
  }

  /** A part with no '?', '#' or ';' is kept whole as the path. */
  lemma PathPartOfPlain(scheme: string, s: string)
    requires '?' !in s && '#' !in s && ';' !in s
    ensures PathPart(scheme, s) == s
  {
    assert FindFrom(s, '#', 0) == |s|;
    assert s[..|s|] == s;
    assert FindFrom(s, '?', 0) == |s|;
  }

  /** A string that is already a plain path (one leading '/', no '?', '#' or ';')
      is its own path. */
  lemma UrlPathOfPlainPath(p: string)
    requires p != [] && p[0] == '/' && (|p| == 1 || p[1] != '/')
    requires '?' !in p && '#' !in p && ';' !in p
    ensures UrlPath(p) == p
  {
    assert FindFrom(p, ':', 0) == |p| || !IsAsciiLetter(p[0]);
    assert SplitScheme(p) == ("", p);
    assert !StartsWith(p, "//");
    assert FindFrom(p, '#', 0) == |p|;
    assert p[..|p|] == p;
    assert FindFrom(p, '?', 0) == |p|;
  }

  /** After an origin `scheme://host`, the path of the URL is what `urlparse` keeps of the
      part after the host, whatever the host is. */
  lemma UrlPathAfterOrigin(scheme: string, host: string, rest: string)
    requires scheme != [] && IsAsciiLetter(scheme[0])
    requires forall k :: 0 <= k < |scheme| ==> IsSchemeChar(scheme[k])
    requires forall k :: 0 <= k < |host| ==> host[k] != '/' && host[k] != '?' && host[k] != '#'
    requires rest == [] || rest[0] == '/' || rest[0] == '?' || rest[0] == '#'
    ensures UrlPath(scheme + "://" + host + rest) == PathPart(AsciiLower(scheme), rest)
  {
    var url := scheme + "://" + host + rest;
    var i := FindFrom(url, ':', 0);
    assert url[|scheme|] == ':';
    assert forall k :: 0 <= k < |scheme| ==> url[k] == scheme[k];
    assert i == |scheme|;
    assert url[..i] == scheme;
    var after := url[i + 1..];
    assert after == "//" + host + rest;
    assert SplitScheme(url) == (AsciiLower(scheme), after);
    assert StartsWith(after, "//");
    var e := NetlocEnd(after, 2);
    assert e == 2 + |host| by {
      forall k | 2 <= k < 2 + |host| ensures after[k] == host[k - 2] { }
      assert rest != [] ==> after[2 + |host|] == rest[0];
    }
    assert after[e..] == rest;
  }
}
