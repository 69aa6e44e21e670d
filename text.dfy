/**
 * Whitespace cleaning of page titles and descriptions (`WebsiteCrawler.clean_text`).
 *
 * `clean_text` replaces CR and LF by spaces, rewrites every run of whitespace to one
 * space with `re.sub(r"\s+", " ", ...)` and then calls `str.strip()`. Each step is
 * modelled as it is written; the reference definition beside it is Python's
 * `" ".join(text.split())`, and the lemmas prove the two equal and derive from that
 * the shape of the result and its idempotence.
 */
module Text {

  /** Python's `str.isspace()`, which is also what `\s` matches in a `str` regex and
      what `str.strip()` and `str.split()` remove. */
  predicate IsSpace(c: char) {
    c == ' ' || ('\t' <= c <= '\r') || ('\U{1C}' <= c <= '\U{1F}')
    || c == '\U{85}' || c == '\U{A0}' || c == '\U{1680}'
    || ('\U{2000}' <= c <= '\U{200A}')
    || c == '\U{2028}' || c == '\U{2029}' || c == '\U{202F}' || c == '\U{205F}' || c == '\U{3000}'
  }

  predicate NoSpace(s: string) {
    forall i :: 0 <= i < |s| ==> !IsSpace(s[i])
  }

  predicate AllSpace(s: string) {
    forall i :: 0 <= i < |s| ==> IsSpace(s[i])
  }

  /** A cleaned string: whitespace only as single plain spaces between other characters. */
  predicate IsClean(t: string) {
    && (forall i :: 0 <= i < |t| && IsSpace(t[i]) ==> t[i] == ' ')
    && (forall i :: 0 < i < |t| && IsSpace(t[i]) ==> !IsSpace(t[i - 1]))
    && (t != [] ==> !IsSpace(t[0]) && !IsSpace(t[|t| - 1]))
  }

  /** `s.replace(old, new)` for one-character arguments. */
  function ReplaceChar(s: string, from: char, to: char): (r: string)
    ensures |r| == |s|
    ensures forall i :: 0 <= i < |s| ==> r[i] == (if s[i] == from then to else s[i])
  {
    if s == [] then [] else [if s[0] == from then to else s[0]] + ReplaceChar(s[1..], from, to)
  }

  /** `s.lstrip()`: drops the leading whitespace of `s` (see LStripIsSuffix). */
  function LStrip(s: string): (r: string)
    ensures |r| <= |s|
    ensures r == [] || !IsSpace(r[0])
  {
    if s != [] && IsSpace(s[0]) then LStrip(s[1..]) else s
  }

  /** `s.rstrip()`: drops the trailing whitespace of `s` (see RStripIsPrefix). */
  function RStrip(s: string): (r: string)
    ensures |r| <= |s|
    ensures r == [] || !IsSpace(r[|r| - 1])
  {
    if s != [] && IsSpace(s[|s| - 1]) then RStrip(s[..|s| - 1]) else s
  }

  /** `s.strip()`. */
  function Strip(s: string): string {
    RStrip(LStrip(s))
  }

  /** `re.sub(r"\s+", " ", s)`: every maximal run of whitespace becomes one space. */
  function CollapseSpaces(s: string): string
    decreases |s|
  {
    if s == [] then []
    else if IsSpace(s[0]) then " " + CollapseSpaces(LStrip(s))
    else [s[0]] + CollapseSpaces(s[1..])
  }

  /** `WebsiteCrawler.clean_text`. */
  function CleanText(text: string): string {
    if text == [] then []
    else
      var noBreaks := ReplaceChar(ReplaceChar(text, '\r', ' '), '\n', ' ');
      Strip(CollapseSpaces(noBreaks))
  }

  // ----- the reference definition: " ".join(s.split()) -----

  /** The leading run of non-whitespace characters of `s` (see WordIsLeadingRun). */
  function Word(s: string): (w: string)
    ensures |w| <= |s|
    ensures s != [] && !IsSpace(s[0]) ==> w != []
  {
    if s != [] && !IsSpace(s[0]) then [s[0]] + Word(s[1..]) else []
  }

  /** Python's `s.split()` with no argument. */
  function Words(s: string): (ws: seq<string>)
    decreases |s|
  {
    var t := LStrip(s);
    if t == [] then []
    else
      var w := Word(t);
      [w] + Words(t[|w|..])
  }

  /** Python's `" ".join(ws)`. */
  function JoinWords(ws: seq<string>): string {
    if ws == [] then []
    else if |ws| == 1 then ws[0]
    else ws[0] + " " + JoinWords(ws[1..])
  }

  // ----- lemmas -----

  lemma {:induction false} LStripIsSuffix(s: string)
    ensures LStrip(s) == s[|s| - |LStrip(s)|..]
    ensures AllSpace(s[..|s| - |LStrip(s)|])
    decreases |s|
  {
    if s != [] && IsSpace(s[0]) {
      LStripIsSuffix(s[1..]);
      var k := |s| - |LStrip(s)|;
      assert s[1..][..k - 1] == s[1..k];
    } else {
      assert s[..0] == [];
    }
  }

  lemma {:induction false} RStripIsPrefix(s: string)
    ensures RStrip(s) == s[..|RStrip(s)|]
    ensures AllSpace(s[|RStrip(s)|..])
    decreases |s|
  {
    if s != [] && IsSpace(s[|s| - 1]) {
      var s' := s[..|s| - 1];
      RStripIsPrefix(s');
      var k := |RStrip(s)|;
      assert s'[..k] == s[..k];
      assert s[k..] == s'[k..] + [s[|s| - 1]];
    } else {
      assert s[|s|..] == [];
    }
  }

  lemma {:induction false} WordIsLeadingRun(s: string)
    ensures Word(s) == s[..|Word(s)|]
    ensures NoSpace(Word(s))
    ensures |Word(s)| < |s| ==> IsSpace(s[|Word(s)|])
    decreases |s|
  {
    if s != [] && !IsSpace(s[0]) {
      WordIsLeadingRun(s[1..]);
      assert Word(s) == [s[0]] + Word(s[1..]);
    }
  }

  /** Every element of `s.split()` is a non-empty run of non-whitespace characters. */
  lemma {:induction false} WordsAreWords(s: string)
    ensures forall k :: 0 <= k < |Words(s)| ==> Words(s)[k] != [] && NoSpace(Words(s)[k])
    decreases |s|
  {
    var t := LStrip(s);
    if t != [] {
      var w := Word(t);
      WordIsLeadingRun(t);
      WordsAreWords(t[|w|..]);
      assert Words(s) == [w] + Words(t[|w|..]);
    }
  }

  lemma {:induction false} LStripIdempotent(s: string)
    ensures LStrip(LStrip(s)) == LStrip(s)
  {
  }

  lemma WordsOfLStrip(s: string)
    ensures Words(LStrip(s)) == Words(s)
  {
    LStripIdempotent(s);
  }

  /** Collapsing never touches a leading word: it is copied and the rest is collapsed. */
  lemma {:induction false} CollapseAfterWord(t: string)
    ensures CollapseSpaces(t) == Word(t) + CollapseSpaces(t[|Word(t)|..])
    decreases |t|
  {
    if t != [] && !IsSpace(t[0]) {
      var t' := t[1..];
      CollapseAfterWord(t');
      var x := CollapseSpaces(t'[|Word(t')|..]);
      assert t'[|Word(t')|..] == t[|Word(t)|..];
      assert [t[0]] + (Word(t') + x) == ([t[0]] + Word(t')) + x;
    } else {
      assert t[0..] == t;
    }
  }

  lemma LastOfAllSpace(s: string)
    requires s != [] && LStrip(s) == []
    ensures IsSpace(s[|s| - 1])
  {
    assert s[..|s|] == s;
  }

  lemma ConcatAssoc(a: string, b: string, c: string, d: string)
    ensures a + (b + (c + d)) == (a + b + c) + d
  {
  }

  lemma JoinWordsCons(w: string, ws: seq<string>)
    requires ws != []
    ensures JoinWords([w] + ws) == w + " " + JoinWords(ws)
  {
    assert ([w] + ws)[1..] == ws;
  }

  /** For a string not starting with whitespace, collapsing gives the joined words,
      followed by one space when the string ends in whitespace. */
  lemma {:induction false} CollapseOfStripped(t: string)
    requires t == [] || !IsSpace(t[0])
    ensures CollapseSpaces(t)
         == JoinWords(Words(t)) + (if t != [] && IsSpace(t[|t| - 1]) then " " else [])
    decreases |t|
  {
    if t != [] {
      var w := Word(t);
      var rest := t[|w|..];
      CollapseAfterWord(t);
      WordIsLeadingRun(t);
      assert LStrip(t) == t;
      assert Words(t) == [w] + Words(rest);
      if rest == [] {
        assert t == w;
        assert Words(rest) == [];
        assert JoinWords([w]) == w;
      } else {
        assert rest[0] == t[|w|];
        var u := LStrip(rest);
        CollapseOfLeadingSpace(rest);
        LStripIsSuffix(rest);
        WordsOfLStrip(rest);
        CollapseOfStripped(u);
        var trail: string := if IsSpace(t[|t| - 1]) then " " else [];
        if u == [] {
          LastOfAllSpace(rest);
          assert t[|t| - 1] == rest[|rest| - 1];
          assert Words(u) == [];
          assert JoinWords([w]) == w;
          assert CollapseSpaces(t) == w + " ";
        } else {
          var j := JoinWords(Words(u));
          assert u[|u| - 1] == t[|t| - 1];
          LStripIdempotent(rest);
          assert Words(u) != [];
          assert CollapseSpaces(u) == j + trail;
          JoinWordsCons(w, Words(u));
          ConcatAssoc(w, " ", j, trail);
        }
      }
    }
  }

  lemma {:induction false} JoinWordsEnds(ws: seq<string>)
    requires forall k :: 0 <= k < |ws| ==> ws[k] != [] && NoSpace(ws[k])
    ensures ws == [] <==> JoinWords(ws) == []
    ensures JoinWords(ws) != [] ==> !IsSpace(JoinWords(ws)[0]) && !IsSpace(JoinWords(ws)[|JoinWords(ws)| - 1])
  {
    if |ws| > 1 {
      JoinWordsEnds(ws[1..]);
    }
  }

  lemma {:induction false} LStripSpacesThen(x: string, y: string)
    requires AllSpace(x)
    requires y == [] || !IsSpace(y[0])
    ensures LStrip(x + y) == y
    decreases |x|
  {
    if x != [] {
      assert (x + y)[1..] == x[1..] + y;
      LStripSpacesThen(x[1..], y);
    } else {
      assert x + y == y;
    }
  }

  lemma {:induction false} RStripThenSpaces(y: string, z: string)
    requires AllSpace(z)
    requires y == [] || !IsSpace(y[|y| - 1])
    ensures RStrip(y + z) == y
    decreases |z|
  {
    if z != [] {
      assert (y + z)[..|y + z| - 1] == y + z[..|z| - 1];
      RStripThenSpaces(y, z[..|z| - 1]);
    } else {
      assert y + z == y;
    }
  }

  lemma SingleSpace()
    ensures AllSpace(" ") && LStrip(" ") == []
  {
  }

  lemma WordsEmpty(s: string)
    ensures Words(s) == [] <==> LStrip(s) == []
  {
  }

  lemma CollapseOfLeadingSpace(s: string)
    requires s != [] && IsSpace(s[0])
    ensures CollapseSpaces(s) == " " + CollapseSpaces(LStrip(s))
  {
  }

  /** The core of `clean_text`: stripping the collapsed string leaves the joined words. */
  lemma StripCollapseIsJoinedWords(s: string)
    ensures Strip(CollapseSpaces(s)) == JoinWords(Words(s))
  {
    var u := LStrip(s);
    var ws := Words(s);
    var j := JoinWords(ws);
    WordsAreWords(s);
    WordsOfLStrip(s);
    CollapseOfStripped(u);
    JoinWordsEnds(ws);
    WordsEmpty(s);
    var trail: string := if u != [] && IsSpace(u[|u| - 1]) then " " else [];
    assert CollapseSpaces(u) == j + trail;
    if j == [] {
      assert u == [];
      if s != [] && IsSpace(s[0]) {
        CollapseOfLeadingSpace(s);
        assert CollapseSpaces(s) == " ";
        SingleSpace();
      } else {
        assert s == [];
      }
    } else {
      assert (j + trail)[0] == j[0];
      assert AllSpace(trail);
      if s != [] && IsSpace(s[0]) {
        CollapseOfLeadingSpace(s);
        SingleSpace();
        LStripSpacesThen(" ", j + trail);
      } else {
        assert u == s;
        LStripSpacesThen([], j + trail);
        assert [] + (j + trail) == j + trail;
      }
      assert LStrip(CollapseSpaces(s)) == j + trail;
      RStripThenSpaces(j, trail);
    }
  }

  lemma ReplaceCharSuffix(s: string, from: char, to: char, k: nat)
    requires k <= |s|
    ensures ReplaceChar(s, from, to)[k..] == ReplaceChar(s[k..], from, to)
  {
  }

  lemma {:induction false} LStripOfReplaceSpace(s: string, from: char, to: char)
    requires IsSpace(from) && IsSpace(to)
    ensures LStrip(ReplaceChar(s, from, to)) == ReplaceChar(LStrip(s), from, to)
    decreases |s|
  {
    if s != [] {
      ReplaceCharSuffix(s, from, to, 1);
      LStripOfReplaceSpace(s[1..], from, to);
    }
  }

  lemma {:induction false} WordOfReplaceSpace(s: string, from: char, to: char)
    requires IsSpace(from) && IsSpace(to)
    ensures Word(ReplaceChar(s, from, to)) == Word(s)
    decreases |s|
  {
    if s != [] {
      ReplaceCharSuffix(s, from, to, 1);
      WordOfReplaceSpace(s[1..], from, to);
    }
  }

  /** Replacing one whitespace character by another does not change the words. */
  lemma {:induction false} WordsOfReplaceSpace(s: string, from: char, to: char)
    requires IsSpace(from) && IsSpace(to)
    ensures Words(ReplaceChar(s, from, to)) == Words(s)
    decreases |s|
  {
    var t := LStrip(s);
    LStripOfReplaceSpace(s, from, to);
    if t != [] {
      var w := Word(t);
      WordOfReplaceSpace(t, from, to);
      ReplaceCharSuffix(t, from, to, |w|);
      WordsOfReplaceSpace(t[|w|..], from, to);
    }
  }

  lemma {:induction false} WordOfPrefix(s: string, w: string)
    requires |w| <= |s| && s[..|w|] == w && NoSpace(w)
    requires |w| < |s| ==> IsSpace(s[|w|])
    ensures Word(s) == w
    decreases |w|
  {
    if w != [] {
      WordOfPrefix(s[1..], w[1..]);
    }
  }

  /** `clean_text` equals `" ".join(text.split())`. */
  lemma CleanTextIsJoinedWords(text: string)
    ensures CleanText(text) == JoinWords(Words(text))
  {
    if text != [] {
      var r1 := ReplaceChar(text, '\r', ' ');
      var r2 := ReplaceChar(r1, '\n', ' ');
      StripCollapseIsJoinedWords(r2);
      WordsOfReplaceSpace(text, '\r', ' ');
      WordsOfReplaceSpace(r1, '\n', ' ');
    }
  }

  /** Joining words with single spaces gives a clean string. */
  lemma {:induction false} JoinWordsIsClean(ws: seq<string>)
    requires forall k :: 0 <= k < |ws| ==> ws[k] != [] && NoSpace(ws[k])
    ensures IsClean(JoinWords(ws))
  {
    JoinWordsEnds(ws);
    if |ws| > 1 {
      var w := ws[0];
      var j := JoinWords(ws[1..]);
      JoinWordsIsClean(ws[1..]);
      JoinWordsEnds(ws[1..]);
      var t := w + " " + j;
      assert JoinWords(ws) == t;
      forall i | 0 <= i < |t| && IsSpace(t[i])
        ensures t[i] == ' ' && (i > 0 ==> !IsSpace(t[i - 1]))
      {
        if i > |w| {
          assert t[i] == j[i - |w| - 1];
          if i - 1 > |w| {
            assert t[i - 1] == j[i - |w| - 2];
          }
        }
      }
    }
  }

  /** Splitting what was joined gives back the words. */
  lemma {:induction false} WordsOfJoinWords(ws: seq<string>)
    requires forall k :: 0 <= k < |ws| ==> ws[k] != [] && NoSpace(ws[k])
    ensures Words(JoinWords(ws)) == ws
  {
    if ws != [] {
      var w := ws[0];
      WordOfPrefix(w, w);
      if |ws| == 1 {
        WordsStep(w);
        assert w[|w|..] == [];
      } else {
        var j := JoinWords(ws[1..]);
        var t := w + " " + j;
        assert JoinWords(ws) == t;
        assert t[..|w|] == w && t[|w|] == ' ' && t[0] == w[0];
        WordOfPrefix(t, w);
        WordsAtFirstSpace(t);
        assert t[|w| + 1..] == j;
        WordsOfJoinWords(ws[1..]);
        assert ws == [w] + ws[1..];
      }
    }
  }

  /** A clean string with more than one word is its first word, one space, and a clean
      rest. */
  lemma CleanSplitsAtFirstSpace(t: string)
    requires IsClean(t) && t != [] && |Word(t)| < |t|
    ensures var w := Word(t); var rest := t[|w| + 1..];
      && rest != [] && !IsSpace(rest[0]) && IsClean(rest)
      && t[|w|..] == " " + rest
  {
    var w := Word(t);
    WordIsLeadingRun(t);
    var rest := t[|w| + 1..];
    assert t[|w|] == ' ';
    assert |w| + 1 < |t| && !IsSpace(t[|w| + 1]);
    forall i | 0 < i < |rest| && IsSpace(rest[i]) ensures !IsSpace(rest[i - 1]) {
      assert rest[i] == t[|w| + 1 + i] && rest[i - 1] == t[|w| + i];
    }
  }

  lemma SplitAround(t: string, i: nat)
    requires i < |t|
    ensures t[i..] == [t[i]] + t[i + 1..]
    ensures t == t[..i] + [t[i]] + t[i + 1..]
  {
  }

  /** `s.split()` of a string that starts with a word: that word, then the words of what
      follows it. */
  lemma WordsStep(t: string)
    requires t != [] && !IsSpace(t[0])
    ensures Words(t) == [Word(t)] + Words(t[|Word(t)|..])
  {
    assert LStrip(t) == t;
  }

  /** A leading single space does not change the words. */
  lemma WordsAfterSpace(rest: string)
    ensures Words(" " + rest) == Words(rest)
  {
    assert (" " + rest)[1..] == rest;
    assert LStrip(" " + rest) == LStrip(rest);
  }

  /** The words of a string whose first word is followed by a plain space are that word
      and the words of the rest. */
  lemma WordsAtFirstSpace(t: string)
    requires t != [] && !IsSpace(t[0]) && |Word(t)| < |t| && t[|Word(t)|] == ' '
    ensures var w := Word(t); var rest := t[|w| + 1..];
      && t == w + " " + rest
      && Words(t) == [w] + Words(rest)
  {
    var w := Word(t);
    WordIsLeadingRun(t);
    SplitAround(t, |w|);
    WordsStep(t);
    WordsAfterSpace(t[|w| + 1..]);
  }

  /** A clean string is made of its words joined by single spaces. */
  lemma {:induction false} CleanIsJoinedWords(t: string)
    requires IsClean(t)
    ensures JoinWords(Words(t)) == t
    decreases |t|
  {
    if t != [] {
      assert LStrip(t) == t;
      var w := Word(t);
      WordIsLeadingRun(t);
      if |w| < |t| {
        CleanSplitsAtFirstSpace(t);
        WordsAtFirstSpace(t);
        var rest := t[|w| + 1..];
        CleanIsJoinedWords(rest);
        WordsAreWords(rest);
        JoinWordsEnds(Words(rest));
        assert ([w] + Words(rest))[1..] == Words(rest);
      } else {
        assert w == t;
        assert t[|w|..] == [];
        assert Words(t) == [w];
      }
    }
  }

  /** `clean_text` returns "" on empty input, and otherwise a clean string: no CR or LF,
      no leading or trailing whitespace and no two adjacent whitespace characters. */
  lemma CleanTextIsClean(text: string)
    ensures text == [] ==> CleanText(text) == []
    ensures IsClean(CleanText(text))
    ensures '\r' !in CleanText(text) && '\n' !in CleanText(text)
  {
    CleanTextIsJoinedWords(text);
    WordsAreWords(text);
    JoinWordsIsClean(Words(text));
  }

  /** Cleaning keeps the words of the text, in order. */
  lemma CleanTextKeepsWords(text: string)
    ensures Words(CleanText(text)) == Words(text)
  {
    CleanTextIsJoinedWords(text);
    WordsAreWords(text);
    WordsOfJoinWords(Words(text));
  }

  /** Already-clean text is left unchanged. */
  lemma CleanTextOfClean(t: string)
    requires IsClean(t)
    ensures CleanText(t) == t
  {
    CleanTextIsJoinedWords(t);
    CleanIsJoinedWords(t);
  }

  /** `clean_text` is idempotent. */
  lemma CleanTextIdempotent(text: string)
    ensures CleanText(CleanText(text)) == CleanText(text)
  {
    CleanTextIsClean(text);
    CleanTextOfClean(CleanText(text));
  }
}
