/**
 * The parts of java.lang.String and java.util.StringTokenizer that the
 * interactions pane and the source-root lookup rely on: trim, startsWith,
 * endsWith, indexOf and tokenizing on the default delimiters.
 */
module JavaText {

  /** String.trim() removes every character whose code is at most that of the space. */
  predicate IsTrimmed(c: char) {
    c <= ' '
  }

  predicate StartsWith(s: string, prefix: string) {
    |prefix| <= |s| && s[..|prefix|] == prefix
  }

  predicate EndsWith(s: string, suffix: string) {
    |suffix| <= |s| && s[|s| - |suffix|..] == suffix
  }

  /** Drops the leading trimmable characters: the result is the suffix that starts at the first other character. */
  function TrimStart(s: string): (r: string)
    ensures |r| <= |s| && r == s[|s| - |r|..]
    ensures forall k :: 0 <= k < |s| - |r| ==> IsTrimmed(s[k])
    ensures r != [] ==> !IsTrimmed(r[0])
  {
    if s != [] && IsTrimmed(s[0]) then TrimStart(s[1..]) else s
  }

  /** Drops the trailing trimmable characters: the result is the prefix that ends at the last other character. */
  function TrimEnd(s: string): (r: string)
    ensures |r| <= |s| && r == s[..|r|]
    ensures forall k :: |r| <= k < |s| ==> IsTrimmed(s[k])
    ensures r != [] ==> !IsTrimmed(r[|r| - 1])
  {
    if s != [] && IsTrimmed(s[|s| - 1]) then TrimEnd(s[..|s| - 1]) else s
  }

  /** String.trim(). */
  function Trim(s: string): (r: string)
    ensures |r| <= |s|
    ensures r != [] ==> !IsTrimmed(r[0]) && !IsTrimmed(r[|r| - 1])
  {
    TrimEnd(TrimStart(s))
  }

  /** Trimming recovers a text whose ends are not blank from any blank padding around it. */
  lemma TrimPadded(lead: string, s: string, trail: string)
    requires forall k :: 0 <= k < |lead| ==> IsTrimmed(lead[k])
    requires forall k :: 0 <= k < |trail| ==> IsTrimmed(trail[k])
    requires s != [] ==> !IsTrimmed(s[0]) && !IsTrimmed(s[|s| - 1])
    ensures Trim(lead + s + trail) == s
  {
    if s == [] {
      var blank := lead + trail;
      assert lead + s + trail == blank + [];
      assert forall k :: 0 <= k < |blank| ==> IsTrimmed(blank[k]) by {
        assert forall k :: 0 <= k < |lead| ==> blank[k] == lead[k];
        assert forall k :: |lead| <= k < |blank| ==> blank[k] == trail[k - |lead|];
      }
      TrimStartDropsLead(blank, []);
    } else {
      assert lead + s + trail == lead + (s + trail);
      assert (s + trail)[0] == s[0];
      TrimStartDropsLead(lead, s + trail);
      TrimEndDropsTrail(s, trail);
    }
  }

  /** TrimStart removes exactly a blank lead in front of a text that does not start blank. */
  lemma TrimStartDropsLead(lead: string, x: string)
    requires forall k :: 0 <= k < |lead| ==> IsTrimmed(lead[k])
    requires x != [] ==> !IsTrimmed(x[0])
    ensures TrimStart(lead + x) == x
  {
    var t := lead + x;
    var a := TrimStart(t);
    assert forall k :: 0 <= k < |lead| ==> t[k] == lead[k];
    assert x != [] ==> t[|lead|] == x[0];
    assert a != [] ==> a[0] == t[|t| - |a|];
    assert |a| == |x|;
    assert t[|lead|..] == x;
  }

  /** TrimEnd removes exactly a blank trail behind a text that does not end blank. */
  lemma TrimEndDropsTrail(x: string, trail: string)
    requires forall k :: 0 <= k < |trail| ==> IsTrimmed(trail[k])
    requires x != [] ==> !IsTrimmed(x[|x| - 1])
    ensures TrimEnd(x + trail) == x
  {
    var t := x + trail;
    var b := TrimEnd(t);
    assert forall k :: 0 <= k < |trail| ==> t[|x| + k] == trail[k];
    assert x != [] ==> t[|x| - 1] == x[|x| - 1];
    assert b != [] ==> b[|b| - 1] == t[|b| - 1];
    assert |b| == |x|;
    assert t[..|x|] == x;
  }

  /** Trimming twice is trimming once. */
  lemma TrimIdempotent(s: string)
    ensures Trim(Trim(s)) == Trim(s)
  {
    TrimPadded([], Trim(s), []);
    assert [] + Trim(s) + [] == Trim(s);
  }

  /** String.indexOf(c, from): the first position at or after from holding c, or -1. */
  function IndexOf(s: string, c: char, from: nat): (r: int)
    ensures r == -1 || (from <= r < |s| && s[r] == c)
    ensures forall k :: from <= k < |s| && (r == -1 || k < r) ==> s[k] != c
    decreases |s| - from
  {
    if from >= |s| then -1
    else if s[from] == c then from
    else IndexOf(s, c, from + 1)
  }

  /** The parts joined with a separator between neighbours. */
  function Join(parts: seq<string>, separator: string): string
    decreases |parts|
  {
    if |parts| == 0 then ""
    else if |parts| == 1 then parts[0]
    else parts[0] + separator + Join(parts[1..], separator)
  }

  /** The default delimiters of java.util.StringTokenizer: space, tab, newline, carriage return and form feed. */
  predicate IsDelimiter(c: char) {
    c == ' ' || c == '\t' || c == '\n' || c == '\r' || c == '\U{C}'
  }

  /** A token the tokenizer can return: non-empty and free of delimiters. */
  predicate IsWord(w: string) {
    w != [] && forall k :: 0 <= k < |w| ==> !IsDelimiter(w[k])
  }

  /** The length of the run of non-delimiters at the start of s. */
  function WordLength(s: string): (n: nat)
    ensures n <= |s|
    ensures forall k :: 0 <= k < n ==> !IsDelimiter(s[k])
    ensures n < |s| ==> IsDelimiter(s[n])
  {
    if s == [] || IsDelimiter(s[0]) then 0 else 1 + WordLength(s[1..])
  }

  /** The tokens a default StringTokenizer returns from s, in order: the maximal runs of non-delimiters. */
  function Tokenize(s: string): (tokens: seq<string>)
    ensures forall i :: 0 <= i < |tokens| ==> IsWord(tokens[i])
    decreases |s|
  {
    if s == [] then []
    else if IsDelimiter(s[0]) then Tokenize(s[1..])
    else
      var n := WordLength(s);
      [s[..n]] + Tokenize(s[n..])
  }

  /** Nothing but delimiters yields no token. */
  lemma {:induction false} TokenizeBlanks(s: string)
    requires forall k :: 0 <= k < |s| ==> IsDelimiter(s[k])
    ensures Tokenize(s) == []
    decreases |s|
  {
    if s != [] {
      TokenizeBlanks(s[1..]);
    }
  }

  /** A word followed by nothing or by a delimiter comes out as one token. */
  lemma {:induction false} TokenizeWordFirst(w: string, rest: string)
    requires IsWord(w)
    requires rest == [] || IsDelimiter(rest[0])
    ensures Tokenize(w + rest) == [w] + Tokenize(rest)
  {
    var s := w + rest;
    var n := WordLength(s);
    assert s[0] == w[0];
    assert forall k :: 0 <= k < |w| ==> s[k] == w[k];
    assert |w| < |s| ==> s[|w|] == rest[0];
    assert n == |w|;
    assert s[..n] == w;
    assert s[n..] == rest;
  }

  /** A non-empty run of delimiters, as may separate two tokens. */
  predicate IsBlankRun(g: string) {
    g != [] && forall k :: 0 <= k < |g| ==> IsDelimiter(g[k])
  }

  /** Words with a run of delimiters between neighbours: gaps[i] separates words[i] and words[i + 1]. */
  function Spaced(words: seq<string>, gaps: seq<string>): string
    requires |words| >= 1 && |gaps| + 1 == |words|
    decreases |words|
  {
    if |words| == 1 then words[0] else words[0] + gaps[0] + Spaced(words[1..], gaps[1..])
  }

  /** Leading delimiters are skipped: they never start or end a token. */
  lemma {:induction false} TokenizeSkipsBlanks(d: string, s: string)
    requires forall k :: 0 <= k < |d| ==> IsDelimiter(d[k])
    ensures Tokenize(d + s) == Tokenize(s)
    decreases |d|
  {
    if d != [] {
      assert (d + s)[0] == d[0];
      assert (d + s)[1..] == d[1..] + s;
      assert IsDelimiter((d + s)[0]);
      assert Tokenize(d + s) == Tokenize(d[1..] + s);
      TokenizeSkipsBlanks(d[1..], s);
    } else {
      assert d + s == s;
    }
  }

  /** Tokenizing words separated by any runs of delimiters gives the words back, in order. */
  lemma {:induction false} TokenizeSpaced(words: seq<string>, gaps: seq<string>)
    requires |words| >= 1 && |gaps| + 1 == |words|
    requires forall i :: 0 <= i < |words| ==> IsWord(words[i])
    requires forall i :: 0 <= i < |gaps| ==> IsBlankRun(gaps[i])
    ensures Tokenize(Spaced(words, gaps)) == words
    decreases |words|
  {
    if |words| == 1 {
      TokenizeWordFirst(words[0], []);
      assert words[0] + [] == words[0];
    } else {
      var tail := Spaced(words[1..], gaps[1..]);
      var gap := gaps[0];
      assert IsBlankRun(gap);
      assert (gap + tail)[0] == gap[0];
      TokenizeWordFirst(words[0], gap + tail);
      assert words[0] + gap + tail == words[0] + (gap + tail);
      TokenizeSkipsBlanks(gap, tail);
      TokenizeSpaced(words[1..], gaps[1..]);
      assert [words[0]] + words[1..] == words;
    }
  }

  /** The spaced text ends with the last word. */
  lemma {:induction false} SpacedLast(words: seq<string>, gaps: seq<string>)
    requires |words| >= 1 && |gaps| + 1 == |words|
    ensures var t := Spaced(words, gaps); var last := words[|words| - 1];
      |t| >= |last| && t[|t| - |last|..] == last
    decreases |words|
  {
    if |words| > 1 {
      SpacedLast(words[1..], gaps[1..]);
    }
  }
}
