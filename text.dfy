/** The string operations the scripts use: Python's `str.strip`, `str.lower`,
    `os.path.splitext`, `str.split(c)[0]`, and the regular-expression passes
    `\bWORD\b` (with IGNORECASE) and `\s+`, written out as recursive functions.
    Character classes are restricted to ASCII: `\s` and `str.isspace` are the
    ten ASCII whitespace characters, `\w` is `[A-Za-z0-9_]`, and case-insensitive
    matching folds only `A`-`Z`. */
module Text {

  /** `f.lower().endswith(".mp3")`: the audio files the scripts pick up. */
  predicate IsMp3(f: string) {
    |f| >= 4 && LowerStr(f)[|f| - 4..] == ".mp3"
  }

  /** ASCII whitespace as `str.isspace` and the `\s` class see it:
      tab, line feed, vertical tab, form feed, carriage return, the four
      separators U+001C to U+001F, and the space. */
  predicate IsSpace(c: char) {
    ('\t' <= c <= '\r') || ('\U{1C}' <= c <= '\U{1F}') || c == ' '
  }

  predicate IsAsciiLetter(c: char) {
    ('a' <= c <= 'z') || ('A' <= c <= 'Z')
  }

  predicate IsDigit(c: char) {
    '0' <= c <= '9'
  }

  /** The `\w` class. */
  predicate IsWordChar(c: char) {
    IsAsciiLetter(c) || IsDigit(c) || c == '_'
  }

  function Lower(c: char): (d: char)
    ensures 'A' <= c <= 'Z' ==> d as int == c as int + 32
    ensures !('A' <= c <= 'Z') ==> d == c
  {
    if 'A' <= c <= 'Z' then (c as int + 32) as char else c
  }

  /** `str.lower()`. */
  function LowerStr(s: string): (r: string)
    ensures |r| == |s|
    ensures forall k :: 0 <= k < |s| ==> r[k] == Lower(s[k])
  {
    seq(|s|, k requires 0 <= k < |s| => Lower(s[k]))
  }

  /** Lowering touches letters only: whitespace stays whitespace and
      nothing else becomes whitespace. */
  lemma LowerSpace(c: char)
    ensures IsSpace(Lower(c)) <==> IsSpace(c)
    ensures IsSpace(c) ==> Lower(c) == c
  {
  }

  lemma LowerTrimmed(s: string)
    requires Trimmed(s)
    ensures Trimmed(LowerStr(s))
  {
    if s != [] {
      LowerSpace(s[0]);
      LowerSpace(s[|s| - 1]);
    }
  }

  lemma LowerSingleSpaced(s: string)
    requires SingleSpaced(s)
    ensures SingleSpaced(LowerStr(s))
  {
    forall k | 0 <= k < |s| {
      LowerSpace(s[k]);
    }
  }

  // ---------------------------------------------------------------- strip

  function TrimStart(s: string): (r: string)
    ensures |r| <= |s| && r == s[|s| - |r|..]
    ensures forall k :: 0 <= k < |s| - |r| ==> IsSpace(s[k])
    ensures r != [] ==> !IsSpace(r[0])
  {
    if s != [] && IsSpace(s[0]) then
      var r := TrimStart(s[1..]);
      assert s[1..][|s| - 1 - |r|..] == s[|s| - |r|..];
      r
    else s
  }

  function TrimEnd(s: string): (r: string)
    ensures |r| <= |s| && r == s[..|r|]
    ensures forall k :: |r| <= k < |s| ==> IsSpace(s[k])
    ensures r != [] ==> !IsSpace(r[|r| - 1])
  {
    if s != [] && IsSpace(s[|s| - 1]) then TrimEnd(s[..|s| - 1]) else s
  }

  predicate AllSpace(s: string) {
    forall k :: 0 <= k < |s| ==> IsSpace(s[k])
  }

  /** Neither end of `t` is whitespace. */
  predicate Trimmed(t: string) {
    t != [] ==> !IsSpace(t[0]) && !IsSpace(t[|t| - 1])
  }

  /** `str.strip()` with no argument. */
  function Strip(s: string): (r: string)
    ensures Trimmed(r)
    ensures |r| <= |s|
  {
    TrimEnd(TrimStart(s))
  }

  /** `Strip` removes exactly the surrounding whitespace: whatever whitespace
      surrounds a trimmed text, stripping gives that text back. */
  lemma {:induction false} StripPadded(a: string, t: string, b: string)
    requires AllSpace(a) && AllSpace(b) && Trimmed(t)
    ensures Strip(a + t + b) == t
  {
    if t != [] {
      assert a + t + b == a + (t + b);
      StartOfPadded(a, t + b);
      EndOfPadded(t, b);
    }
  }

  lemma {:induction false} StartOfPadded(a: string, u: string)
    requires AllSpace(a)
    requires u != [] ==> !IsSpace(u[0])
    ensures TrimStart(a + u) == u
  {
    if a != [] {
      assert (a + u)[1..] == a[1..] + u;
      StartOfPadded(a[1..], u);
    }
  }

  lemma {:induction false} EndOfPadded(t: string, b: string)
    requires AllSpace(b)
    requires t != [] ==> !IsSpace(t[|t| - 1])
    ensures TrimEnd(t + b) == t
  {
    if b != [] {
      assert (t + b)[..|t + b| - 1] == t + b[..|b| - 1];
      EndOfPadded(t, b[..|b| - 1]);
    }
  }

  /** A text without surrounding whitespace is its own strip. */
  lemma StripTrimmed(s: string)
    requires Trimmed(s)
    ensures Strip(s) == s
  {
    assert [] + s + [] == s;
    StripPadded([], s, []);
  }

  /** Stripping leaves nothing exactly when the text is all whitespace. */
  lemma StripEmptyIff(s: string)
    ensures Strip(s) == [] <==> AllSpace(s)
  {
    assert Strip(s) == [] ==> TrimStart(s) == [];
  }

  /** Stripping is idempotent. */
  lemma StripIdempotent(s: string)
    ensures Strip(Strip(s)) == Strip(s)
  {
    var t := Strip(s);
    assert [] + t + [] == t;
    StripPadded([], t, []);
  }

  // ---------------------------------------------------------------- splitext

  /** `s.rfind(c)`: the last position of `c`, or -1. */
  function LastIndexOf(s: string, c: char): (i: int)
    ensures -1 <= i < |s|
    ensures i >= 0 ==> s[i] == c
    ensures forall k :: i < k < |s| ==> s[k] != c
  {
    if s == [] then -1
    else if s[|s| - 1] == c then |s| - 1
    else LastIndexOf(s[..|s| - 1], c)
  }

  /** Some character strictly between positions `lo` and `hi` is not a dot. */
  predicate HasNonDotBetween(p: string, lo: int, hi: int)
    requires -1 <= lo && hi <= |p|
  {
    exists k :: lo < k < hi && p[k] != '.'
  }

  /** `os.path.splitext` on POSIX: the extension starts at the last dot of the
      last path component, unless that component has only dots before it. */
  function SplitExt(p: string): (r: (string, string))
    ensures r.0 + r.1 == p
    ensures r.1 != [] ==> r.1[0] == '.' && '.' !in r.1[1..] && '/' !in r.1
  {
    var dot := LastIndexOf(p, '.');
    var sep := LastIndexOf(p, '/');
    if dot > sep && HasNonDotBetween(p, sep, dot) then
      assert p[..dot] + p[dot..] == p;
      (p[..dot], p[dot..])
    else
      assert p + [] == p;
      (p, [])
  }

  /** `splitext` gives back a name's stem and extension whenever the stem's last
      path component has a character other than a dot. */
  lemma SplitExtOfName(stem: string, ext: string)
    requires |ext| >= 1 && ext[0] == '.' && '.' !in ext[1..] && '/' !in ext
    requires exists k :: LastIndexOf(stem, '/') < k < |stem| && stem[k] != '.'
    ensures SplitExt(stem + ext) == (stem, ext)
  {
    var p := stem + ext;
    LastAfterStem(stem, ext, '.');
    LastAfterStem(stem, ext, '/');
    var k :| LastIndexOf(stem, '/') < k < |stem| && stem[k] != '.';
    assert p[k] == stem[k];
    assert p[..|stem|] == stem && p[|stem|..] == ext;
  }

  lemma {:induction false} LastAfterStem(stem: string, ext: string, c: char)
    requires ext != [] && c !in ext[1..]
    ensures LastIndexOf(stem + ext, c) ==
      (if ext[0] == c then |stem| else LastIndexOf(stem, c))
  {
    var p := stem + ext;
    if |ext| == 1 {
      if ext[0] != c {
        assert p[..|p| - 1] == stem;
      }
    } else {
      assert p[..|p| - 1] == stem + ext[..|ext| - 1];
      assert ext[..|ext| - 1][1..] == ext[1..|ext| - 1];
      assert p[|p| - 1] == ext[|ext| - 1] && ext[|ext| - 1] in ext[1..];
      LastAfterStem(stem, ext[..|ext| - 1], c);
    }
  }

  // ---------------------------------------------------------------- split

  /** `s.split(c)[0]`: the text before the first `c`, or all of `s`. */
  function Before(s: string, c: char): (r: string)
    ensures r <= s && c !in r
    ensures |r| < |s| ==> s[|r|] == c
  {
    if s == [] || s[0] == c then [] else [s[0]] + Before(s[1..], c)
  }

  // ---------------------------------------------------------------- \bWORD\b

  /** The `\b` assertion at position `p`: exactly one side is a word character. */
  predicate Boundary(s: string, p: int)
    requires 0 <= p <= |s|
  {
    (p > 0 && IsWordChar(s[p - 1])) != (p < |s| && IsWordChar(s[p]))
  }

  /** `w` occurs at `p`, letters compared without case. */
  predicate MatchesAt(s: string, w: string, p: nat) {
    p + |w| <= |s| && forall k :: 0 <= k < |w| ==> Lower(s[p + k]) == Lower(w[k])
  }

  /** `\bw\b` matches at `p`. */
  predicate WholeWordAt(s: string, w: string, p: nat) {
    MatchesAt(s, w, p) && Boundary(s, p) && Boundary(s, p + |w|)
  }

  /** `re.sub(r"\bw\b", "", s[i..], flags=re.IGNORECASE)` as the regular
      expression engine does it: scan left to right, and at each position
      either delete a match and resume after it, or keep one character. */
  function RemoveWordFrom(s: string, w: string, i: nat): (r: string)
    requires |w| > 0 && i <= |s|
    ensures |r| <= |s| - i
    decreases |s| - i
  {
    if i == |s| then []
    else if WholeWordAt(s, w, i) then RemoveWordFrom(s, w, i + |w|)
    else [s[i]] + RemoveWordFrom(s, w, i + 1)
  }

  function RemoveWholeWord(s: string, w: string): (r: string)
    requires |w| > 0
  {
    RemoveWordFrom(s, w, 0)
  }

  /** A loop over a list of words, each removed as a whole word from the
      result of the previous one. */
  function RemoveAllWords(s: string, ws: seq<string>): string
    requires forall k :: 0 <= k < |ws| ==> |ws[k]| > 0
    decreases |ws|
  {
    if ws == [] then s else RemoveAllWords(RemoveWholeWord(s, ws[0]), ws[1..])
  }

  /** Removal touches whole words only: a text without a whole-word occurrence
      of `w` comes back unchanged, even when `w` occurs inside a longer word. */
  lemma {:induction false} RemoveWordFromUnchanged(s: string, w: string, i: nat)
    requires |w| > 0 && i <= |s|
    requires forall p :: i <= p < |s| ==> !WholeWordAt(s, w, p)
    ensures RemoveWordFrom(s, w, i) == s[i..]
    decreases |s| - i
  {
    if i < |s| {
      RemoveWordFromUnchanged(s, w, i + 1);
      assert s[i..] == [s[i]] + s[i + 1..];
    }
  }

  /** Every character that removal keeps is one of the input's. */
  lemma {:induction false} RemoveWordFromKeeps(s: string, w: string, i: nat, P: char -> bool)
    requires |w| > 0 && i <= |s|
    requires forall k :: i <= k < |s| ==> P(s[k])
    ensures forall k :: 0 <= k < |RemoveWordFrom(s, w, i)| ==> P(RemoveWordFrom(s, w, i)[k])
    decreases |s| - i
  {
    if i < |s| {
      if WholeWordAt(s, w, i) {
        RemoveWordFromKeeps(s, w, i + |w|, P);
      } else {
        RemoveWordFromKeeps(s, w, i + 1, P);
      }
    }
  }

  // ---------------------------------------------------------------- \s+

  /** No two whitespace characters are adjacent, and the only one is the space. */
  predicate SingleSpaced(r: string) {
    && (forall k :: 0 <= k < |r| && IsSpace(r[k]) ==> r[k] == ' ')
    && (forall k :: 0 <= k < |r| - 1 ==> !(IsSpace(r[k]) && IsSpace(r[k + 1])))
  }

  /** The characters of `s` that are not whitespace, in order. */
  function NonSpace(s: string): string {
    if s == [] then []
    else if IsSpace(s[0]) then NonSpace(s[1..])
    else [s[0]] + NonSpace(s[1..])
  }

  /** `re.sub(r"\s+", " ", s)`: every maximal run of whitespace becomes one space. */
  function CollapseSpaces(s: string): (r: string)
    ensures SingleSpaced(r)
    ensures |r| <= |s| && (r == [] <==> s == [])
    ensures s != [] ==> (IsSpace(r[0]) <==> IsSpace(s[0]))
    ensures NonSpace(r) == NonSpace(s)
    decreases |s|
  {
    if s == [] then []
    else if IsSpace(s[0]) then
      var rest := TrimStart(s[1..]);
      NonSpaceOfSpaces(s[1..], |s[1..]| - |rest|);
      [' '] + CollapseSpaces(rest)
    else [s[0]] + CollapseSpaces(s[1..])
  }

  lemma {:induction false} NonSpaceOfSpaces(s: string, n: nat)
    requires n <= |s| && forall k :: 0 <= k < n ==> IsSpace(s[k])
    ensures NonSpace(s) == NonSpace(s[n..])
  {
    if n > 0 {
      NonSpaceOfSpaces(s[1..], n - 1);
      assert s[1..][n - 1..] == s[n..];
    }
  }

  /** Stripping a single-spaced text keeps it single-spaced. */
  lemma StripSingleSpaced(s: string)
    requires SingleSpaced(s)
    ensures SingleSpaced(Strip(s))
  {
    var t := TrimStart(s);
    assert t == s[|s| - |t|..];
    var r := TrimEnd(t);
    assert r == t[..|r|];
    forall k | 0 <= k < |r| - 1
      ensures !(IsSpace(r[k]) && IsSpace(r[k + 1]))
    {
      assert r[k] == s[|s| - |t| + k] && r[k + 1] == s[|s| - |t| + k + 1];
    }
    forall k | 0 <= k < |r| && IsSpace(r[k])
      ensures r[k] == ' '
    {
      assert r[k] == s[|s| - |t| + k];
    }
  }

  /** Collapsing whitespace adds no character other than the space: a property
      of every non-whitespace character, that also holds of the space, holds
      of every character of the result. */
  lemma {:induction false} CollapseKeeps(s: string, P: char -> bool)
    requires P(' ')
    requires forall k :: 0 <= k < |s| ==> IsSpace(s[k]) || P(s[k])
    ensures forall k :: 0 <= k < |CollapseSpaces(s)| ==> P(CollapseSpaces(s)[k])
    decreases |s|
  {
    if s != [] {
      var c, rest := if IsSpace(s[0]) then ' ' else s[0], if IsSpace(s[0]) then TrimStart(s[1..]) else s[1..];
      assert rest == s[|s| - |rest|..];
      assert forall k :: 0 <= k < |rest| ==> rest[k] == s[|s| - |rest| + k];
      CollapseKeeps(rest, P);
      assert CollapseSpaces(s) == [c] + CollapseSpaces(rest);
      ConsKeeps(c, CollapseSpaces(rest), P);
    }
  }

  lemma ConsKeeps(c: char, r: string, P: char -> bool)
    requires P(c) && forall k :: 0 <= k < |r| ==> P(r[k])
    ensures forall k :: 0 <= k < |[c] + r| ==> P(([c] + r)[k])
  {
    assert forall k :: 1 <= k < |[c] + r| ==> ([c] + r)[k] == r[k - 1];
  }

  /** Stripping adds no character: a property of every character of the text
      holds of every character of the result. */
  lemma StripKeeps(s: string, P: char -> bool)
    requires forall k :: 0 <= k < |s| ==> P(s[k])
    ensures forall k :: 0 <= k < |Strip(s)| ==> P(Strip(s)[k])
  {
    var t := TrimStart(s);
    SuffixKeeps(s, |s| - |t|, P);
    PrefixKeeps(t, |TrimEnd(t)|, P);
  }

  lemma SuffixKeeps(s: string, i: nat, P: char -> bool)
    requires i <= |s| && forall k :: 0 <= k < |s| ==> P(s[k])
    ensures forall k :: 0 <= k < |s[i..]| ==> P(s[i..][k])
  {
    assert forall k :: 0 <= k < |s[i..]| ==> s[i..][k] == s[i + k];
  }

  lemma PrefixKeeps(s: string, i: nat, P: char -> bool)
    requires i <= |s| && forall k :: 0 <= k < |s| ==> P(s[k])
    ensures forall k :: 0 <= k < |s[..i]| ==> P(s[..i][k])
  {
  }

  // ---------------------------------------------------------------- lowering first

  lemma LowerTwice(c: char)
    ensures Lower(Lower(c)) == Lower(c)
  {
  }

  /** Lowering twice is lowering once. */
  lemma LowerIdempotent(s: string)
    ensures LowerStr(LowerStr(s)) == LowerStr(s)
  {
  }

  lemma LowerDrop(s: string, i: nat)
    requires i <= |s|
    ensures LowerStr(s)[i..] == LowerStr(s[i..])
  {
  }

  lemma LowerTake(s: string, j: nat)
    requires j <= |s|
    ensures LowerStr(s)[..j] == LowerStr(s[..j])
  {
  }

  lemma LowerConcat(a: string, b: string)
    ensures LowerStr(a + b) == LowerStr(a) + LowerStr(b)
  {
  }

  /** The last position of a character that is not a letter is the same in a
      text and in its lower-case form. */
  lemma LastIndexOfLower(s: string, c: char)
    requires !IsAsciiLetter(c)
    ensures LastIndexOf(LowerStr(s), c) == LastIndexOf(s, c)
  {
  }

  /** `splitext` cuts a lower-case name where it cuts the name itself. */
  lemma SplitExtLower(p: string)
    ensures SplitExt(LowerStr(p)).0 == LowerStr(SplitExt(p).0)
  {
    var q := LowerStr(p);
    LastIndexOfLower(p, '.');
    LastIndexOfLower(p, '/');
    var dot := LastIndexOf(p, '.');
    var sep := LastIndexOf(p, '/');
    if dot > sep {
      assert HasNonDotBetween(q, sep, dot) <==> HasNonDotBetween(p, sep, dot) by {
        assert forall k :: sep < k < dot ==> (q[k] != '.' <==> p[k] != '.');
      }
      LowerTake(p, dot);
    }
  }

  /** Whole-word matching already ignores case. */
  lemma WholeWordLower(s: string, w: string, p: nat)
    ensures WholeWordAt(LowerStr(s), w, p) <==> WholeWordAt(s, w, p)
  {
    var q := LowerStr(s);
    if p + |w| <= |s| {
      forall k | 0 <= k < |w|
        ensures Lower(q[p + k]) == Lower(w[k]) <==> Lower(s[p + k]) == Lower(w[k])
      {
        LowerTwice(s[p + k]);
      }
      assert p > 0 ==> (IsWordChar(q[p - 1]) <==> IsWordChar(s[p - 1]));
      assert p < |s| ==> (IsWordChar(q[p]) <==> IsWordChar(s[p]));
      assert p + |w| < |s| ==> (IsWordChar(q[p + |w|]) <==> IsWordChar(s[p + |w|]));
      assert p + |w| > 0 ==> (IsWordChar(q[p + |w| - 1]) <==> IsWordChar(s[p + |w| - 1]));
    }
  }

  lemma {:induction false} RemoveWordFromLower(s: string, w: string, i: nat)
    requires |w| > 0 && i <= |s|
    ensures RemoveWordFrom(LowerStr(s), w, i) == LowerStr(RemoveWordFrom(s, w, i))
    decreases |s| - i
  {
    if i < |s| {
      WholeWordLower(s, w, i);
      if WholeWordAt(s, w, i) {
        RemoveWordFromLower(s, w, i + |w|);
      } else {
        RemoveWordFromLower(s, w, i + 1);
        LowerConcat([s[i]], RemoveWordFrom(s, w, i + 1));
      }
    }
  }

  /** Removing whole words, case-blind, commutes with lowering. */
  lemma {:induction false} RemoveAllWordsLower(s: string, ws: seq<string>)
    requires forall k :: 0 <= k < |ws| ==> |ws[k]| > 0
    ensures RemoveAllWords(LowerStr(s), ws) == LowerStr(RemoveAllWords(s, ws))
    decreases |ws|
  {
    if ws != [] {
      RemoveWordFromLower(s, ws[0], 0);
      RemoveAllWordsLower(RemoveWholeWord(s, ws[0]), ws[1..]);
    }
  }

  lemma {:induction false} TrimStartLower(s: string)
    ensures TrimStart(LowerStr(s)) == LowerStr(TrimStart(s))
    decreases |s|
  {
    if s == [] {
      assert LowerStr(s) == [];
    } else {
      var q := LowerStr(s);
      LowerSpace(s[0]);
      LowerDrop(s, 1);
      if IsSpace(s[0]) {
        TrimStartLower(s[1..]);
        calc {
          TrimStart(q);
          TrimStart(q[1..]);
          LowerStr(TrimStart(s[1..]));
          LowerStr(TrimStart(s));
        }
      } else {
        calc {
          TrimStart(q);
          q;
          LowerStr(TrimStart(s));
        }
      }
    }
  }

  lemma {:induction false} TrimEndLower(s: string)
    ensures TrimEnd(LowerStr(s)) == LowerStr(TrimEnd(s))
    decreases |s|
  {
    if s != [] {
      LowerSpace(s[|s| - 1]);
      LowerTake(s, |s| - 1);
      TrimEndLower(s[..|s| - 1]);
    }
  }

  lemma StripLower(s: string)
    ensures Strip(LowerStr(s)) == LowerStr(Strip(s))
  {
    TrimStartLower(s);
    TrimEndLower(TrimStart(s));
  }

  lemma {:induction false} CollapseSpacesLower(s: string)
    ensures CollapseSpaces(LowerStr(s)) == LowerStr(CollapseSpaces(s))
    decreases |s|
  {
    if s != [] {
      var q := LowerStr(s);
      LowerSpace(s[0]);
      LowerDrop(s, 1);
      if IsSpace(s[0]) {
        var rest := TrimStart(s[1..]);
        assert CollapseSpaces(s) == [' '] + CollapseSpaces(rest);
        TrimStartLower(s[1..]);
        assert CollapseSpaces(q) == [' '] + CollapseSpaces(LowerStr(rest));
        CollapseSpacesLower(rest);
        LowerConcat([' '], CollapseSpaces(rest));
      } else {
        assert CollapseSpaces(s) == [s[0]] + CollapseSpaces(s[1..]);
        assert CollapseSpaces(q) == [q[0]] + CollapseSpaces(LowerStr(s[1..]));
        CollapseSpacesLower(s[1..]);
        LowerConcat([s[0]], CollapseSpaces(s[1..]));
      }
    }
  }
}
