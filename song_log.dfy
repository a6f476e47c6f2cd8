/** The `downloaded_songs.txt` log: one title per line, each followed by a
    line feed. The file's text is taken after Python's newline translation,
    so a line ends at `\n` only. */
module SongLog {
  import opened Text

  // ---------------------------------------------------------------- reading

  /** The length of the first line Python yields when iterating over a file:
      up to and including the first line feed, or the whole rest. */
  function LineLength(s: string): (n: nat)
    requires s != []
    ensures 0 < n <= |s|
    ensures '\n' !in s[..n - 1]
    ensures n < |s| ==> s[n - 1] == '\n'
  {
    var b := Before(s, '\n');
    assert s[..|b|] == b;
    if |b| < |s| then |b| + 1 else |s|
  }

  /** `for line in f`: the lines of a text, each keeping its line feed. */
  function SplitLines(s: string): (ls: seq<string>)
    decreases |s|
  {
    if s == [] then [] else [s[..LineLength(s)]] + SplitLines(s[LineLength(s)..])
  }

  function Concat(ls: seq<string>): string {
    if ls == [] then [] else ls[0] + Concat(ls[1..])
  }

  /** Iterating over a file loses nothing: its lines make up its text. */
  lemma {:induction false} SplitLinesJoin(s: string)
    ensures Concat(SplitLines(s)) == s
    decreases |s|
  {
    if s != [] {
      var n := LineLength(s);
      SplitLinesJoin(s[n..]);
      assert s == s[..n] + s[n..];
    }
  }

  /** `str.strip("\n")`: line feeds removed from both ends. */
  function StripLineFeeds(s: string): (r: string)
    ensures |r| <= |s|
    decreases |s|
  {
    if s != [] && s[0] == '\n' then StripLineFeeds(s[1..])
    else if s != [] && s[|s| - 1] == '\n' then StripLineFeeds(s[..|s| - 1])
    else s
  }

  /** `[line.strip() for line in f if line.strip()]`. */
  function StrippedLines(ls: seq<string>): (ts: seq<string>)
    ensures forall i :: 0 <= i < |ts| ==> ts[i] != [] && Trimmed(ts[i])
  {
    if ls == [] then []
    else if Strip(ls[0]) == [] then StrippedLines(ls[1..])
    else [Strip(ls[0])] + StrippedLines(ls[1..])
  }

  /** `set(line.strip("\n") for line in f if line.strip())`. */
  function KeptLines(ls: seq<string>): set<string> {
    if ls == [] then {}
    else if Strip(ls[0]) == [] then KeptLines(ls[1..])
    else {StripLineFeeds(ls[0])} + KeptLines(ls[1..])
  }

  // ---------------------------------------------------------------- writing

  /** A text that is empty or whose last line is complete. */
  predicate EndsLine(s: string) {
    s == [] || s[|s| - 1] == '\n'
  }

  /** What `f.write(title + "\n")` for each title, in order, leaves in a file. */
  function Lines(ts: seq<string>): (s: string)
    ensures EndsLine(s)
  {
    if ts == [] then [] else Lines(ts[..|ts| - 1]) + ts[|ts| - 1] + "\n"
  }

  /** The titles, each with its line feed. */
  function Terminated(ts: seq<string>): (ls: seq<string>)
    ensures |ls| == |ts| && forall i :: 0 <= i < |ts| ==> ls[i] == ts[i] + "\n"
  {
    seq(|ts|, i requires 0 <= i < |ts| => ts[i] + "\n")
  }

  /** One title per line: no title holds a line feed. */
  predicate OnePerLine(ts: seq<string>) {
    forall i :: 0 <= i < |ts| ==> '\n' !in ts[i]
  }

  // ---------------------------------------------------------------- round trips

  lemma {:induction false} BeforeFirst(t: string, rest: string)
    requires '\n' !in t
    ensures Before(t + "\n" + rest, '\n') == t
  {
    if t != [] {
      assert (t + "\n" + rest)[1..] == t[1..] + "\n" + rest;
      BeforeFirst(t[1..], rest);
    }
  }

  lemma {:induction false} BeforeConcat(a: string, b: string)
    requires '\n' in a
    ensures Before(a + b, '\n') == Before(a, '\n')
    decreases |a|
  {
    if a[0] != '\n' {
      assert (a + b)[1..] == a[1..] + b;
      BeforeConcat(a[1..], b);
    }
  }

  /** A text that holds a line feed keeps its first line when more is appended. */
  lemma FirstLineOfAppend(text: string, u: string)
    requires '\n' in text
    ensures LineLength(text + u) == LineLength(text)
    ensures (text + u)[..LineLength(text)] == text[..LineLength(text)]
    ensures (text + u)[LineLength(text)..] == text[LineLength(text)..] + u
  {
    BeforeConcat(text, u);
  }

  /** A line feed that ends a text and is its only one. */
  predicate OneLine(u: string) {
    u != [] && u[|u| - 1] == '\n' && '\n' !in u[..|u| - 1]
  }

  lemma SplitOne(u: string)
    requires OneLine(u)
    ensures SplitLines(u) == [u]
  {
    var t := u[..|u| - 1];
    assert u == t + "\n" + [];
    BeforeFirst(t, []);
    assert u[..LineLength(u)] == u;
  }

  lemma {:induction false} SplitAppendLine(text: string, u: string)
    requires EndsLine(text)
    requires OneLine(u)
    ensures SplitLines(text + u) == SplitLines(text) + [u]
    decreases |text|
  {
    if text == [] {
      assert text + u == u;
      SplitOne(u);
    } else {
      assert text[|text| - 1] in text;
      FirstLineOfAppend(text, u);
      var n := LineLength(text);
      SplitAppendLine(text[n..], u);
      assert SplitLines(text + u) == [text[..n]] + SplitLines(text[n..] + u);
    }
  }

  /** Appending a title and its line feed to a text that ends with a line
      feed adds exactly one line. */
  lemma SplitAppend(text: string, t: string)
    requires EndsLine(text)
    requires '\n' !in t
    ensures SplitLines(text + t + "\n") == SplitLines(text) + [t + "\n"]
  {
    var u := t + "\n";
    assert u[..|u| - 1] == t;
    assert text + t + "\n" == text + u;
    SplitAppendLine(text, u);
  }

  /** The lines of what the writing loop leaves are the titles with their
      line feeds. */
  lemma {:induction false} SplitWritten(ts: seq<string>)
    requires OnePerLine(ts)
    ensures SplitLines(Lines(ts)) == Terminated(ts)
  {
    if ts != [] {
      var front := ts[..|ts| - 1];
      SplitWritten(front);
      SplitAppend(Lines(front), ts[|ts| - 1]);
      assert Terminated(ts) == Terminated(front) + [ts[|ts| - 1] + "\n"];
    }
  }

  lemma StripTerminated(t: string)
    requires t != [] && Trimmed(t)
    ensures Strip(t + "\n") == t
  {
    assert [] + t + "\n" == t + "\n";
    StripPadded([], t, "\n");
  }

  lemma {:induction false} StrippedTerminated(ts: seq<string>)
    requires forall i :: 0 <= i < |ts| ==> ts[i] != [] && Trimmed(ts[i])
    ensures StrippedLines(Terminated(ts)) == ts
  {
    if ts != [] {
      StripTerminated(ts[0]);
      assert Terminated(ts)[1..] == Terminated(ts[1..]);
      StrippedTerminated(ts[1..]);
    }
  }

  /** Writing non-blank, stripped titles one per line and reading them back
      with `line.strip()` gives the same titles in the same order. */
  lemma WriteThenRead(ts: seq<string>)
    requires forall i :: 0 <= i < |ts| ==> ts[i] != [] && Trimmed(ts[i]) && '\n' !in ts[i]
    ensures StrippedLines(SplitLines(Lines(ts))) == ts
  {
    SplitWritten(ts);
    StrippedTerminated(ts);
  }

  lemma {:induction false} KeptLinesAppend(ls: seq<string>, l: string)
    ensures KeptLines(ls + [l]) == KeptLines(ls) + KeptLines([l])
  {
    if ls != [] {
      assert (ls + [l])[1..] == ls[1..] + [l];
      KeptLinesAppend(ls[1..], l);
    }
  }

  lemma StripLineFeedsTerminated(t: string)
    requires '\n' !in t
    ensures StripLineFeeds(t + "\n") == t
  {
    if t == [] {
    } else {
      assert t[0] in t;
      assert (t + "\n")[..|t|] == t;
      assert t[|t| - 1] in t;
    }
  }

  /** Appending a title line to a log that ends with a line feed makes the
      loader see that title too, unless it is blank. */
  lemma LoadAfterAppend(text: string, t: string)
    requires EndsLine(text)
    requires '\n' !in t
    ensures KeptLines(SplitLines(text + t + "\n"))
         == KeptLines(SplitLines(text)) + (if Strip(t) == [] then {} else {t})
  {
    SplitAppend(text, t);
    KeptLinesAppend(SplitLines(text), t + "\n");
    KeptLinesOne(t);
  }

  /** The loader's view of one title line. */
  lemma KeptLinesOne(t: string)
    requires '\n' !in t
    ensures KeptLines([t + "\n"]) == if Strip(t) == [] then {} else {t}
  {
    StripLineFeedsTerminated(t);
    BlankTerminated(t);
    assert [t + "\n"][1..] == [];
  }

  lemma BlankTerminated(t: string)
    ensures Strip(t + "\n") == [] <==> Strip(t) == []
  {
    StripEmptyIff(t);
    StripEmptyIff(t + "\n");
    assert forall k :: 0 <= k < |t| ==> (t + "\n")[k] == t[k];
  }

  /** The titles that are not blank. */
  function NonBlank(ts: seq<string>): set<string> {
    set t | t in ts && Strip(t) != []
  }

  /** Appending title lines to a log that ends with a line feed makes the
      loader see the non-blank ones as well. */
  lemma {:induction false} LoadAfterLines(text: string, ts: seq<string>)
    requires EndsLine(text)
    requires OnePerLine(ts)
    ensures KeptLines(SplitLines(text + Lines(ts)))
         == KeptLines(SplitLines(text)) + NonBlank(ts)
  {
    if ts == [] {
      assert text + Lines(ts) == text;
      assert NonBlank(ts) == {};
    } else {
      var front := ts[..|ts| - 1];
      assert OnePerLine(front) by {
        forall i | 0 <= i < |front| ensures '\n' !in front[i] {
          assert front[i] == ts[i];
        }
      }
      LoadAfterLines(text, front);
      LoadAfterLastLine(text, ts);
    }
  }

  /** The step of `LoadAfterLines` for the last title. */
  lemma LoadAfterLastLine(text: string, ts: seq<string>)
    requires EndsLine(text)
    requires OnePerLine(ts) && ts != []
    requires KeptLines(SplitLines(text + Lines(ts[..|ts| - 1])))
          == KeptLines(SplitLines(text)) + NonBlank(ts[..|ts| - 1])
    ensures KeptLines(SplitLines(text + Lines(ts)))
         == KeptLines(SplitLines(text)) + NonBlank(ts)
  {
    var front := ts[..|ts| - 1];
    var t := ts[|ts| - 1];
    var head := text + Lines(front);
    var last: set<string> := if Strip(t) == [] then {} else {t};
    assert '\n' !in t;
    LinesSnoc(text, ts);
    TerminatedConcat(text, Lines(front));
    LoadAfterAppend(head, t);
    NonBlankSnoc(ts);
    UnionChain(KeptLines(SplitLines(text + Lines(ts))), KeptLines(SplitLines(head)), KeptLines(SplitLines(text)),
      NonBlank(front), NonBlank(ts), last);
  }

  lemma UnionChain(whole: set<string>, head: set<string>, text: set<string>, front: set<string>, all: set<string>, last: set<string>)
    requires whole == head + last && head == text + front && all == front + last
    ensures whole == text + all
  {
  }

  lemma LinesSnoc(text: string, ts: seq<string>)
    requires ts != []
    ensures text + Lines(ts) == text + Lines(ts[..|ts| - 1]) + ts[|ts| - 1] + "\n"
  {
    var l := Lines(ts[..|ts| - 1]);
    var t := ts[|ts| - 1];
    assert Lines(ts) == l + t + "\n";
    ConcatAssoc(l, t, "\n");
    ConcatAssoc(text, l, t + "\n");
    ConcatAssoc(text + l, t, "\n");
  }

  lemma TerminatedConcat(a: string, b: string)
    requires EndsLine(a)
    requires EndsLine(b)
    ensures EndsLine(a + b)
  {
    if b == [] {
      assert a + b == a;
    }
  }

  lemma ConcatAssoc(a: string, b: string, c: string)
    ensures a + (b + c) == a + b + c
  {
  }

  lemma NonBlankSnoc(ts: seq<string>)
    requires ts != []
    ensures NonBlank(ts)
         == NonBlank(ts[..|ts| - 1]) + (if Strip(ts[|ts| - 1]) == [] then {} else {ts[|ts| - 1]})
  {
    assert ts == ts[..|ts| - 1] + [ts[|ts| - 1]];
  }
}
