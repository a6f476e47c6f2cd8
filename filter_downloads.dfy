/** The download clean-up script: every `.mp3` file of the dataset folder is
    either kept, deleted, or left alone. Remixes and mashups are deleted,
    then files longer than ten minutes, then every file whose normalised
    title an earlier kept file already has; the log of downloaded songs is
    rewritten from the files kept. The folder listing and the duration
    reader are parameters, and deleting a file is recording its name. */
module FilterDownloads {
  import opened Wrappers
  import opened Dicts
  import opened Text
  import opened SongLog

  /** `MAX_DURATION_SEC`, ten minutes. */
  const MaxDurationSec: real := 600.0

  /** The words dropped from titles before they are compared, in order. */
  const Suffixes: seq<string> := ["LYRICAL", "FULL VIDEO", "REPRISE", "ACOUSTIC", "VERSION", "EDIT"]

  /** Names holding one of these, in any case, are deleted outright. */
  const DeleteKeywords: seq<string> := ["REMIX", "MASHUP"]

  // ---------------------------------------------------------------- normalize_title

  /** The code-point ranges of `emoji_pattern`. */
  predicate IsEmoji(c: char) {
    || ('\U{1F600}' <= c <= '\U{1F64F}')
    || ('\U{1F300}' <= c <= '\U{1F5FF}')
    || ('\U{1F680}' <= c <= '\U{1F6FF}')
    || ('\U{1F1E0}' <= c <= '\U{1F1FF}')
    || ('\U{2700}' <= c <= '\U{27BF}')
    || ('\U{1F900}' <= c <= '\U{1F9FF}')
    || ('\U{2600}' <= c <= '\U{26FF}')
    || ('\U{2B00}' <= c <= '\U{2BFF}')
    || ('\U{1FA70}' <= c <= '\U{1FAFF}')
  }

  /** `emoji_pattern.sub("", s)`. */
  function RemoveEmoji(s: string): (r: string)
    ensures |r| <= |s|
    ensures forall k :: 0 <= k < |r| ==> !IsEmoji(r[k])
  {
    if s == [] then []
    else if IsEmoji(s[0]) then RemoveEmoji(s[1..])
    else [s[0]] + RemoveEmoji(s[1..])
  }

  /** What `[^a-zA-Z0-9 ]` does not match. */
  predicate KeptChar(c: char) {
    IsAsciiLetter(c) || IsDigit(c) || c == ' '
  }

  /** `re.sub(r"[^a-zA-Z0-9 ]", "", s)`. */
  function KeepTitleChars(s: string): (r: string)
    ensures |r| <= |s|
    ensures forall k :: 0 <= k < |r| ==> KeptChar(r[k])
  {
    if s == [] then []
    else if KeptChar(s[0]) then [s[0]] + KeepTitleChars(s[1..])
    else KeepTitleChars(s[1..])
  }

  /** The steps after the suffix loop: emoji, then every other character
      but letters, digits and spaces, then runs of whitespace, then the
      ends, then upper case. */
  function Tidied(t: string): string {
    LowerStr(Strip(CollapseSpaces(KeepTitleChars(RemoveEmoji(t)))))
  }

  lemma SuffixesNonEmpty()
    ensures forall k :: 0 <= k < |Suffixes| ==> |Suffixes[k]| > 0
  {
  }

  /** `normalize_title`. */
  function Normalized(name: string): string {
    SuffixesNonEmpty();
    Tidied(RemoveAllWords(SplitExt(name).0, Suffixes))
  }

  /** `normalize_title` as written: the extension goes, then the loop over
      `suffixes`, then the tidying steps. */
  method NormalizeTitle(name: string) returns (title: string)
    ensures title == Normalized(name)
  {
    SuffixesNonEmpty();
    var stem := SplitExt(name).0;
    title := stem;
    for i := 0 to |Suffixes|
      invariant RemoveAllWords(stem, Suffixes) == RemoveAllWords(title, Suffixes[i..])
    {
      assert Suffixes[i..][0] == Suffixes[i] && Suffixes[i..][1..] == Suffixes[i + 1..];
      title := RemoveWholeWord(title, Suffixes[i]);
    }
    assert Suffixes[|Suffixes|..] == [];
    title := RemoveEmoji(title);
    title := KeepTitleChars(title);
    title := CollapseSpaces(title);
    title := LowerStr(Strip(title));
  }

  // ---------------------------------------------------------------- properties of normalize_title

  /** A character a normalised title may hold: `[a-z0-9 ]`. */
  predicate NormChar(c: char) {
    ('a' <= c <= 'z') || IsDigit(c) || c == ' '
  }

  /** The emoji pass changes nothing that the character filter after it
      would keep: the filter alone removes the emoji too. */
  lemma {:induction false} EmojiAbsorbed(s: string)
    ensures KeepTitleChars(RemoveEmoji(s)) == KeepTitleChars(s)
  {
    if s != [] {
      EmojiAbsorbed(s[1..]);
      if !IsEmoji(s[0]) {
        assert ([s[0]] + RemoveEmoji(s[1..]))[1..] == RemoveEmoji(s[1..]);
      }
    }
  }

  /** Every character of a normalised title is a lower-case letter, a digit
      or a space. */
  lemma TidiedChars(t: string)
    ensures forall k :: 0 <= k < |Tidied(t)| ==> NormChar(Tidied(t)[k])
  {
    var m := KeepTitleChars(RemoveEmoji(t));
    CollapseKeeps(m, KeptChar);
    StripKeeps(CollapseSpaces(m), KeptChar);
  }

  /** A normalised title has no space at either end. */
  lemma TidiedTrimmed(t: string)
    ensures Trimmed(Tidied(t))
  {
    LowerTrimmed(Strip(CollapseSpaces(KeepTitleChars(RemoveEmoji(t)))));
  }

  /** A normalised title never has two spaces in a row. */
  lemma TidiedSingleSpaced(t: string)
    ensures SingleSpaced(Tidied(t))
  {
    var c := CollapseSpaces(KeepTitleChars(RemoveEmoji(t)));
    StripSingleSpaced(c);
    LowerSingleSpaced(Strip(c));
  }

  lemma NormalizedChars(name: string)
    ensures forall k :: 0 <= k < |Normalized(name)| ==> NormChar(Normalized(name)[k])
  {
    SuffixesNonEmpty();
    TidiedChars(RemoveAllWords(SplitExt(name).0, Suffixes));
  }

  lemma NormalizedTrimmed(name: string)
    ensures Trimmed(Normalized(name))
  {
    SuffixesNonEmpty();
    TidiedTrimmed(RemoveAllWords(SplitExt(name).0, Suffixes));
  }

  lemma NormalizedSingleSpaced(name: string)
    ensures SingleSpaced(Normalized(name))
  {
    SuffixesNonEmpty();
    TidiedSingleSpaced(RemoveAllWords(SplitExt(name).0, Suffixes));
  }

  lemma {:induction false} RemoveEmojiLower(s: string)
    ensures RemoveEmoji(LowerStr(s)) == LowerStr(RemoveEmoji(s))
  {
    if s != [] {
      LowerDrop(s, 1);
      RemoveEmojiLower(s[1..]);
      if !IsEmoji(s[0]) {
        LowerConcat([s[0]], RemoveEmoji(s[1..]));
      }
    }
  }

  lemma {:induction false} KeepTitleCharsLower(s: string)
    ensures KeepTitleChars(LowerStr(s)) == LowerStr(KeepTitleChars(s))
  {
    if s != [] {
      LowerDrop(s, 1);
      KeepTitleCharsLower(s[1..]);
      if KeptChar(s[0]) {
        LowerConcat([s[0]], KeepTitleChars(s[1..]));
      }
    }
  }

  /** Letter case does not matter to the duplicate check: a name and its
      lower-case form have the same normalised title. */
  lemma NormalizedIgnoresCase(name: string)
    ensures Normalized(LowerStr(name)) == Normalized(name)
  {
    SuffixesNonEmpty();
    var stem := SplitExt(name).0;
    var t := RemoveAllWords(stem, Suffixes);
    SplitExtLower(name);
    RemoveAllWordsLower(stem, Suffixes);
    RemoveEmojiLower(t);
    KeepTitleCharsLower(RemoveEmoji(t));
    var k := KeepTitleChars(RemoveEmoji(t));
    CollapseSpacesLower(k);
    StripLower(CollapseSpaces(k));
    LowerIdempotent(Strip(CollapseSpaces(k)));
  }

  // ---------------------------------------------------------------- the keep/delete loop

  /** `w` occurs in `s` at `p`. */
  predicate OccursAt(s: string, w: string, p: nat) {
    p + |w| <= |s| && s[p..p + |w|] == w
  }

  /** `w in s` for strings. */
  predicate Contains(s: string, w: string) {
    exists p: nat :: p <= |s| && OccursAt(s, w, p)
  }

  /** `any(kw.lower() in f.lower() for kw in delete_keywords)`. */
  predicate HasDeleteKeyword(f: string) {
    exists i :: 0 <= i < |DeleteKeywords| && Contains(LowerStr(f), LowerStr(DeleteKeywords[i]))
  }

  /** `norm_to_original` and `deleted_files` as the loop goes. */
  datatype Cleanup = Cleanup(kept: Dict<string, string>, deleted: seq<string>)

  /** One turn of the loop for the file `f`. `duration(f)` is `None` when
      reading the file's length raises; `normOf` is the title normaliser. */
  function Visit(st: Cleanup, f: string, duration: string -> Option<real>, normOf: string -> string): Cleanup {
    if !IsMp3(f) then st
    else if HasDeleteKeyword(f) then Cleanup(st.kept, st.deleted + [f])
    else if duration(f).None? then st
    else if duration(f).value > MaxDurationSec then Cleanup(st.kept, st.deleted + [f])
    else if normOf(f) in st.kept.entries then Cleanup(st.kept, st.deleted + [f])
    else Cleanup(Put(st.kept, normOf(f), f), st.deleted)
  }

  /** The state after the loop has visited `files` in listing order. */
  function CleanupOf(files: seq<string>, duration: string -> Option<real>, normOf: string -> string): Cleanup {
    if files == [] then Cleanup(Empty(), [])
    else Visit(CleanupOf(files[..|files| - 1], duration, normOf), files[|files| - 1], duration, normOf)
  }

  lemma CleanupStep(files: seq<string>, i: nat, duration: string -> Option<real>, normOf: string -> string)
    requires i < |files|
    ensures CleanupOf(files[..i + 1], duration, normOf)
         == Visit(CleanupOf(files[..i], duration, normOf), files[i], duration, normOf)
  {
    assert files[..i + 1][..i] == files[..i];
  }

  /** `remaining_titles`: the kept names without their extensions, in the
      order they were kept. */
  function RemainingTitles(kept: Dict<string, string>): (ts: seq<string>)
    ensures |ts| == |kept.keys|
    ensures forall i :: 0 <= i < |ts| ==> ts[i] == SplitExt(Values(kept)[i]).0
  {
    var vs := Values(kept);
    seq(|vs|, i requires 0 <= i < |vs| => SplitExt(vs[i]).0)
  }

  /** The final loop: one line per title. */
  method WriteLog(titles: seq<string>) returns (text: string)
    ensures text == Lines(titles)
  {
    text := [];
    for i := 0 to |titles|
      invariant text == Lines(titles[..i])
    {
      assert titles[..i + 1][..i] == titles[..i];
      text := text + titles[i] + "\n";
    }
    assert titles[..|titles|] == titles;
  }

  /** The whole script over the folder listing `files`: the names kept, by
      normalised title, the names deleted, in order, and the new text of the
      log of downloaded songs. */
  method CleanupDownloads(files: seq<string>, duration: string -> Option<real>)
    returns (kept: Dict<string, string>, deleted: seq<string>, log: string)
    ensures Cleanup(kept, deleted) == CleanupOf(files, duration, Normalized)
    ensures log == Lines(RemainingTitles(kept))
  {
    kept := Empty();
    deleted := [];
    for i := 0 to |files|
      invariant Cleanup(kept, deleted) == CleanupOf(files[..i], duration, Normalized)
    {
      CleanupStep(files, i, duration, Normalized);
      var f := files[i];
      if !IsMp3(f) {
        continue;
      }
      if HasDeleteKeyword(f) {
        deleted := deleted + [f];
        continue;
      }
      if duration(f).None? {
        continue;
      }
      if duration(f).value > MaxDurationSec {
        deleted := deleted + [f];
        continue;
      }
      var norm := NormalizeTitle(f);
      if norm in kept.entries {
        deleted := deleted + [f];
      } else {
        kept := Put(kept, norm, f);
      }
    }
    assert files[..|files|] == files;
    var remaining := RemainingTitles(kept);
    log := WriteLog(remaining);
  }

  // ---------------------------------------------------------------- what the loop decides, file by file

  /** A file the duplicate check sees: an `.mp3` that is no remix or mashup
      and whose length could be read and is at most ten minutes. */
  predicate Eligible(f: string, duration: string -> Option<real>) {
    IsMp3(f) && !HasDeleteKeyword(f) && duration(f).Some? && duration(f).value <= MaxDurationSec
  }

  /** Some file of `files` that the duplicate check sees has the title `n`. */
  ghost predicate TitleSeen(files: seq<string>, n: string, duration: string -> Option<real>, normOf: string -> string) {
    exists j :: 0 <= j < |files| && Eligible(files[j], duration) && normOf(files[j]) == n
  }

  /** The file at `i` is kept: it is the first file the duplicate check
      sees with its title. */
  ghost predicate KeptAt(files: seq<string>, i: nat, duration: string -> Option<real>, normOf: string -> string)
    requires i < |files|
  {
    Eligible(files[i], duration) && !TitleSeen(files[..i], normOf(files[i]), duration, normOf)
  }

  /** The file at `i` is deleted: an `.mp3` that is a remix or mashup
      whatever its length, or is longer than ten minutes, or has the title
      of an earlier file the duplicate check saw. */
  ghost predicate DeletedAt(files: seq<string>, i: nat, duration: string -> Option<real>, normOf: string -> string)
    requires i < |files|
  {
    var f := files[i];
    && IsMp3(f)
    && (|| HasDeleteKeyword(f)
        || (&& duration(f).Some?
            && (duration(f).value > MaxDurationSec || TitleSeen(files[..i], normOf(f), duration, normOf))))
  }

  /** The files kept, in listing order. */
  ghost function Survivors(files: seq<string>, duration: string -> Option<real>, normOf: string -> string): seq<string> {
    if files == [] then []
    else
      Survivors(files[..|files| - 1], duration, normOf)
      + (if KeptAt(files, |files| - 1, duration, normOf) then [files[|files| - 1]] else [])
  }

  /** The files deleted, in listing order. */
  ghost function Casualties(files: seq<string>, duration: string -> Option<real>, normOf: string -> string): seq<string> {
    if files == [] then []
    else
      Casualties(files[..|files| - 1], duration, normOf)
      + (if DeletedAt(files, |files| - 1, duration, normOf) then [files[|files| - 1]] else [])
  }

  lemma TitleSeenSnoc(files: seq<string>, n: string, duration: string -> Option<real>, normOf: string -> string)
    requires files != []
    ensures TitleSeen(files, n, duration, normOf)
        <==> (|| TitleSeen(files[..|files| - 1], n, duration, normOf)
              || (Eligible(files[|files| - 1], duration) && normOf(files[|files| - 1]) == n))
  {
    var front := files[..|files| - 1];
    if TitleSeen(files, n, duration, normOf) {
      var j :| 0 <= j < |files| && Eligible(files[j], duration) && normOf(files[j]) == n;
      if j < |front| {
        assert front[j] == files[j];
      }
    }
    if TitleSeen(front, n, duration, normOf) {
      var j :| 0 <= j < |front| && Eligible(front[j], duration) && normOf(front[j]) == n;
      assert files[j] == front[j];
    }
  }

  /** `norm_to_original` holds exactly the titles of the files the
      duplicate check has seen. */
  lemma {:induction false} KeptKeysSeen(files: seq<string>, duration: string -> Option<real>, normOf: string -> string)
    ensures forall n :: n in CleanupOf(files, duration, normOf).kept.entries <==> TitleSeen(files, n, duration, normOf)
  {
    if files != [] {
      KeptKeysSeen(files[..|files| - 1], duration, normOf);
      forall n {
        TitleSeenSnoc(files, n, duration, normOf);
      }
    }
  }

  /** The last file is kept exactly when it is eligible and its title is
      not in the dictionary yet. */
  lemma KeptAtLast(files: seq<string>, duration: string -> Option<real>, normOf: string -> string)
    requires files != []
    ensures var last := files[|files| - 1];
      KeptAt(files, |files| - 1, duration, normOf)
      <==> Eligible(last, duration) && normOf(last) !in CleanupOf(files[..|files| - 1], duration, normOf).kept.entries
  {
    KeptKeysSeen(files[..|files| - 1], duration, normOf);
  }

  /** The dictionary's values are the kept files in listing order, so the
      log lists them in that order. */
  lemma {:induction false} CleanupKept(files: seq<string>, duration: string -> Option<real>, normOf: string -> string)
    ensures Values(CleanupOf(files, duration, normOf).kept) == Survivors(files, duration, normOf)
  {
    if files != [] {
      var front := files[..|files| - 1];
      var last := files[|files| - 1];
      CleanupKept(front, duration, normOf);
      KeptAtLast(files, duration, normOf);
      var st := CleanupOf(front, duration, normOf);
      if Eligible(last, duration) && normOf(last) !in st.kept.entries {
        ValuesPut(st.kept, normOf(last), last);
      }
    }
  }

  /** `deleted_files` lists the deleted files in listing order. */
  lemma {:induction false} CleanupDeleted(files: seq<string>, duration: string -> Option<real>, normOf: string -> string)
    ensures CleanupOf(files, duration, normOf).deleted == Casualties(files, duration, normOf)
  {
    if files != [] {
      CleanupDeleted(files[..|files| - 1], duration, normOf);
      KeptKeysSeen(files[..|files| - 1], duration, normOf);
    }
  }

  // ---------------------------------------------------------------- properties of the loop

  /** Every kept file is stored under its own normalised title. */
  lemma {:induction false} KeysAreTitles(files: seq<string>, duration: string -> Option<real>, normOf: string -> string)
    ensures forall n :: n in CleanupOf(files, duration, normOf).kept.entries ==>
      normOf(CleanupOf(files, duration, normOf).kept.entries[n]) == n
  {
    if files != [] {
      var front := files[..|files| - 1];
      var last := files[|files| - 1];
      KeysAreTitles(front, duration, normOf);
      var st := CleanupOf(front, duration, normOf);
      if Eligible(last, duration) && normOf(last) !in st.kept.entries {
        var kept := Put(st.kept, normOf(last), last);
        assert CleanupOf(files, duration, normOf).kept == kept;
        forall n | n in kept.entries
          ensures normOf(kept.entries[n]) == n
        {
          if n != normOf(last) {
            assert kept.entries[n] == st.kept.entries[n];
          }
        }
      } else {
        assert CleanupOf(files, duration, normOf).kept == st.kept;
      }
    }
  }

  /** No two kept files share a normalised title. */
  lemma KeptTitlesDistinct(files: seq<string>, duration: string -> Option<real>, normOf: string -> string)
    ensures var kept := Survivors(files, duration, normOf);
      forall i, j :: 0 <= i < j < |kept| ==> normOf(kept[i]) != normOf(kept[j])
  {
    var d := CleanupOf(files, duration, normOf).kept;
    CleanupKept(files, duration, normOf);
    KeysAreTitles(files, duration, normOf);
    assert forall i :: 0 <= i < |d.keys| ==> normOf(Values(d)[i]) == d.keys[i];
  }

  /** The first file the duplicate check sees with a title is the one stored
      under that title, and no later file replaces it. */
  lemma {:induction false} FirstKept(files: seq<string>, i: nat, duration: string -> Option<real>, normOf: string -> string)
    requires i < |files| && KeptAt(files, i, duration, normOf)
    ensures var kept := CleanupOf(files, duration, normOf).kept;
      normOf(files[i]) in kept.entries && kept.entries[normOf(files[i])] == files[i]
  {
    var front := files[..|files| - 1];
    if i == |files| - 1 {
      KeptAtLast(files, duration, normOf);
    } else {
      assert front[..i] == files[..i] && front[i] == files[i];
      FirstKept(front, i, duration, normOf);
    }
  }

  lemma {:induction false} SurvivorsIncluded(files: seq<string>, i: nat, duration: string -> Option<real>, normOf: string -> string)
    requires i < |files| && KeptAt(files, i, duration, normOf)
    ensures files[i] in Survivors(files, duration, normOf)
  {
    var front := files[..|files| - 1];
    if i < |files| - 1 {
      assert front[..i] == files[..i] && front[i] == files[i];
      SurvivorsIncluded(front, i, duration, normOf);
    }
  }

  lemma {:induction false} CasualtiesIncluded(files: seq<string>, i: nat, duration: string -> Option<real>, normOf: string -> string)
    requires i < |files| && DeletedAt(files, i, duration, normOf)
    ensures files[i] in Casualties(files, duration, normOf)
  {
    var front := files[..|files| - 1];
    if i < |files| - 1 {
      assert front[..i] == files[..i] && front[i] == files[i];
      CasualtiesIncluded(front, i, duration, normOf);
    }
  }

  /** Every file deleted by the rules is recorded as deleted: a remix or
      mashup whatever its length, a file over ten minutes, and every later
      file with a title already kept. */
  lemma DeletedIncluded(files: seq<string>, i: nat, duration: string -> Option<real>, normOf: string -> string)
    requires i < |files| && DeletedAt(files, i, duration, normOf)
    ensures files[i] in CleanupOf(files, duration, normOf).deleted
  {
    CasualtiesIncluded(files, i, duration, normOf);
    CleanupDeleted(files, duration, normOf);
  }

  /** Every file chosen by the rules is among the kept values. */
  lemma KeptIncluded(files: seq<string>, i: nat, duration: string -> Option<real>, normOf: string -> string)
    requires i < |files| && KeptAt(files, i, duration, normOf)
    ensures files[i] in Values(CleanupOf(files, duration, normOf).kept)
  {
    SurvivorsIncluded(files, i, duration, normOf);
    CleanupKept(files, duration, normOf);
  }

  /** Only files from the listing are kept, each at a position the rules
      keep. */
  lemma {:induction false} SurvivorsOnly(files: seq<string>, f: string, duration: string -> Option<real>, normOf: string -> string)
    requires f in Survivors(files, duration, normOf)
    ensures exists i :: 0 <= i < |files| && files[i] == f && KeptAt(files, i, duration, normOf)
  {
    var front := files[..|files| - 1];
    if f in Survivors(front, duration, normOf) {
      SurvivorsOnly(front, f, duration, normOf);
      var i :| 0 <= i < |front| && front[i] == f && KeptAt(front, i, duration, normOf);
      assert front[..i] == files[..i] && files[i] == f;
    } else {
      assert files[|files| - 1] == f;
    }
  }

  /** Only files from the listing are deleted, each at a position the rules
      delete. */
  lemma {:induction false} CasualtiesOnly(files: seq<string>, f: string, duration: string -> Option<real>, normOf: string -> string)
    requires f in Casualties(files, duration, normOf)
    ensures exists i :: 0 <= i < |files| && files[i] == f && DeletedAt(files, i, duration, normOf)
  {
    var front := files[..|files| - 1];
    if f in Casualties(front, duration, normOf) {
      CasualtiesOnly(front, f, duration, normOf);
      var i :| 0 <= i < |front| && front[i] == f && DeletedAt(front, i, duration, normOf);
      assert front[..i] == files[..i] && files[i] == f;
    } else {
      assert files[|files| - 1] == f;
    }
  }

  /** With a listing that names each file once, as a directory listing does,
      a file is kept exactly when the rules keep it. */
  lemma KeptExactly(files: seq<string>, i: nat, duration: string -> Option<real>, normOf: string -> string)
    requires Distinct(files) && i < |files|
    ensures files[i] in Values(CleanupOf(files, duration, normOf).kept) <==> KeptAt(files, i, duration, normOf)
  {
    CleanupKept(files, duration, normOf);
    if files[i] in Survivors(files, duration, normOf) {
      SurvivorsOnly(files, files[i], duration, normOf);
      var j :| 0 <= j < |files| && files[j] == files[i] && KeptAt(files, j, duration, normOf);
      assert j == i;
    } else if KeptAt(files, i, duration, normOf) {
      SurvivorsIncluded(files, i, duration, normOf);
    }
  }

  /** ... and deleted exactly when the rules delete it. */
  lemma DeletedExactly(files: seq<string>, i: nat, duration: string -> Option<real>, normOf: string -> string)
    requires Distinct(files) && i < |files|
    ensures files[i] in CleanupOf(files, duration, normOf).deleted <==> DeletedAt(files, i, duration, normOf)
  {
    CleanupDeleted(files, duration, normOf);
    if files[i] in Casualties(files, duration, normOf) {
      CasualtiesOnly(files, files[i], duration, normOf);
      var j :| 0 <= j < |files| && files[j] == files[i] && DeletedAt(files, j, duration, normOf);
      assert j == i;
    } else if DeletedAt(files, i, duration, normOf) {
      CasualtiesIncluded(files, i, duration, normOf);
    }
  }

  /** No file is both kept and deleted, and a file is one or the other
      exactly when it is an `.mp3` that is a remix or mashup or whose length
      could be read: other files and unreadable ones are left alone. */
  lemma Partition(files: seq<string>, i: nat, duration: string -> Option<real>, normOf: string -> string)
    requires Distinct(files) && i < |files|
    ensures var st := CleanupOf(files, duration, normOf);
      && !(files[i] in Values(st.kept) && files[i] in st.deleted)
      && (files[i] in Values(st.kept) || files[i] in st.deleted
          <==> IsMp3(files[i]) && (HasDeleteKeyword(files[i]) || duration(files[i]).Some?))
  {
    KeptExactly(files, i, duration, normOf);
    DeletedExactly(files, i, duration, normOf);
  }

  /** Two eligible files whose names differ only in letter case are
      duplicates: the later one is deleted. */
  lemma CaseVariantDeleted(files: seq<string>, i: nat, j: nat, duration: string -> Option<real>)
    requires i < j < |files|
    requires LowerStr(files[i]) == LowerStr(files[j])
    requires Eligible(files[i], duration) && Eligible(files[j], duration)
    ensures files[j] in CleanupOf(files, duration, Normalized).deleted
  {
    NormalizedIgnoresCase(files[i]);
    NormalizedIgnoresCase(files[j]);
    assert files[..j][i] == files[i];
    assert TitleSeen(files[..j], Normalized(files[j]), duration, Normalized);
    DeletedIncluded(files, j, duration, Normalized);
  }
}
