/** The pairing script: each new audio file's name is cleaned into a likely
    song title, the title is looked up in the song catalogue service, and the
    file is renamed to `<clean title>_<uuid><ext>` with a metadata record
    stored under the new name. The lookup and the uuid draw are parameters. */
module MetadataPair {
  import opened Wrappers
  import opened Dicts
  import opened Json
  import opened Text

  // ---------------------------------------------------------------- bracketed spans

  /** The first position at or after `i` holding `c`, or `|s|`. */
  function FindFrom(s: string, c: char, i: nat): (j: nat)
    requires i <= |s|
    ensures i <= j <= |s|
    ensures j < |s| ==> s[j] == c
    ensures forall k :: i <= k < j ==> s[k] != c
    decreases |s| - i
  {
    if i == |s| || s[i] == c then i else FindFrom(s, c, i + 1)
  }

  /** `re.sub(r"\(<anything but )>*\)", "", s[i..])`, for the brackets `open`
      and `close`: an opening bracket with a closing one somewhere after it
      is deleted together with everything up to the first such closing
      bracket; an opening bracket with none after it is kept. */
  function RemoveSpansFrom(s: string, open: char, close: char, i: nat): (r: string)
    requires i <= |s|
    ensures |r| <= |s| - i
    decreases |s| - i
  {
    if i == |s| then []
    else if s[i] == open && FindFrom(s, close, i + 1) < |s| then RemoveSpansFrom(s, open, close, FindFrom(s, close, i + 1) + 1)
    else [s[i]] + RemoveSpansFrom(s, open, close, i + 1)
  }

  function RemoveSpans(s: string, open: char, close: char): string {
    RemoveSpansFrom(s, open, close, 0)
  }

  /** Every character the removal keeps comes from the text. */
  lemma {:induction false} RemoveSpansKeeps(s: string, open: char, close: char, i: nat)
    requires i <= |s|
    ensures forall x :: x in RemoveSpansFrom(s, open, close, i) ==> x in s[i..]
    decreases |s| - i
  {
    if i < |s| {
      var j := FindFrom(s, close, i + 1);
      var r := RemoveSpansFrom(s, open, close, i);
      if s[i] == open && j < |s| {
        RemoveSpansKeeps(s, open, close, j + 1);
        assert r == RemoveSpansFrom(s, open, close, j + 1);
        forall x | x in r
          ensures x in s[i..]
        {
          InLaterSlice(s, i, j + 1, x);
        }
      } else {
        RemoveSpansKeeps(s, open, close, i + 1);
        assert s[i..] == [s[i]] + s[i + 1..];
      }
    }
  }

  lemma InLaterSlice(s: string, i: nat, m: nat, x: char)
    requires i <= m <= |s| && x in s[m..]
    ensures x in s[i..]
  {
    var u := s[m..];
    var k :| 0 <= k < |u| && u[k] == x;
    assert s[i..][m - i + k] == x;
  }

  /** No bracketed span is left in `r`: every opening bracket has no closing
      bracket after it. */
  predicate NoSpan(r: string, open: char, close: char) {
    forall a :: 0 <= a < |r| && r[a] == open ==> close !in r[a + 1..]
  }

  /** The removal leaves no bracketed span. */
  lemma {:induction false} NoSpanLeft(s: string, open: char, close: char, i: nat)
    requires i <= |s|
    ensures NoSpan(RemoveSpansFrom(s, open, close, i), open, close)
    decreases |s| - i
  {
    if i < |s| {
      var j := FindFrom(s, close, i + 1);
      if s[i] == open && j < |s| {
        NoSpanLeft(s, open, close, j + 1);
        assert RemoveSpansFrom(s, open, close, i) == RemoveSpansFrom(s, open, close, j + 1);
      } else {
        NoSpanLeft(s, open, close, i + 1);
        var rest := RemoveSpansFrom(s, open, close, i + 1);
        assert RemoveSpansFrom(s, open, close, i) == [s[i]] + rest;
        if s[i] == open {
          RemoveSpansKeeps(s, open, close, i + 1);
          assert close !in s[i + 1..];
        }
        NoSpanCons(s[i], rest, open, close);
      }
    }
  }

  /** A character put before a text without spans makes none, unless it
      opens one that the text closes. */
  lemma NoSpanCons(c: char, rest: string, open: char, close: char)
    requires NoSpan(rest, open, close)
    requires c == open ==> close !in rest
    ensures NoSpan([c] + rest, open, close)
  {
    var r := [c] + rest;
    forall a | 0 <= a < |r| && r[a] == open
      ensures close !in r[a + 1..]
    {
      if a == 0 {
        assert r[1..] == rest;
      } else {
        assert r[a] == rest[a - 1];
        assert r[a + 1..] == rest[a..];
      }
    }
  }

  // ---------------------------------------------------------------- junk words

  /** The whole-word patterns deleted from titles, in the order they are applied. */
  const JunkWords: seq<string> := ["official", "video", "full", "lyrical", "song", "feat", "from", "mix", "version"]

  // ---------------------------------------------------------------- character mask

  /** What `[^\w\s&']` does not match. */
  predicate TitleChar(c: char) {
    IsWordChar(c) || IsSpace(c) || c == '&' || c == '\''
  }

  /** `re.sub(r"[^\w\s&']", " ", s)`. */
  function MaskChars(s: string): (r: string)
    ensures |r| == |s|
    ensures forall k :: 0 <= k < |s| ==> r[k] == (if TitleChar(s[k]) then s[k] else ' ')
  {
    seq(|s|, k requires 0 <= k < |s| => if TitleChar(s[k]) then s[k] else ' ')
  }

  // ---------------------------------------------------------------- clean_title

  /** The text before the junk-word loop: extension, then `(...)`, then `[...]`. */
  function Unbracketed(raw: string): string {
    RemoveSpans(RemoveSpans(SplitExt(raw).0, '(', ')'), '[', ']')
  }

  /** The text after the junk-word loop: cut at the first `-`, then at the
      first `|`, mask, collapse whitespace and strip. */
  function Finished(t: string): string {
    Strip(CollapseSpaces(MaskChars(Before(Before(t, '-'), '|'))))
  }

  /** `clean_title`. */
  function CleanedTitle(raw: string): string {
    Finished(RemoveAllWords(Unbracketed(raw), JunkWords))
  }

  lemma JunkWordsNonEmpty()
    ensures forall k :: 0 <= k < |JunkWords| ==> |JunkWords[k]| > 0
  {
  }

  /** The loop over `junk_patterns`. */
  method RemoveJunk(t: string) returns (title: string)
    ensures title == RemoveAllWords(t, JunkWords)
  {
    JunkWordsNonEmpty();
    title := t;
    var i := 0;
    while i < |JunkWords|
      invariant 0 <= i <= |JunkWords|
      invariant RemoveAllWords(t, JunkWords) == RemoveAllWords(title, JunkWords[i..])
    {
      assert JunkWords[i..][0] == JunkWords[i] && JunkWords[i..][1..] == JunkWords[i + 1..];
      title := RemoveWholeWord(title, JunkWords[i]);
      i := i + 1;
    }
  }

  method CleanTitle(raw: string) returns (title: string)
    ensures title == CleanedTitle(raw)
  {
    title := Unbracketed(raw);
    title := RemoveJunk(title);
    title := Finished(title);
  }

  // ---------------------------------------------------------------- properties of clean_title

  /** A character a cleaned title may hold. */
  predicate CleanChar(c: char) {
    IsWordChar(c) || c == ' ' || c == '&' || c == '\''
  }

  /** Neither separator occurs in a text made of title characters. */
  lemma NoSeparators(r: string)
    requires forall k :: 0 <= k < |r| ==> CleanChar(r[k])
    ensures '-' !in r && '|' !in r
  {
  }

  /** The last two steps leave a single-spaced text with no whitespace at
      either end. */
  lemma FinishedSpacing(t: string)
    ensures Trimmed(Finished(t)) && SingleSpaced(Finished(t))
  {
    StripSingleSpaced(CollapseSpaces(MaskChars(Before(Before(t, '-'), '|'))));
  }

  /** Every character of a cleaned title is a word character, a space, `&`
      or `'`. */
  lemma FinishedChars(t: string)
    ensures forall k :: 0 <= k < |Finished(t)| ==> CleanChar(Finished(t)[k])
  {
    var m := MaskChars(Before(Before(t, '-'), '|'));
    CollapseKeeps(m, CleanChar);
    StripKeeps(CollapseSpaces(m), CleanChar);
  }

  /** A cleaned title has no whitespace at either end. */
  lemma CleanedTitleTrimmed(raw: string)
    ensures Trimmed(CleanedTitle(raw))
  {
    FinishedSpacing(RemoveAllWords(Unbracketed(raw), JunkWords));
  }

  /** A cleaned title has only single spaces and no other whitespace. */
  lemma CleanedTitleSingleSpaced(raw: string)
    ensures SingleSpaced(CleanedTitle(raw))
  {
    FinishedSpacing(RemoveAllWords(Unbracketed(raw), JunkWords));
  }

  /** A cleaned title holds only word characters, spaces, `&` and `'`. */
  lemma CleanedTitleChars(raw: string)
    ensures forall k :: 0 <= k < |CleanedTitle(raw)| ==> CleanChar(CleanedTitle(raw)[k])
  {
    FinishedChars(RemoveAllWords(Unbracketed(raw), JunkWords));
  }

  /** In particular a cleaned title has no `-` and no `|`. */
  lemma CleanedTitleNoSeparators(raw: string)
    ensures '-' !in CleanedTitle(raw) && '|' !in CleanedTitle(raw)
  {
    CleanedTitleChars(raw);
    NoSeparators(CleanedTitle(raw));
  }

  /** After the round-bracket pass no `(...)` span is left, and after the
      square-bracket pass no `[...]` span. */
  lemma UnbracketedSpans(raw: string)
    ensures NoSpan(RemoveSpans(SplitExt(raw).0, '(', ')'), '(', ')')
    ensures NoSpan(Unbracketed(raw), '[', ']')
  {
    NoSpanLeft(SplitExt(raw).0, '(', ')', 0);
    NoSpanLeft(RemoveSpans(SplitExt(raw).0, '(', ')'), '[', ']', 0);
  }

  /** Only the text before the first `-`, and of that the text before the
      first `|`, reaches the character mask. */
  lemma CutAtSeparators(t: string)
    ensures var b := Before(Before(t, '-'), '|');
      b <= t && '-' !in b && '|' !in b
    ensures var b := Before(t, '-');
      |b| < |t| ==> t[|b|] == '-'
  {
    var a := Before(t, '-');
    var b := Before(a, '|');
    assert a == t[..|a|] && b == a[..|b|];
    assert b == t[..|b|];
    assert forall x :: x in b ==> x in a by {
      forall x | x in b ensures x in a {
        var k :| 0 <= k < |b| && b[k] == x;
        assert a[k] == x;
      }
    }
  }

  // ---------------------------------------------------------------- the rename and the record

  /** `list_mp3_files` over a directory listing. */
  function Mp3Files(listing: seq<string>): (fs: seq<string>)
    ensures forall f :: f in fs <==> f in listing && IsMp3(f)
  {
    if listing == [] then []
    else (if IsMp3(listing[0]) then [listing[0]] else []) + Mp3Files(listing[1..])
  }

  /** `files_to_process`: the audio files not yet keyed in `existing`. */
  function ToProcess(files: seq<string>, existing: Record): (fs: seq<string>)
    ensures forall f :: f in fs <==> f in files && f !in existing.entries
    ensures |fs| <= |files|
  {
    if files == [] then []
    else (if files[0] !in existing.entries then [files[0]] else []) + ToProcess(files[1..], existing)
  }

  /** The cleaned title of a file: `clean_title(os.path.splitext(f)[0])`. */
  function CleanName(f: string): string {
    CleanedTitle(SplitExt(f).0)
  }

  /** The renamed file `<clean>_<uuid><ext>`, keeping the original extension. */
  function RenamedTo(f: string, uuid: string, clean: string): string {
    clean + "_" + uuid + SplitExt(f).1
  }

  /** The record for a title the catalogue has no match for. */
  function NoMatchRecord(uuid: string, clean: string): (d: Record)
    ensures d.keys == ["song_id", "title", "metadata"]
    ensures d.entries == map["song_id" := Str(uuid), "title" := Str(clean), "metadata" := Null]
  {
    OrderedMap(["song_id", "title", "metadata"], map["song_id" := Str(uuid), "title" := Str(clean), "metadata" := Null])
  }

  /** What `task` stores under the new name: the looked-up record with its
      `song_id` replaced by the file's uuid when the lookup gave a non-empty
      dict, the no-match record otherwise. */
  function TaskRecord(found: Option<Record>, uuid: string, clean: string): (v: Value)
    ensures v.Object? && "song_id" in v.fields.entries && v.fields.entries["song_id"] == Str(uuid)
    ensures (found.Some? && found.value.keys != []) ==> v.fields == Put(found.value, "song_id", Str(uuid))
    ensures !(found.Some? && found.value.keys != []) ==> v.fields == NoMatchRecord(uuid, clean)
  {
    if found.Some? && Truthy(Object(found.value)) then Object(Put(found.value, "song_id", Str(uuid)))
    else Object(NoMatchRecord(uuid, clean))
  }

  /** The name `task` gives a file, for its cleaned title and uuid. */
  function NewName(f: string, clean: string, uuid: string): string {
    RenamedTo(f, uuid, clean)
  }

  /** The record `task` stores for a file, for its cleaned title and uuid. */
  function NewRecord(clean: string, fetch: string -> Option<Record>, uuid: string): Value {
    TaskRecord(fetch(clean), uuid, clean)
  }

  /** One call of `task`: clean the name, look the title up, draw the uuid,
      rename, and store the record under the new name. */
  method Task(existing: Record, filename: string, fetch: string -> Option<Record>, uuidOf: string -> string)
    returns (updated: Record)
    ensures var clean := CleanName(filename);
      updated == Put(existing, NewName(filename, clean, uuidOf(filename)), NewRecord(clean, fetch, uuidOf(filename)))
  {
    var rawTitle := SplitExt(filename).0;
    var clean := CleanTitle(rawTitle);
    var metadata := fetch(clean);
    var songUuid := uuidOf(filename);
    var ext := SplitExt(filename).1;
    var newName := clean + "_" + songUuid + ext;
    updated := Put(existing, newName, TaskRecord(metadata, songUuid, clean));
  }

  /** The new names of the files, in order, `cleanOf` giving each file's
      cleaned title. */
  function NewNames(todo: seq<string>, cleanOf: string -> string, uuidOf: string -> string): (ns: seq<string>)
    ensures |ns| == |todo|
    ensures forall j :: 0 <= j < |todo| ==> ns[j] == NewName(todo[j], cleanOf(todo[j]), uuidOf(todo[j]))
  {
    if todo == [] then [] else [NewName(todo[0], cleanOf(todo[0]), uuidOf(todo[0]))] + NewNames(todo[1..], cleanOf, uuidOf)
  }

  /** The records of the files, in order. */
  function NewRecords(todo: seq<string>, cleanOf: string -> string, fetch: string -> Option<Record>,
                      uuidOf: string -> string): (vs: seq<Value>)
    ensures |vs| == |todo|
    ensures forall j :: 0 <= j < |todo| ==> vs[j] == NewRecord(cleanOf(todo[j]), fetch, uuidOf(todo[j]))
  {
    if todo == [] then [] else [NewRecord(cleanOf(todo[0]), fetch, uuidOf(todo[0]))] + NewRecords(todo[1..], cleanOf, fetch, uuidOf)
  }

  /** The metadata file after the first `n` tasks: the `j`-th record stored
      under the `j`-th name, in order. */
  function PairedUpTo(existing: Record, names: seq<string>, records: seq<Value>, n: nat): Record
    requires n <= |names| && n <= |records|
  {
    if n == 0 then existing
    else Put(PairedUpTo(existing, names, records, n - 1), names[n - 1], records[n - 1])
  }

  /** The same file after the first `n` tasks, one task at a time. */
  function PairedOver(existing: Record, todo: seq<string>, cleanOf: string -> string, fetch: string -> Option<Record>,
                      uuidOf: string -> string, n: nat): Record
    requires n <= |todo|
  {
    if n == 0 then existing
    else
      var f := todo[n - 1];
      Put(PairedOver(existing, todo, cleanOf, fetch, uuidOf, n - 1), NewName(f, cleanOf(f), uuidOf(f)),
        NewRecord(cleanOf(f), fetch, uuidOf(f)))
  }

  lemma {:induction false} PairedOverNames(existing: Record, todo: seq<string>, cleanOf: string -> string,
                                           fetch: string -> Option<Record>, uuidOf: string -> string, n: nat)
    requires n <= |todo|
    ensures PairedOver(existing, todo, cleanOf, fetch, uuidOf, n)
      == PairedUpTo(existing, NewNames(todo, cleanOf, uuidOf), NewRecords(todo, cleanOf, fetch, uuidOf), n)
  {
    if n > 0 {
      PairedOverNames(existing, todo, cleanOf, fetch, uuidOf, n - 1);
      var f := todo[n - 1];
      var names := NewNames(todo, cleanOf, uuidOf);
      var records := NewRecords(todo, cleanOf, fetch, uuidOf);
      assert names[n - 1] == NewName(f, cleanOf(f), uuidOf(f));
      assert records[n - 1] == NewRecord(cleanOf(f), fetch, uuidOf(f));
      PutSame(PairedOver(existing, todo, cleanOf, fetch, uuidOf, n - 1), PairedUpTo(existing, names, records, n - 1),
        NewName(f, cleanOf(f), uuidOf(f)), names[n - 1], NewRecord(cleanOf(f), fetch, uuidOf(f)), records[n - 1]);
    }
  }

  lemma PutSame(a: Record, b: Record, k: string, k': string, v: Value, v': Value)
    requires a == b && k == k' && v == v'
    ensures Put(a, k, v) == Put(b, k', v')
  {
  }

  /** The metadata file after every `task` call. */
  function Paired(existing: Record, todo: seq<string>, fetch: string -> Option<Record>, uuidOf: string -> string): Record {
    PairedOver(existing, todo, CleanName, fetch, uuidOf, |todo|)
  }

  /** The loop over the files to process, one `task` after another. */
  method PairFiles(existing: Record, todo: seq<string>, fetch: string -> Option<Record>, uuidOf: string -> string)
    returns (result: Record)
    ensures result == Paired(existing, todo, fetch, uuidOf)
  {
    result := existing;
    for i := 0 to |todo|
      invariant result == PairedOver(existing, todo, CleanName, fetch, uuidOf, i)
    {
      result := Task(result, todo[i], fetch, uuidOf);
    }
  }

  /** `main` after loading: `task` runs over the audio files of the listing
      that are not keyed yet. */
  method PairAll(existing: Record, listing: seq<string>, fetch: string -> Option<Record>, uuidOf: string -> string)
    returns (result: Record)
    ensures result == Paired(existing, ToProcess(Mp3Files(listing), existing), fetch, uuidOf)
  {
    var localFiles := Mp3Files(listing);
    var filesToProcess := ToProcess(localFiles, existing);
    result := PairFiles(existing, filesToProcess, fetch, uuidOf);
  }

  // ---------------------------------------------------------------- properties of main

  /** Nothing is lost: the keys of the result are the keys already present
      and the new names; nothing else. */
  lemma {:induction false} PairedKeys(existing: Record, names: seq<string>, records: seq<Value>, n: nat)
    requires n <= |names| && n <= |records|
    ensures forall k :: k in PairedUpTo(existing, names, records, n).entries <==> k in existing.entries || k in names[..n]
  {
    if n > 0 {
      PairedKeys(existing, names, records, n - 1);
      assert names[..n] == names[..n - 1] + [names[n - 1]];
    }
  }

  /** The record stored under a new name is that file's record unless a later
      file renames to the same name. */
  lemma {:induction false} PairedEntry(existing: Record, names: seq<string>, records: seq<Value>, n: nat, j: nat)
    requires j < n <= |names| && n <= |records|
    requires forall l :: j < l < n ==> names[l] != names[j]
    ensures var r := PairedUpTo(existing, names, records, n);
      names[j] in r.entries && r.entries[names[j]] == records[j]
  {
    if j < n - 1 {
      PairedEntry(existing, names, records, n - 1, j);
    }
  }

  /** An existing entry survives unchanged unless some new name equals its key. */
  lemma {:induction false} ExistingKept(existing: Record, names: seq<string>, records: seq<Value>, n: nat, k: string)
    requires n <= |names| && n <= |records| && k in existing.entries
    requires forall l :: 0 <= l < n ==> names[l] != k
    ensures var r := PairedUpTo(existing, names, records, n);
      k in r.entries && r.entries[k] == existing.entries[k]
  {
    if n > 0 {
      ExistingKept(existing, names, records, n - 1, k);
    }
  }
}
