/** The title patch: re-derive each entry's title, and its song id when the
    file name carries one, from the file name, and rewrite the entry to the
    strict schema. */
module PatchTitles {
  import opened Wrappers
  import opened Dicts
  import opened Json
  import opened Text
  import opened Schema

  /** One position of a fixed-width pattern: a hex digit or one given
      character. */
  datatype CharClass = Hex | Exactly(c: char)

  /** `[0-9a-f]` under IGNORECASE. */
  predicate IsHex(c: char) {
    IsDigit(c) || ('a' <= c <= 'f') || ('A' <= c <= 'F')
  }

  predicate Fits(c: char, cl: CharClass) {
    match cl
    case Hex => IsHex(c)
    case Exactly(x) => c == x
  }

  function Hexes(n: nat): (pat: seq<CharClass>)
    ensures |pat| == n && forall k :: 0 <= k < n ==> pat[k] == Hex
  {
    seq(n, _ => Hex)
  }

  /** `[0-9a-f]{8}_[0-9a-f]{8}-[0-9a-f]{4}-[0-9a-f]{4}-[0-9a-f]{4}-[0-9a-f]{12}`. */
  const IdPattern: seq<CharClass> :=
    Hexes(8) + [Exactly('_')] + Hexes(8) + [Exactly('-')] + Hexes(4) + [Exactly('-')]
    + Hexes(4) + [Exactly('-')] + Hexes(4) + [Exactly('-')] + Hexes(12)

  const IdLength := 45

  lemma IdPatternLength()
    ensures |IdPattern| == IdLength
  {
  }

  /** The pattern `pat` matches the characters of `s` from position `p` on. */
  predicate MatchesFrom(s: string, p: nat, pat: seq<CharClass>)
    decreases pat
  {
    if pat == [] then p <= |s|
    else p < |s| && Fits(s[p], pat[0]) && MatchesFrom(s, p + 1, pat[1..])
  }

  lemma {:induction false} MatchesFromIff(s: string, p: nat, pat: seq<CharClass>)
    ensures MatchesFrom(s, p, pat) <==>
      (p + |pat| <= |s| && forall k :: 0 <= k < |pat| ==> Fits(s[p + k], pat[k]))
    decreases pat
  {
    if pat != [] {
      MatchesFromIff(s, p + 1, pat[1..]);
      if p + |pat| <= |s| && forall k :: 0 <= k < |pat| ==> Fits(s[p + k], pat[k]) {
        forall k | 0 <= k < |pat| - 1
          ensures Fits(s[p + 1 + k], pat[1..][k])
        {
          assert Fits(s[p + (k + 1)], pat[k + 1]);
        }
        assert Fits(s[p + 0], pat[0]);
      }
      if MatchesFrom(s, p, pat) {
        assert p + |pat| <= |s|;
        forall k | 0 <= k < |pat|
          ensures Fits(s[p + k], pat[k])
        {
          if k > 0 {
            assert Fits(s[p + 1 + (k - 1)], pat[1..][k - 1]);
          }
        }
      }
    }
  }

  /** The id pattern matches the 45 characters of `s` starting at `p`. */
  predicate IdAt(s: string, p: nat) {
    MatchesFrom(s, p, IdPattern)
  }

  /** A pattern match depends only on the characters it covers. */
  lemma SameCharsSameMatch(s: string, p: nat, t: string, q: nat)
    requires p + IdLength <= |s| && q + IdLength <= |t|
    requires s[p..p + IdLength] == t[q..q + IdLength]
    ensures IdAt(s, p) <==> IdAt(t, q)
  {
    IdPatternLength();
    forall k | 0 <= k < IdLength
      ensures Fits(s[p + k], IdPattern[k]) == Fits(t[q + k], IdPattern[k])
    {
      assert s[p + k] == s[p..p + IdLength][k] && t[q + k] == t[q..q + IdLength][k];
    }
    MatchesFromIff(s, p, IdPattern);
    MatchesFromIff(t, q, IdPattern);
  }

  predicate IsSongId(id: string) {
    |id| == IdLength && IdAt(id, 0)
  }

  /** `UUID_SUFFIX_RE.search(s)`: where the match starts. Without MULTILINE,
      `$` matches at the very end and also just before a final line feed; the
      leftmost of the two candidate starts is tried first. */
  function SuffixMatch(s: string): (m: Option<nat>)
    ensures m.Some? ==> IdAt(s, m.value)
    ensures m.Some? ==> (m.value + IdLength == |s| || (m.value + IdLength + 1 == |s| && s[|s| - 1] == '\n'))
    ensures m.None? ==> forall p: nat :: p + IdLength == |s| ==> !IdAt(s, p)
    ensures m.None? && |s| > 0 && s[|s| - 1] == '\n' ==> forall p: nat :: p + IdLength + 1 == |s| ==> !IdAt(s, p)
  {
    if |s| >= IdLength + 1 && s[|s| - 1] == '\n' && IdAt(s, |s| - IdLength - 1) then Some(|s| - IdLength - 1)
    else if |s| >= IdLength && IdAt(s, |s| - IdLength) then Some(|s| - IdLength)
    else None
  }

  /** The matched id, as `match.group(1)`. */
  function MatchedId(s: string, p: nat): (id: string)
    requires p + IdLength <= |s| && IdAt(s, p)
    ensures IsSongId(id)
  {
    var id := s[p..p + IdLength];
    assert id[0..IdLength] == id;
    SameCharsSameMatch(s, p, id, 0);
    id
  }

  /** `extract_id_and_title` as written: on a match the title is
      `base[:-len(song_id) - 1]`, counted from the end of the base. */
  function ExtractAsWritten(base: string): (r: (Option<string>, string))
    ensures r.0.Some? <==> SuffixMatch(base).Some?
    ensures r.0.Some? ==> IsSongId(r.0.value)
    ensures Trimmed(r.1)
  {
    match SuffixMatch(base)
    case Some(p) =>
      var cut := if |base| >= IdLength + 1 then |base| - IdLength - 1 else 0;
      (Some(MatchedId(base, p)), Strip(base[..cut]))
    case None => (None, Strip(base))
  }

  /** `extract_id_and_title` as intended: the title is what comes before the
      character that precedes the matched id. This differs from the code only
      when the base ends with a line feed. */
  function ExtractIdAndTitle(base: string): (r: (Option<string>, string))
    ensures r.0.Some? <==> SuffixMatch(base).Some?
    ensures r.0.Some? ==> IsSongId(r.0.value)
    ensures r.0.None? ==> r.1 == Strip(base)
    ensures Trimmed(r.1)
  {
    match SuffixMatch(base)
    case Some(p) =>
      var cut := if p >= 1 then p - 1 else 0;
      (Some(MatchedId(base, p)), Strip(base[..cut]))
    case None => (None, Strip(base))
  }

  // ---------------------------------------------------------------- the title and id

  /** The id ends in a hex digit, so it is never followed by its own line feed. */
  lemma SuffixOfJoined(t: string, id: string)
    requires IsSongId(id)
    ensures SuffixMatch(t + "_" + id) == Some(|t| + 1)
  {
    var s := t + "_" + id;
    assert s[|t| + 1..|t| + 1 + IdLength] == id == id[0..IdLength];
    SameCharsSameMatch(s, |t| + 1, id, 0);
    EndsInHex(id);
    assert s[|s| - 1] == id[IdLength - 1];
  }

  /** The last character of an id is a hex digit. */
  lemma EndsInHex(id: string)
    requires IsSongId(id)
    ensures IsHex(id[IdLength - 1])
  {
    IdPatternLength();
    MatchesFromIff(id, 0, IdPattern);
    assert IdPattern[IdLength - 1] == Hex;
  }

  /** The docstring's round trip: a title, an underscore and an id give back
      the id and the stripped title. */
  lemma ExtractRoundTrip(t: string, id: string)
    requires IsSongId(id)
    ensures ExtractIdAndTitle(t + "_" + id) == (Some(id), Strip(t))
  {
    var s := t + "_" + id;
    SuffixOfJoined(t, id);
    assert s[..|t|] == t;
    assert s[|t| + 1..|t| + 1 + IdLength] == id;
  }

  /** The code and the intended rule agree on every base that does not end
      with a line feed. */
  lemma AsWrittenAgrees(base: string)
    requires base == [] || base[|base| - 1] != '\n'
    ensures ExtractAsWritten(base) == ExtractIdAndTitle(base)
  {
  }

  /** With a final line feed, the code keeps the separator in the title:
      `t + "_" + id + "\n"` gives the title `(t + "_").strip()` rather than
      `t.strip()`. */
  lemma AsWrittenKeepsSeparator(t: string, id: string)
    requires IsSongId(id)
    ensures ExtractAsWritten(t + "_" + id + "\n") == (Some(id), Strip(t + "_"))
    ensures ExtractIdAndTitle(t + "_" + id + "\n") == (Some(id), Strip(t))
  {
    var s := t + "_" + id + "\n";
    assert s[|t| + 1..|t| + 1 + IdLength] == id == id[0..IdLength];
    SameCharsSameMatch(s, |t| + 1, id, 0);
    assert SuffixMatch(s) == Some(|t| + 1);
    assert s[..|t| + 1] == t + "_";
    assert s[..|t|] == t;
    assert s[|t| + 1..|t| + 1 + IdLength] == id;
  }

  /** The docstring's example title, with a final line feed after the id:
      the code as written keeps the separator. */
  lemma AsWrittenExample(id: string)
    requires IsSongId(id)
    ensures ExtractAsWritten("Jaane De_" + id + "\n").1 == "Jaane De_"
  {
    var t := "Jaane De";
    assert "Jaane De_" + id + "\n" == t + "_" + id + "\n";
    AsWrittenKeepsSeparator(t, id);
    StripExampleSeparated();
  }

  /** The example title with its separator has no surrounding white space. */
  lemma StripExampleSeparated()
    ensures Strip("Jaane De" + "_") == "Jaane De_"
  {
    var t := "Jaane De_";
    assert t == "Jaane De" + "_";
    assert t[0] == 'J' && t[|t| - 1] == '_';
    StripTrimmed(t);
  }

  /** The same title, read by the corrected extraction. */
  lemma CorrectedExample(id: string)
    requires IsSongId(id)
    ensures ExtractIdAndTitle("Jaane De_" + id + "\n").1 == "Jaane De"
  {
    var t := "Jaane De";
    assert "Jaane De_" + id + "\n" == t + "_" + id + "\n";
    AsWrittenKeepsSeparator(t, id);
    StripExampleTitle();
  }

  /** The example title has no surrounding white space. */
  lemma StripExampleTitle()
    ensures Strip("Jaane De") == "Jaane De"
  {
    var t := "Jaane De";
    assert t[0] == 'J' && t[|t| - 1] == 'e';
    StripTrimmed(t);
  }

  /** A file `<title>_<id>.<ext>` patches to that title and id. */
  lemma FileNameRoundTrip(t: string, id: string, ext: string)
    requires IsSongId(id)
    requires |ext| >= 1 && ext[0] == '.' && '.' !in ext[1..] && '/' !in ext
    ensures ExtractIdAndTitle(SplitExt(t + "_" + id + ext).0) == (Some(id), Strip(t))
  {
    var stem := t + "_" + id;
    EndsInHex(id);
    assert stem[|stem| - 1] == id[IdLength - 1];
    assert LastIndexOf(stem, '/') < |stem| - 1;
    SplitExtOfName(stem, ext);
    ExtractRoundTrip(t, id);
  }

  // ---------------------------------------------------------------- the strict record

  /** `k in entry and entry[k] is not None`. */
  predicate Present(entry: Value, k: string) {
    entry.Object? && k in entry.fields.entries && entry.fields.entries[k] != Null
  }

  function KeptField(entry: Value, k: string): Value {
    if Present(entry, k) then entry.fields.entries[k] else Null
  }

  /** Field `k` of the strict record for one entry, given the id and title
      taken from its file name: the title always replaced, the song id replaced
      when one was found, and otherwise the entry's non-None value. */
  function PatchedField(entry: Value, id: Option<string>, title: string, k: string): Value {
    if k == "title" then Str(title)
    else if k == "song_id" && id.Some? && id.value != "" then Str(id.value)
    else KeptField(entry, k)
  }

  /** The strict record `fixed` for one entry. */
  function PatchedEntry(entry: Value, id: Option<string>, title: string): (d: Record)
    ensures d.keys == SchemaKeys
    ensures forall k :: k in SchemaKeys ==> k in d.entries && d.entries[k] == PatchedField(entry, id, title, k)
  {
    OrderedMap(SchemaKeys, map k | k in SchemaKeys :: PatchedField(entry, id, title, k))
  }

  /** Lines `if song_id: fixed["song_id"] = song_id` and
      `fixed["title"] = title` on a record with the schema's keys. */
  function WithIdAndTitle(b: Record, id: Option<string>, title: string): (d: Record)
    requires b.keys == SchemaKeys
    ensures d.keys == SchemaKeys
  {
    assert "song_id" in b.entries && "title" in b.entries;
    var c := if id.Some? && id.value != "" then Put(b, "song_id", Str(id.value)) else b;
    Put(c, "title", Str(title))
  }

  lemma WithIdAndTitleField(b: Record, entry: Value, id: Option<string>, title: string, k: string)
    requires b.keys == SchemaKeys
    requires forall k :: k in SchemaKeys ==> b.entries[k] == KeptField(entry, k)
    requires k in SchemaKeys
    ensures WithIdAndTitle(b, id, title).entries[k] == PatchedField(entry, id, title, k)
  {
  }

  /** Setting the id and title on the copied fields gives the strict record. */
  lemma WithIdAndTitlePatched(b: Record, entry: Value, id: Option<string>, title: string)
    requires b.keys == SchemaKeys
    requires forall k :: k in SchemaKeys ==> b.entries[k] == KeptField(entry, k)
    ensures WithIdAndTitle(b, id, title) == PatchedEntry(entry, id, title)
  {
    forall k | k in SchemaKeys
      ensures WithIdAndTitle(b, id, title).entries[k] == PatchedEntry(entry, id, title).entries[k]
    {
      WithIdAndTitleField(b, entry, id, title, k);
    }
    SchemaRecordsEqual(WithIdAndTitle(b, id, title), PatchedEntry(entry, id, title));
  }

  /** Lines `fixed = {k: None for k in SCHEMA_KEYS}` and the copy of a dict
      entry's non-None schema fields. */
  method CopySchemaFields(entry: Value) returns (fixed: Record)
    ensures fixed.keys == SchemaKeys
    ensures forall k :: k in SchemaKeys ==> fixed.entries[k] == KeptField(entry, k)
  {
    fixed := NoneRecord();
    if entry.Object? {
      var i := 0;
      while i < |SchemaKeys|
        invariant 0 <= i <= |SchemaKeys|
        invariant fixed.keys == SchemaKeys
        invariant forall k :: k in SchemaKeys ==>
          fixed.entries[k] == (if k in SchemaKeys[..i] then KeptField(entry, k) else Null)
      {
        var k := SchemaKeys[i];
        assert SchemaKeys[..i + 1] == SchemaKeys[..i] + [k];
        assert k !in SchemaKeys[..i];
        if k in entry.fields.entries && entry.fields.entries[k] != Null {
          fixed := Put(fixed, k, entry.fields.entries[k]);
        }
        i := i + 1;
      }
      assert SchemaKeys[..i] == SchemaKeys;
    }
  }

  /** The body of the loop for one entry: the copied fields, then the id and
      the title from the file name. */
  method FixEntry(entry: Value, id: Option<string>, title: string) returns (fixed: Record)
    ensures fixed == PatchedEntry(entry, id, title)
  {
    fixed := CopySchemaFields(entry);
    WithIdAndTitlePatched(fixed, entry, id, title);
    ghost var copied := fixed;
    if id.Some? && id.value != "" {
      fixed := Put(fixed, "song_id", Str(id.value));
    }
    fixed := Put(fixed, "title", Str(title));
    assert fixed == WithIdAndTitle(copied, id, title);
  }

  /** The id and title a file name yields: `extract_id_and_title` on the
      name without its extension. */
  function FileNames(filename: string): (Option<string>, string) {
    ExtractIdAndTitle(SplitExt(filename).0)
  }

  /** The id and title the script as written takes from a file name
      (`extract_id_and_title` with its `[:-46]` slice). */
  function FileNamesAsWritten(filename: string): (Option<string>, string) {
    ExtractAsWritten(SplitExt(filename).0)
  }

  /** The two file-name rules differ only on a name whose base ends with a
      line feed. */
  predicate NoFinalLineFeed(filename: string) {
    var base := SplitExt(filename).0;
    base == [] || base[|base| - 1] != '\n'
  }

  /** The strict record for the entry stored under `filename`, where `names`
      reads the id and title off a file name. */
  function PatchedOf(names: string -> (Option<string>, string), filename: string, entry: Value): Record {
    PatchedEntry(entry, names(filename).0, names(filename).1)
  }

  /** `fixed != entry`, with dicts compared as mappings. */
  predicate Changed(names: string -> (Option<string>, string), filename: string, entry: Value) {
    !SameMapping(PatchedOf(names, filename, entry), entry)
  }

  /** The patched records of the first `n` files, in file order. */
  function PatchedUpTo(d: Record, names: string -> (Option<string>, string), n: nat): (p: Record)
    requires n <= |d.keys|
    ensures p.keys == d.keys[..n]
  {
    if n == 0 then Empty()
    else
      var rest := PatchedUpTo(d, names, n - 1);
      var f := d.keys[n - 1];
      assert f !in rest.entries by {
        assert forall j :: 0 <= j < n - 1 ==> d.keys[j] != f;
      }
      assert d.keys[..n] == d.keys[..n - 1] + [f];
      Put(rest, f, Object(PatchedOf(names, f, d.entries[f])))
  }

  lemma {:induction false} PatchedUpToEntry(d: Record, names: string -> (Option<string>, string), n: nat, j: nat)
    requires j < n <= |d.keys|
    ensures PatchedUpTo(d, names, n).entries[d.keys[j]] == Object(PatchedOf(names, d.keys[j], d.entries[d.keys[j]]))
  {
    if j < n - 1 {
      PatchedUpToEntry(d, names, n - 1, j);
      assert d.keys[j] != d.keys[n - 1];
    }
  }

  /** The patched file: the same file names in the same order, each with its
      strict record. */
  function PatchedWith(d: Record, names: string -> (Option<string>, string)): (p: Record)
    ensures p.keys == d.keys
    ensures forall f :: f in d.entries ==> p.entries[f] == Object(PatchedOf(names, f, d.entries[f]))
  {
    var p := PatchedUpTo(d, names, |d.keys|);
    assert d.keys[..|d.keys|] == d.keys;
    PatchedAllEntries(d, names);
    p
  }

  lemma PatchedAllEntries(d: Record, names: string -> (Option<string>, string))
    ensures forall f :: f in d.entries ==>
      PatchedUpTo(d, names, |d.keys|).entries[f] == Object(PatchedOf(names, f, d.entries[f]))
  {
    forall f | f in d.entries
      ensures PatchedUpTo(d, names, |d.keys|).entries[f] == Object(PatchedOf(names, f, d.entries[f]))
    {
      var j :| 0 <= j < |d.keys| && d.keys[j] == f;
      PatchedUpToEntry(d, names, |d.keys|, j);
    }
  }

  /** How many of the first `n` files have an entry the patch changes. */
  function ChangedCount(data: Record, names: string -> (Option<string>, string), n: nat): (c: nat)
    requires n <= |data.keys|
    ensures c <= n
  {
    if n == 0 then 0
    else
      var f := data.keys[n - 1];
      ChangedCount(data, names, n - 1) + (if Changed(names, f, data.entries[f]) then 1 else 0)
  }

  function Patched(data: Record): Record {
    PatchedWith(data, FileNames)
  }

  /** The loop of `patch_metadata` over `data.items()`, with the file-name
      parser `names` as a parameter: each entry is rewritten by `FixEntry`,
      stored under its file name, and counted when it changed. */
  method PatchEntries(d: Record, names: string -> (Option<string>, string)) returns (patched: Record, fixedCount: nat)
    ensures patched == PatchedWith(d, names)
    ensures fixedCount == ChangedCount(d, names, |d.keys|)
  {
    patched := Empty();
    fixedCount := 0;
    var i := 0;
    while i < |d.keys|
      invariant 0 <= i <= |d.keys|
      invariant patched == PatchedUpTo(d, names, i)
      invariant fixedCount == ChangedCount(d, names, i)
    {
      var filename := d.keys[i];
      var entry := d.entries[filename];
      var (id, title) := names(filename);
      var fixed := FixEntry(entry, id, title);
      patched := Put(patched, filename, Object(fixed));
      if !SameMapping(fixed, entry) {
        fixedCount := fixedCount + 1;
      }
      i := i + 1;
    }
  }

  /** `patch_metadata` on the parsed file: the patched data and `fixed_count`.
      A top-level value that is not an object has no `items`. */
  method PatchMetadata(data: Value) returns (r: Result<(Record, nat)>)
    ensures r.Ok? <==> data.Object?
    ensures r.Ok? ==> r.value == (Patched(data.fields), ChangedCount(data.fields, FileNames, |data.fields.keys|))
  {
    if !data.Object? {
      return Err("AttributeError: object has no attribute 'items'");
    }
    var patched, fixedCount := PatchEntries(data.fields, FileNames);
    r := Ok((patched, fixedCount));
  }

  /** `patch_metadata` exactly as written, with the `[:-46]` title slice. */
  method PatchMetadataAsWritten(data: Value) returns (r: Result<(Record, nat)>)
    ensures r.Ok? <==> data.Object?
    ensures r.Ok? ==> r.value == (PatchedWith(data.fields, FileNamesAsWritten),
      ChangedCount(data.fields, FileNamesAsWritten, |data.fields.keys|))
  {
    if !data.Object? {
      return Err("AttributeError: object has no attribute 'items'");
    }
    var patched, fixedCount := PatchEntries(data.fields, FileNamesAsWritten);
    r := Ok((patched, fixedCount));
  }

  // ---------------------------------------------------------------- properties

  lemma NamesAgree(f: string)
    requires NoFinalLineFeed(f)
    ensures FileNamesAsWritten(f) == FileNames(f)
  {
    AsWrittenAgrees(SplitExt(f).0);
  }

  /** When no file name's base ends with a line feed, the script as written
      and the corrected one write the same records. */
  lemma PatchedAsWrittenAgrees(data: Record)
    requires forall f :: f in data.entries ==> NoFinalLineFeed(f)
    ensures PatchedWith(data, FileNamesAsWritten) == Patched(data)
  {
    var a := PatchedWith(data, FileNamesAsWritten);
    var b := PatchedWith(data, FileNames);
    forall f | f in data.entries
      ensures a.entries[f] == b.entries[f]
    {
      SameRecord(data, f);
    }
    SameEntries(a, b, data);
  }

  lemma SameRecord(data: Record, f: string)
    requires f in data.entries && NoFinalLineFeed(f)
    ensures PatchedWith(data, FileNamesAsWritten).entries[f] == PatchedWith(data, FileNames).entries[f]
  {
    NamesAgree(f);
    assert PatchedOf(FileNamesAsWritten, f, data.entries[f]) == PatchedOf(FileNames, f, data.entries[f]);
  }

  /** Two patch results over the same file names with the same records are one. */
  lemma SameEntries(a: Record, b: Record, data: Record)
    requires a.keys == data.keys && b.keys == data.keys
    requires forall f :: f in data.entries ==> a.entries[f] == b.entries[f]
    ensures a == b
  {
    assert a.entries.Keys == b.entries.Keys;
    assert a.entries == b.entries;
  }

  /** As written, the file `t_<id>\n.mp3` yields the title `(t + "_").strip()`. */
  lemma AsWrittenFileName(f: string, t: string, id: string)
    requires IsSongId(id) && f == t + "_" + id + "\n.mp3"
    ensures FileNamesAsWritten(f) == (Some(id), Strip(t + "_"))
  {
    var base := t + "_" + id + "\n";
    assert f == base + ".mp3";
    assert base[|base| - 1] == '\n';
    assert LastIndexOf(base, '/') < |base| - 1;
    SplitExtOfName(base, ".mp3");
    AsWrittenKeepsSeparator(t, id);
  }

  /** Every patched record carries the title its file name yields. */
  lemma PatchedTitle(data: Record, names: string -> (Option<string>, string), f: string)
    requires f in data.entries
    ensures PatchedWith(data, names).entries[f].fields.entries["title"] == Str(names(f).1)
  {
    assert "title" in SchemaKeys;
  }

  /** Patching a patched entry changes nothing. */
  lemma PatchedEntryIdempotent(entry: Value, id: Option<string>, title: string)
    ensures PatchedEntry(Object(PatchedEntry(entry, id, title)), id, title) == PatchedEntry(entry, id, title)
  {
    var once := PatchedEntry(entry, id, title);
    var twice := PatchedEntry(Object(once), id, title);
    forall k | k in SchemaKeys
      ensures twice.entries[k] == once.entries[k]
    {
    }
    SchemaRecordsEqual(twice, once);
  }

  /** Patching an entry of the patched records gives what patching the
      original entry gave. */
  lemma RepatchSame(data: Record, names: string -> (Option<string>, string))
    ensures forall f :: f in data.entries ==>
      PatchedOf(names, f, PatchedWith(data, names).entries[f]) == PatchedOf(names, f, data.entries[f])
  {
    var p := PatchedWith(data, names);
    forall f | f in data.entries
      ensures PatchedOf(names, f, p.entries[f]) == PatchedOf(names, f, data.entries[f])
    {
      PatchedEntryIdempotent(data.entries[f], names(f).0, names(f).1);
    }
  }

  /** Running the patch on its own output gives the same output. */
  lemma PatchTwice(data: Record, names: string -> (Option<string>, string))
    ensures PatchedWith(PatchedWith(data, names), names) == PatchedWith(data, names)
  {
    RepatchSame(data, names);
  }

  /** Running the patch on its own output counts no fixes. */
  lemma RepatchCountsNothing(data: Record, names: string -> (Option<string>, string))
    ensures ChangedCount(PatchedWith(data, names), names, |data.keys|) == 0
  {
    RepatchSame(data, names);
    NothingChanged(PatchedWith(data, names), names, |data.keys|);
  }

  lemma {:induction false} NothingChanged(p: Record, names: string -> (Option<string>, string), n: nat)
    requires n <= |p.keys|
    requires forall f :: f in p.entries ==> p.entries[f].Object? && PatchedOf(names, f, p.entries[f]) == p.entries[f].fields
    ensures ChangedCount(p, names, n) == 0
  {
    if n > 0 {
      NothingChanged(p, names, n - 1);
    }
  }
}
