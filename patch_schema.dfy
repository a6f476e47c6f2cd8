/** The schema patch: every entry of the metadata file is rewritten to the
    strict nine-field schema, copying the fields it has, None included. */
module PatchSchema {
  import opened Wrappers
  import opened Dicts
  import opened Json
  import opened Schema

  /** `fixed[key] = meta[key]` for a schema key present in a dict entry. */
  function CopiedField(meta: Value, k: string): Value {
    if meta.Object? && k in meta.fields.entries then meta.fields.entries[k] else Null
  }

  /** The entry still has the shape of an unmatched pairing record:
      `"metadata" in meta and meta["metadata"] is None`. */
  predicate Unflattened(meta: Value) {
    meta.Object? && "metadata" in meta.fields.entries && meta.fields.entries["metadata"] == Null
  }

  /** The fields the flattening step rewrites. */
  predicate Flattened(k: string) {
    k == "song_id" || k == "title" || k == "duration"
  }

  /** Field `k` of the rewritten entry: the copied value, replaced by
      `meta.get(k)` for the flattened fields of an unmatched record. */
  function NormalisedField(meta: Value, k: string): Value {
    if Unflattened(meta) && Flattened(k) then Get(meta.fields, k, Null) else CopiedField(meta, k)
  }

  function NormalisedEntry(meta: Value): (d: Record)
    ensures d.keys == SchemaKeys
    ensures forall k :: k in SchemaKeys ==> k in d.entries && d.entries[k] == NormalisedField(meta, k)
  {
    OrderedMap(SchemaKeys, map k | k in SchemaKeys :: NormalisedField(meta, k))
  }

  /** Lines `fixed = SCHEMA.copy()` and the copy of every schema key the
      entry has. */
  method CopyPresentFields(meta: Value) returns (fixed: Record)
    ensures fixed.keys == SchemaKeys
    ensures forall k :: k in SchemaKeys ==> fixed.entries[k] == CopiedField(meta, k)
  {
    fixed := NoneRecord();
    if meta.Object? {
      for i := 0 to |SchemaKeys|
        invariant fixed.keys == SchemaKeys
        invariant forall k :: k in SchemaKeys ==>
          fixed.entries[k] == (if k in SchemaKeys[..i] then CopiedField(meta, k) else Null)
      {
        var key := SchemaKeys[i];
        assert SchemaKeys[..i + 1] == SchemaKeys[..i] + [key];
        assert key !in SchemaKeys[..i];
        if key in meta.fields.entries {
          fixed := Put(fixed, key, meta.fields.entries[key]);
        }
      }
      assert SchemaKeys[..|SchemaKeys|] == SchemaKeys;
    }
  }

  /** The flattening step on a record with the schema's keys. */
  function Flatten(b: Record, meta: Value): (d: Record)
    requires b.keys == SchemaKeys
    ensures d.keys == SchemaKeys
  {
    assert "song_id" in b.entries && "title" in b.entries && "duration" in b.entries;
    if Unflattened(meta) then
      Put(Put(Put(b, "song_id", Get(meta.fields, "song_id", Null)),
        "title", Get(meta.fields, "title", Null)), "duration", Get(meta.fields, "duration", Null))
    else b
  }

  lemma FlattenField(b: Record, meta: Value, k: string)
    requires b.keys == SchemaKeys
    requires forall k :: k in SchemaKeys ==> b.entries[k] == CopiedField(meta, k)
    requires k in SchemaKeys
    ensures Flatten(b, meta).entries[k] == NormalisedField(meta, k)
  {
  }

  lemma FlattenNormalised(b: Record, meta: Value)
    requires b.keys == SchemaKeys
    requires forall k :: k in SchemaKeys ==> b.entries[k] == CopiedField(meta, k)
    ensures Flatten(b, meta) == NormalisedEntry(meta)
  {
    forall k | k in SchemaKeys
      ensures Flatten(b, meta).entries[k] == NormalisedEntry(meta).entries[k]
    {
      FlattenField(b, meta, k);
    }
    SchemaRecordsEqual(Flatten(b, meta), NormalisedEntry(meta));
  }

  /** The body of the loop for one entry. */
  method NormaliseEntry(meta: Value) returns (fixed: Record)
    ensures fixed == NormalisedEntry(meta)
  {
    fixed := CopyPresentFields(meta);
    FlattenNormalised(fixed, meta);
    ghost var copied := fixed;
    if meta.Object? && "metadata" in meta.fields.entries && meta.fields.entries["metadata"] == Null {
      fixed := Put(fixed, "song_id", Get(meta.fields, "song_id", Null));
      fixed := Put(fixed, "title", Get(meta.fields, "title", Null));
      fixed := Put(fixed, "duration", Get(meta.fields, "duration", Null));
    }
    assert fixed == Flatten(copied, meta);
  }

  /** The rewritten records of the first `n` files, in file order. */
  function NormalisedUpTo(d: Record, n: nat): (p: Record)
    requires n <= |d.keys|
    ensures p.keys == d.keys[..n]
  {
    if n == 0 then Empty()
    else
      var rest := NormalisedUpTo(d, n - 1);
      var f := d.keys[n - 1];
      assert f !in rest.entries by {
        assert forall j :: 0 <= j < n - 1 ==> d.keys[j] != f;
      }
      assert d.keys[..n] == d.keys[..n - 1] + [f];
      Put(rest, f, Object(NormalisedEntry(d.entries[f])))
  }

  lemma {:induction false} NormalisedUpToEntry(d: Record, n: nat, j: nat)
    requires j < n <= |d.keys|
    ensures NormalisedUpTo(d, n).entries[d.keys[j]] == Object(NormalisedEntry(d.entries[d.keys[j]]))
  {
    if j < n - 1 {
      NormalisedUpToEntry(d, n - 1, j);
      assert d.keys[j] != d.keys[n - 1];
    }
  }

  /** The patched file: the same file names in the same order, each entry
      rewritten to the schema. */
  function Normalised(d: Record): (p: Record)
    ensures p.keys == d.keys
    ensures forall f :: f in d.entries ==> p.entries[f] == Object(NormalisedEntry(d.entries[f]))
  {
    var p := NormalisedUpTo(d, |d.keys|);
    assert d.keys[..|d.keys|] == d.keys;
    forall f | f in d.entries
      ensures p.entries[f] == Object(NormalisedEntry(d.entries[f]))
    {
      var j :| 0 <= j < |d.keys| && d.keys[j] == f;
      NormalisedUpToEntry(d, |d.keys|, j);
    }
    p
  }

  /** `patch_metadata` on the parsed file. A top-level value that is not an
      object has no `items`. */
  method PatchMetadata(data: Value) returns (r: Result<Record>)
    ensures r.Ok? <==> data.Object?
    ensures r.Ok? ==> r.value == Normalised(data.fields)
  {
    if !data.Object? {
      return Err("AttributeError: object has no attribute 'items'");
    }
    var d := data.fields;
    var patched: Record := Empty();
    for i := 0 to |d.keys|
      invariant patched == NormalisedUpTo(d, i)
    {
      var filename := d.keys[i];
      var fixed := NormaliseEntry(d.entries[filename]);
      patched := Put(patched, filename, Object(fixed));
    }
    assert d.keys[..|d.keys|] == d.keys;
    r := Ok(patched);
  }

  // ---------------------------------------------------------------- properties

  /** The flattening step never changes anything: `meta.get(k)` is exactly
      what the copy already stored, so the result is the plain copy of the
      schema fields. */
  lemma FlattenChangesNothing(meta: Value)
    ensures forall k :: k in SchemaKeys ==> NormalisedEntry(meta).entries[k] == CopiedField(meta, k)
  {
  }

  /** A non-dict entry becomes the all-None record, and the `metadata` key never
      survives. */
  lemma NonDictEntry(meta: Value)
    ensures !meta.Object? ==> NormalisedEntry(meta) == NoneRecord()
    ensures "metadata" !in NormalisedEntry(meta).entries
  {
    if !meta.Object? {
      SchemaRecordsEqual(NormalisedEntry(meta), NoneRecord());
    }
  }

  /** Rewriting a rewritten entry gives it back. */
  lemma NormalisedEntryIdempotent(meta: Value)
    ensures NormalisedEntry(Object(NormalisedEntry(meta))) == NormalisedEntry(meta)
  {
    var once := NormalisedEntry(meta);
    var twice := NormalisedEntry(Object(once));
    assert !Unflattened(Object(once));
    forall k | k in SchemaKeys
      ensures twice.entries[k] == once.entries[k]
    {
    }
    SchemaRecordsEqual(twice, once);
  }

  /** One file of the patched file keeps its entry when patched again. */
  lemma PatchTwiceEntry(d: Record, f: string)
    requires f in d.entries
    ensures f in Normalised(d).entries
    ensures Normalised(Normalised(d)).entries[f] == Normalised(d).entries[f]
  {
    var p := Normalised(d);
    var e := NormalisedEntry(d.entries[f]);
    assert p.entries[f] == Object(e);
    NormalisedEntryIdempotent(d.entries[f]);
  }

  /** Running the patch on its own output gives the same output. */
  lemma PatchTwice(d: Record)
    ensures Normalised(Normalised(d)) == Normalised(d)
  {
    var p := Normalised(d);
    forall f | f in p.entries
      ensures f in Normalised(p).entries && Normalised(p).entries[f] == p.entries[f]
    {
      PatchTwiceEntry(d, f);
    }
    SameDict(Normalised(p), p);
  }
}
