/** The strict nine-field metadata schema that both metadata patches rewrite
    every entry to. */
module Schema {
  import opened Dicts
  import opened Json

  /** The schema's field names, in the order the patched records list them. */
  const SchemaKeys: seq<string> :=
    ["song_id", "title", "album", "artists", "year", "language", "duration", "perma_url", "image_url"]

  /** `{k: None for k in SCHEMA_KEYS}`, which is also the `SCHEMA` constant. */
  function NoneRecord(): (d: Record)
    ensures d.keys == SchemaKeys
    ensures forall k :: k in d.entries ==> d.entries[k] == Null
  {
    OrderedMap(SchemaKeys, map k | k in SchemaKeys :: Null)
  }

  /** Two schema records are equal once their fields agree. */
  lemma SchemaRecordsEqual(a: Record, b: Record)
    requires a.keys == SchemaKeys && b.keys == SchemaKeys
    requires forall k :: k in SchemaKeys ==> a.entries[k] == b.entries[k]
    ensures a == b
  {
    assert a.entries.Keys == b.entries.Keys;
  }
}
