/** The offline catalogue builder's first stage: librosa features for every
    new song (step 1), then the YAMNet embedding and instrument scores
    attached to songs already present (step 2), in one features dictionary
    keyed by song id. */
module FeatureExtraction {
  import opened Wrappers
  import opened Dicts
  import opened Json
  import opened FeatureLayout
  import opened Chunking
  import opened Yamnet
  import opened Instruments

  /** The inputs both passes read: the filename-to-id table, the decoder of
      each file, and the signal-processing and learned components. */
  datatype Sources = Sources(
    ids: Dict<string, Value>,
    decode: string -> Result<Vec>,
    spectral: Vec -> Result<SpectralSummary>,
    infer: Vec -> Result<ChunkOutput>,
    pool: seq<ChunkOutput> -> Result<Pooled>,
    classNames: seq<string>)

  // ---------------------------------------------------------------- filename index

  predicate HasSongId(meta: Value) {
    meta.Object? && "song_id" in meta.fields.entries
  }

  /** `{fname: meta["song_id"] for fname, meta in metadata.items()}`: same
      filenames in the same order, each mapped to its entry's `song_id`; an
      entry without one aborts loading. */
  function FilenameIndex(metadata: Value): (r: Result<Dict<string, Value>>)
    ensures r.Ok? <==> metadata.Object? && forall f :: f in metadata.fields.entries ==> HasSongId(metadata.fields.entries[f])
    ensures r.Ok? ==> r.value.keys == metadata.fields.keys
    ensures r.Ok? ==> forall f :: f in r.value.entries ==>
      f in metadata.fields.entries && r.value.entries[f] == metadata.fields.entries[f].fields.entries["song_id"]
  {
    if !metadata.Object? then Err("AttributeError: metadata has no attribute 'items'")
    else
      var m := metadata.fields;
      if exists f :: f in m.entries && !HasSongId(m.entries[f]) then Err("KeyError: 'song_id'")
      else
        var entries := map f | f in m.entries :: m.entries[f].fields.entries["song_id"];
        var d: Dict<string, Value> := OrderedMap(m.keys, entries);
        Ok(d)
  }

  /** `filename_to_id.get(fname)`. */
  function IdOf(src: Sources, fname: string): Value {
    Get(src.ids, fname, Null)
  }

  // ---------------------------------------------------------------- step 1

  /** The record `{"features": ..., "duration": ...}`. */
  function LibrosaRecordOf(s: SpectralSummary): (rec: Record)
    ensures rec.keys == ["features", "duration"]
    ensures rec.entries["features"] == Reals(LibrosaVector(s)) && rec.entries["duration"] == Num(s.duration)
  {
    var keys := ["features", "duration"];
    var entries := map["features" := Reals(LibrosaVector(s)), "duration" := Num(s.duration)];
    assert entries.Keys == set k | k in keys;
    OrderedMap(keys, entries)
  }

  /** `extract_features_librosa`: None for a file without a truthy song id,
      None when decoding or analysis raises, else the id and its record. */
  function ExtractLibrosa(src: Sources, fname: string): (r: Option<(Value, Record)>)
    ensures r.Some? <==> Truthy(IdOf(src, fname)) && src.decode(fname).Ok? && src.spectral(src.decode(fname).value).Ok?
    ensures r.Some? ==> r.value == (IdOf(src, fname), LibrosaRecordOf(src.spectral(src.decode(fname).value).value))
  {
    var sid := IdOf(src, fname);
    if !Truthy(sid) then None
    else
      var y := src.decode(fname);
      if y.Err? then None
      else
        var s := src.spectral(y.value);
        if s.Err? then None else Some((sid, LibrosaRecordOf(s.value)))
  }

  /** One turn of the step-1 loop: ids already present are skipped; a new id
      is added only when extraction succeeds. Testing membership of an
      unhashable id raises. */
  function LibrosaTurn(features: Dict<Value, Value>, src: Sources, fname: string): Result<Dict<Value, Value>> {
    var sid := IdOf(src, fname);
    if !Hashable(sid) then Err("TypeError: unhashable type")
    else if sid in features.entries then Ok(features)
    else
      var res := ExtractLibrosa(src, fname);
      if res.Some? then Ok(Put(features, res.value.0, Object(res.value.1))) else Ok(features)
  }

  /** The step-1 loop over `files` as a fold. */
  function LibrosaPass(features: Dict<Value, Value>, src: Sources, files: seq<string>): Result<Dict<Value, Value>>
    decreases |files|
  {
    if files == [] then Ok(features)
    else
      var next :- LibrosaTurn(features, src, files[0]);
      LibrosaPass(next, src, files[1..])
  }

  /** Step 1 of `main`. */
  method LibrosaStep(features: Dict<Value, Value>, src: Sources, files: seq<string>) returns (r: Result<Dict<Value, Value>>)
    ensures r == LibrosaPass(features, src, files)
  {
    var d := features;
    assert files[0..] == files;
    for i := 0 to |files|
      invariant LibrosaPass(features, src, files) == LibrosaPass(d, src, files[i..])
    {
      assert files[i..][0] == files[i] && files[i..][1..] == files[i + 1..];
      var sid := IdOf(src, files[i]);
      if !Hashable(sid) {
        return Err("TypeError: unhashable type");
      }
      if sid !in d.entries {
        var res := ExtractLibrosa(src, files[i]);
        if res.Some? {
          d := Put(d, res.value.0, Object(res.value.1));
        }
      }
    }
    r := Ok(d);
  }

  // ---------------------------------------------------------------- step 2

  /** `yamnet_chunked_features` once the chunk outputs are known: the pooled
      means, or zero scores (one per class) and a zero embedding when there
      were no chunks. */
  function ChunkedSummary(outs: seq<ChunkOutput>, src: Sources): Result<Pooled> {
    if outs == [] then Ok(Pooled(Zeros(|src.classNames|), Zeros(EmbeddingSize)))
    else src.pool(outs)
  }

  function ChunkedFeatures(y: Vec, src: Sources): Result<Pooled> {
    var outs :- InferAll(Chunks(y, ChunkLength), src.infer);
    ChunkedSummary(outs, src)
  }

  /** `yamnet_chunked_features`: the chunk loop, then the pooling or the
      zero defaults. */
  method YamnetChunked(y: Vec, src: Sources) returns (r: Result<Pooled>)
    ensures r == ChunkedFeatures(y, src)
  {
    var outs := InferChunks(y, src.infer);
    if outs.Err? {
      return Err(outs.error);
    }
    if outs.value == [] {
      return Ok(Pooled(Zeros(|src.classNames|), Zeros(EmbeddingSize)));
    }
    r := src.pool(outs.value);
  }

  /** `extract_features_yamnet`: None for a file without a truthy song id or
      when anything raises, else the id, the embedding and the instruments
      whose mean score passes the threshold among the twenty best. */
  function ExtractYamnetFeatures(src: Sources, fname: string): (r: Option<(Value, Vec, Dict<string, real>)>)
    ensures r.Some? ==> Truthy(r.value.0) && r.value.0 == IdOf(src, fname)
  {
    var sid := IdOf(src, fname);
    if !Truthy(sid) then None
    else
      var y := src.decode(fname);
      if y.Err? then None
      else
        var p := ChunkedFeatures(y.value, src);
        if p.Err? then None
        else
          var instruments := SelectInstruments(p.value.scores, src.classNames);
          if instruments.Err? then None else Some((sid, p.value.embedding, instruments.value))
  }

  /** The instrument scores as a JSON object. */
  function InstrumentsValue(d: Dict<string, real>): (v: Value)
    ensures v.Object? && v.fields.keys == d.keys
    ensures forall k :: k in d.entries ==> k in v.fields.entries && v.fields.entries[k] == Num(d.entries[k])
  {
    Object(OrderedMap(d.keys, map k | k in d.entries :: Num(d.entries[k])))
  }

  /** The entry with `yamnet_embedding` and `instruments` set. */
  function Attach(entry: Record, embedding: Vec, instruments: Dict<string, real>): (r: Record) {
    Put(Put(entry, "yamnet_embedding", Reals(embedding)), "instruments", InstrumentsValue(instruments))
  }

  /** One result of step 2: attached to an id already present, dropped
      otherwise. Assigning into an entry that is not an object raises. */
  function YamnetTurn(features: Dict<Value, Value>, src: Sources, fname: string): Result<Dict<Value, Value>> {
    var res := ExtractYamnetFeatures(src, fname);
    if res.None? then Ok(features)
    else
      var (sid, embedding, instruments) := res.value;
      if !Hashable(sid) then Err("TypeError: unhashable type")
      else if sid !in features.entries then Ok(features)
      else
        var entry := features.entries[sid];
        if !entry.Object? then Err("TypeError: entry does not support item assignment")
        else Ok(Put(features, sid, Object(Attach(entry.fields, embedding, instruments))))
  }

  /** Step 2 over the results in the order they complete. */
  function YamnetPass(features: Dict<Value, Value>, src: Sources, completed: seq<string>): Result<Dict<Value, Value>>
    decreases |completed|
  {
    if completed == [] then Ok(features)
    else
      var next :- YamnetTurn(features, src, completed[0]);
      YamnetPass(next, src, completed[1..])
  }

  /** Step 2 of `main`. The worker pool hands the results back in completion
      order, which `completed` lists. */
  method YamnetStep(features: Dict<Value, Value>, src: Sources, completed: seq<string>) returns (r: Result<Dict<Value, Value>>)
    ensures r == YamnetPass(features, src, completed)
  {
    var d := features;
    assert completed[0..] == completed;
    for i := 0 to |completed|
      invariant YamnetPass(features, src, completed) == YamnetPass(d, src, completed[i..])
    {
      assert completed[i..][0] == completed[i] && completed[i..][1..] == completed[i + 1..];
      var res := ExtractYamnetFeatures(src, completed[i]);
      if res.Some? {
        var (sid, embedding, instruments) := res.value;
        if !Hashable(sid) {
          return Err("TypeError: unhashable type");
        }
        if sid in d.entries {
          var entry := d.entries[sid];
          if !entry.Object? {
            return Err("TypeError: entry does not support item assignment");
          }
          d := Put(d, sid, Object(Attach(entry.fields, embedding, instruments)));
        }
      }
    }
    r := Ok(d);
  }

  /** `main` without the file writes: step 1 over the files, then step 2
      over the same files in completion order. */
  method BuildFeatures(existing: Dict<Value, Value>, src: Sources, files: seq<string>, completed: seq<string>)
    returns (r: Result<Dict<Value, Value>>)
    requires multiset(completed) == multiset(files)
    ensures r == (var d :- LibrosaPass(existing, src, files); YamnetPass(d, src, completed))
  {
    var d := LibrosaStep(existing, src, files);
    if d.Err? {
      return Err(d.error);
    }
    r := YamnetStep(d.value, src, completed);
  }

  // ---------------------------------------------------------------- properties

  /** The record's duration is the duration slot of its feature list, and its
      tempo slot is 0.0. */
  lemma LibrosaRecordSlots(s: SpectralSummary)
    requires LibrosaShaped(s)
    ensures var rec := LibrosaRecordOf(s);
      && rec.entries["features"].List? && |rec.entries["features"].items| == LibrosaLength
      && rec.entries["features"].items[DurationSlot] == rec.entries["duration"]
      && rec.entries["features"].items[TempoSlot] == Num(0.0)
  {
    LibrosaSlots(s);
  }

  /** Step 1 never changes or removes an entry that was already there. */
  lemma {:induction false} LibrosaKeepsExisting(features: Dict<Value, Value>, src: Sources, files: seq<string>, k: Value)
    requires LibrosaPass(features, src, files).Ok? && k in features.entries
    ensures k in LibrosaPass(features, src, files).value.entries
    ensures LibrosaPass(features, src, files).value.entries[k] == features.entries[k]
    decreases |files|
  {
    if files != [] {
      var next := LibrosaTurn(features, src, files[0]).value;
      LibrosaKeepsExisting(next, src, files[1..], k);
    }
  }

  /** An entry step 1 adds is the record of a file with that id whose
      extraction succeeded. */
  lemma {:induction false} LibrosaAddsRecords(features: Dict<Value, Value>, src: Sources, files: seq<string>, k: Value)
    requires LibrosaPass(features, src, files).Ok?
    requires k in LibrosaPass(features, src, files).value.entries && k !in features.entries
    ensures exists i :: (0 <= i < |files| && ExtractLibrosa(src, files[i]).Some? && ExtractLibrosa(src, files[i]).value.0 == k &&
      LibrosaPass(features, src, files).value.entries[k] == Object(ExtractLibrosa(src, files[i]).value.1))
    decreases |files|
  {
    var next := LibrosaTurn(features, src, files[0]).value;
    var rest := files[1..];
    assert LibrosaPass(features, src, files) == LibrosaPass(next, src, rest);
    if k in next.entries {
      LibrosaKeepsExisting(next, src, rest, k);
      LibrosaTurnAdds(features, src, files[0], k);
    } else {
      LibrosaAddsRecords(next, src, rest, k);
      var i :| 0 <= i < |rest| && ExtractLibrosa(src, rest[i]).Some? && ExtractLibrosa(src, rest[i]).value.0 == k &&
        LibrosaPass(next, src, rest).value.entries[k] == Object(ExtractLibrosa(src, rest[i]).value.1);
      assert rest[i] == files[i + 1];
    }
  }

  /** A key one turn of step 1 adds is the id of that file, holding its record. */
  lemma LibrosaTurnAdds(features: Dict<Value, Value>, src: Sources, fname: string, k: Value)
    requires LibrosaTurn(features, src, fname).Ok?
    requires k !in features.entries && k in LibrosaTurn(features, src, fname).value.entries
    ensures ExtractLibrosa(src, fname).Some? && ExtractLibrosa(src, fname).value.0 == k
    ensures LibrosaTurn(features, src, fname).value.entries[k] == Object(ExtractLibrosa(src, fname).value.1)
  {
  }

  /** Every file whose extraction succeeds ends up with an entry under its id. */
  lemma {:induction false} LibrosaCoversSuccesses(features: Dict<Value, Value>, src: Sources, files: seq<string>, i: nat)
    requires LibrosaPass(features, src, files).Ok?
    requires i < |files| && ExtractLibrosa(src, files[i]).Some?
    ensures ExtractLibrosa(src, files[i]).value.0 in LibrosaPass(features, src, files).value.entries
    decreases |files|
  {
    var next := LibrosaTurn(features, src, files[0]).value;
    if i == 0 {
      LibrosaKeepsExisting(next, src, files[1..], ExtractLibrosa(src, files[0]).value.0);
    } else {
      assert files[1..][i - 1] == files[i];
      LibrosaCoversSuccesses(next, src, files[1..], i - 1);
    }
  }

  /** Step 1 fails exactly when some file's id cannot be a key. */
  lemma {:induction false} LibrosaDefined(features: Dict<Value, Value>, src: Sources, files: seq<string>)
    ensures LibrosaPass(features, src, files).Ok? <==> forall i :: 0 <= i < |files| ==> Hashable(IdOf(src, files[i]))
    decreases |files|
  {
    if files != [] {
      assert forall i :: 1 <= i < |files| ==> files[i] == files[1..][i - 1];
      if Hashable(IdOf(src, files[0])) {
        LibrosaDefined(LibrosaTurn(features, src, files[0]).value, src, files[1..]);
      }
    }
  }

  /** `entry'` is `entry` with at most `yamnet_embedding` and `instruments`
      set; every other field is as it was. */
  ghost predicate OnlyYamnetFields(entry: Value, entry': Value) {
    entry' == entry ||
    (entry.Object? && entry'.Object? &&
     forall f :: f != "yamnet_embedding" && f != "instruments" ==>
       (f in entry.fields.entries <==> f in entry'.fields.entries) &&
       (f in entry.fields.entries ==> entry'.fields.entries[f] == entry.fields.entries[f]))
  }

  lemma OnlyYamnetFieldsTrans(a: Value, b: Value, c: Value)
    requires OnlyYamnetFields(a, b) && OnlyYamnetFields(b, c)
    ensures OnlyYamnetFields(a, c)
  {
  }

  /** One turn of step 2 keeps the ids and touches only the two YAMNet
      fields, and an entry it changes is that of the file's id. */
  lemma YamnetTurnShape(features: Dict<Value, Value>, src: Sources, fname: string)
    requires YamnetTurn(features, src, fname).Ok?
    ensures YamnetTurn(features, src, fname).value.keys == features.keys
    ensures forall k :: k in features.entries ==>
      OnlyYamnetFields(features.entries[k], YamnetTurn(features, src, fname).value.entries[k])
    ensures forall k :: k in features.entries && YamnetTurn(features, src, fname).value.entries[k] != features.entries[k] ==>
      ExtractYamnetFeatures(src, fname).Some? && ExtractYamnetFeatures(src, fname).value.0 == k
  {
    var res := ExtractYamnetFeatures(src, fname);
    var next := YamnetTurn(features, src, fname).value;
    if res.Some? && Hashable(res.value.0) && res.value.0 in features.entries {
      var (sid, embedding, instruments) := res.value;
      var entry := features.entries[sid];
      assert next == Put(features, sid, Object(Attach(entry.fields, embedding, instruments)));
      AttachOnly(entry.fields, embedding, instruments);
    } else {
      assert next == features;
    }
  }

  /** Setting the two YAMNet fields leaves every other field as it was. */
  lemma AttachOnly(entry: Record, embedding: Vec, instruments: Dict<string, real>)
    ensures OnlyYamnetFields(Object(entry), Object(Attach(entry, embedding, instruments)))
  {
    var a := Attach(entry, embedding, instruments);
    forall f | f != "yamnet_embedding" && f != "instruments"
      ensures (f in entry.entries <==> f in a.entries) && (f in entry.entries ==> a.entries[f] == entry.entries[f])
    {
    }
  }

  /** Step 2 adds and removes no id, keeps the order of the ids, and changes
      no field of any entry but `yamnet_embedding` and `instruments`. */
  lemma {:induction false} YamnetKeepsShape(features: Dict<Value, Value>, src: Sources, completed: seq<string>)
    requires YamnetPass(features, src, completed).Ok?
    ensures YamnetPass(features, src, completed).value.keys == features.keys
    ensures forall k :: k in features.entries ==>
      OnlyYamnetFields(features.entries[k], YamnetPass(features, src, completed).value.entries[k])
    decreases |completed|
  {
    if completed != [] {
      var next := YamnetTurn(features, src, completed[0]).value;
      YamnetTurnShape(features, src, completed[0]);
      YamnetKeepsShape(next, src, completed[1..]);
      var final := YamnetPass(features, src, completed).value;
      forall k | k in features.entries
        ensures OnlyYamnetFields(features.entries[k], final.entries[k])
      {
        OnlyYamnetFieldsTrans(features.entries[k], next.entries[k], final.entries[k]);
      }
    }
  }

  /** An entry step 2 changes belongs to a file whose YAMNet pass succeeded
      with that id: results for other ids are dropped. */
  lemma {:induction false} YamnetOnlyKnownIds(features: Dict<Value, Value>, src: Sources, completed: seq<string>, k: Value)
    requires YamnetPass(features, src, completed).Ok?
    requires k in features.entries && k in YamnetPass(features, src, completed).value.entries
    requires YamnetPass(features, src, completed).value.entries[k] != features.entries[k]
    ensures exists i :: (0 <= i < |completed| && ExtractYamnetFeatures(src, completed[i]).Some? &&
      ExtractYamnetFeatures(src, completed[i]).value.0 == k)
    decreases |completed|
  {
    var next := YamnetTurn(features, src, completed[0]).value;
    YamnetTurnShape(features, src, completed[0]);
    YamnetKeepsShape(next, src, completed[1..]);
    if next.entries[k] == features.entries[k] {
      YamnetOnlyKnownIds(next, src, completed[1..], k);
      var i :| 0 <= i < |completed[1..]| && ExtractYamnetFeatures(src, completed[1..][i]).Some? &&
        ExtractYamnetFeatures(src, completed[1..][i]).value.0 == k;
      assert completed[1..][i] == completed[i + 1];
    }
  }

  /** With no samples the network is never called: zero scores for every
      class, the zero embedding, and so no instrument at all. */
  lemma YamnetSilent(src: Sources)
    ensures ChunkedFeatures([], src) == Ok(Pooled(Zeros(|src.classNames|), Zeros(EmbeddingSize)))
    ensures SelectInstruments(Zeros(|src.classNames|), src.classNames) == Ok(Empty())
  {
    var empty: Vec := [];
    ChunksEmpty(empty, ChunkLength);
    var scores := Zeros(|src.classNames|);
    var top := TopIndices(scores);
    CollectNothingPasses(top, scores, src.classNames, Empty());
  }

  /** The instruments of a successful pass: at most twenty, each above 0.15. */
  lemma YamnetInstrumentBounds(src: Sources, fname: string)
    requires ExtractYamnetFeatures(src, fname).Some?
    ensures var instruments := ExtractYamnetFeatures(src, fname).value.2;
      |instruments.keys| <= TopCount && forall k :: k in instruments.entries ==> instruments.entries[k] > Threshold
  {
    var p := ChunkedFeatures(src.decode(fname).value, src).value;
    SelectionBounds(p.scores, src.classNames);
  }
}
