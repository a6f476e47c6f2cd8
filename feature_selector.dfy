/** The catalogue builder's last stage: one fused row per song (librosa
    block, PCA-reduced YAMNet embedding, instrument score, duration) and the
    exported record per song id that the query engine loads. */
module FeatureSelection {
  import opened Wrappers
  import opened Dicts
  import opened Json
  import opened FeatureLayout
  import opened Distance
  import opened Numbers

  // ---------------------------------------------------------------- gathering

  /** `list(instruments.values())[0]`, or 0.0 for an empty mapping. */
  function FirstInstrument(instruments: Record): (v: Value)
    ensures instruments.keys == [] ==> v == Num(0.0)
    ensures instruments.keys != [] ==> v == Values(instruments)[0]
  {
    if instruments.keys == [] then Num(0.0) else Values(instruments)[0]
  }

  /** What one song contributes to the four lists of the gathering loop:
      its `features`, its `yamnet_embedding`, its instrument value and its
      `duration`; a missing field raises KeyError, and a song or an
      `instruments` entry that is not a mapping raises. */
  datatype SongRow = SongRow(features: Value, embedding: Value, instrument: Value, duration: Value)

  function ReadSong(song: Value): (r: Result<SongRow>)
    ensures r.Ok? <==>
      && song.Object? && "features" in song.fields.entries && "yamnet_embedding" in song.fields.entries
      && Get(song.fields, "instruments", Object(Empty())).Object? && "duration" in song.fields.entries
    ensures r.Ok? ==> r.value == SongRow(
      song.fields.entries["features"], song.fields.entries["yamnet_embedding"],
      FirstInstrument(Get(song.fields, "instruments", Object(Empty())).fields), song.fields.entries["duration"])
  {
    if !song.Object? then Err("TypeError: song is not a mapping")
    else
      var f := song.fields;
      if "features" !in f.entries then Err("KeyError: 'features'")
      else if "yamnet_embedding" !in f.entries then Err("KeyError: 'yamnet_embedding'")
      else
        var instruments := Get(f, "instruments", Object(Empty()));
        if !instruments.Object? then Err("AttributeError: 'instruments' has no attribute 'values'")
        else if "duration" !in f.entries then Err("KeyError: 'duration'")
        else Ok(SongRow(f.entries["features"], f.entries["yamnet_embedding"], FirstInstrument(instruments.fields), f.entries["duration"]))
  }

  /** The four lists after the loop has read the first songs, or the first
      error. */
  datatype Columns = Columns(librosa: seq<Value>, yamnet: seq<Value>, instrument: seq<Value>, duration: seq<Value>)

  function Gathered(songs: seq<Value>): Result<Columns> {
    if songs == [] then Ok(Columns([], [], [], []))
    else
      var front :- Gathered(songs[..|songs| - 1]);
      var row :- ReadSong(songs[|songs| - 1]);
      Ok(Columns(front.librosa + [row.features], front.yamnet + [row.embedding],
                 front.instrument + [row.instrument], front.duration + [row.duration]))
  }

  /** The loop over `data.values()` appending to the four lists. */
  method Gather(songs: seq<Value>) returns (r: Result<Columns>)
    ensures r == Gathered(songs)
  {
    var librosaFeats, yamnetFeats, instrumentFeats, durationFeats := [], [], [], [];
    assert songs[..0] == [];
    for i := 0 to |songs|
      invariant Gathered(songs[..i]) == Ok(Columns(librosaFeats, yamnetFeats, instrumentFeats, durationFeats))
    {
      assert songs[..i + 1][..i] == songs[..i] && songs[..i + 1][i] == songs[i];
      var row := ReadSong(songs[i]);
      if row.Err? {
        GatheredStopsAt(songs, i + 1, |songs|);
        assert songs[..|songs|] == songs;
        return Err(row.error);
      }
      librosaFeats := librosaFeats + [row.value.features];
      yamnetFeats := yamnetFeats + [row.value.embedding];
      instrumentFeats := instrumentFeats + [row.value.instrument];
      durationFeats := durationFeats + [row.value.duration];
    }
    assert songs[..|songs|] == songs;
    r := Ok(Columns(librosaFeats, yamnetFeats, instrumentFeats, durationFeats));
  }

  /** Once a prefix fails, every longer prefix fails with the same error. */
  lemma {:induction false} GatheredStopsAt(songs: seq<Value>, n: nat, m: nat)
    requires n <= m <= |songs| && Gathered(songs[..n]).Err?
    ensures Gathered(songs[..m]) == Gathered(songs[..n])
    decreases m - n
  {
    if n < m {
      assert songs[..n + 1][..n] == songs[..n];
      GatheredStopsAt(songs, n + 1, m);
    }
  }

  // ---------------------------------------------------------------- arrays

  /** The vectors of a list of rows, or the first row that is not a flat list
      of numbers (numeric strings and null, which numpy would convert, count
      as not numbers here). */
  function RowVectors(rows: seq<Value>): (r: Result<seq<Vec>>)
    ensures r.Ok? ==> |r.value| == |rows|
  {
    if rows == [] then Ok([])
    else
      var v :- if rows[0].List? then ListToVector(rows[0].items) else Err("setting an array element with a sequence");
      var rest :- RowVectors(rows[1..]);
      Ok([v] + rest)
  }

  predicate Uniform(m: seq<Vec>, width: nat) {
    forall i :: 0 <= i < |m| ==> |m[i]| == width
  }

  /** `np.array(rows, dtype=np.float32)` as a matrix: every row a flat list of
      numbers, all of the same length. */
  function ToMatrix(rows: seq<Value>): (r: Result<seq<Vec>>)
    ensures r.Ok? ==> |r.value| == |rows| && (r.value == [] || Uniform(r.value, |r.value[0]|))
  {
    var m :- RowVectors(rows);
    if m == [] || Uniform(m, |m[0]|) then Ok(m) else Err("ValueError: inhomogeneous shape")
  }

  /** `np.array([[x] for x in xs], dtype=np.float32)`: one number per row;
      a string or null entry is rejected, where numpy would parse or make it nan. */
  function ToColumn(xs: seq<Value>): (r: Result<Vec>)
    ensures r.Ok? <==> forall i :: 0 <= i < |xs| ==> AsReal(xs[i]).Some?
    ensures r.Ok? ==> |r.value| == |xs| && forall i :: 0 <= i < |xs| ==> r.value[i] == AsReal(xs[i]).value
  {
    ListToVector(xs)
  }

  /** `np.hstack` of the four blocks: the row counts must agree. */
  function HStack(lib: seq<Vec>, reduced: seq<Vec>, inst: Vec, dur: Vec): (r: Result<seq<Vec>>)
    ensures r.Ok? <==> |reduced| == |lib| && |inst| == |lib| && |dur| == |lib|
    ensures |reduced| == |lib| && |inst| == |lib| && |dur| == |lib| ==>
      && r.Ok? && |r.value| == |lib|
      && forall i :: 0 <= i < |lib| ==> r.value[i] == CombineFeatures(lib[i], reduced[i], inst[i], dur[i])
  {
    if |reduced| != |lib| || |inst| != |lib| || |dur| != |lib| then Err("ValueError: all the input array dimensions except for the concatenation axis must match exactly")
    else Ok(seq(|lib|, i requires 0 <= i < |lib| => CombineFeatures(lib[i], reduced[i], inst[i], dur[i])))
  }

  /** `final_features`: the four lists as arrays, the embeddings reduced by
      the fitted projection, then stacked side by side. */
  function FinalRows(cols: Columns, pca: seq<Vec> -> Result<seq<Vec>>): Result<seq<Vec>> {
    var lib :- ToMatrix(cols.librosa);
    var yam :- ToMatrix(cols.yamnet);
    var inst :- ToColumn(cols.instrument);
    var dur :- ToColumn(cols.duration);
    var reduced :- pca(yam);
    HStack(lib, reduced, inst, dur)
  }

  // ---------------------------------------------------------------- export

  /** `{"features": ..., "cluster": ..., "title": ..., "perma_url": ...}`. */
  function ExportRecord(row: Vec, cluster: int, title: Value, url: Value): (rec: Record)
    ensures rec.keys == ["features", "cluster", "title", "perma_url"]
    ensures rec.entries == map["features" := Reals(row), "cluster" := Int(cluster), "title" := title, "perma_url" := url]
  {
    var keys := ["features", "cluster", "title", "perma_url"];
    var entries := map["features" := Reals(row), "cluster" := Int(cluster), "title" := title, "perma_url" := url];
    assert entries.Keys == set k | k in keys;
    OrderedMap(keys, entries)
  }

  /** The exported record of one song: its fused row, its cluster as an int
      (-1 when absent), its title and its url ("" when absent). */
  function ExportEntry(song: Value, row: Vec): (r: Result<Value>)
    ensures r.Ok? <==> song.Object? && ToInt(Get(song.fields, "cluster", Int(-1))).Ok?
    ensures r.Ok? ==> r.value == Object(ExportRecord(row, ToInt(Get(song.fields, "cluster", Int(-1))).value,
      Get(song.fields, "title", Str("")), Get(song.fields, "perma_url", Str(""))))
  {
    if !song.Object? then Err("AttributeError: song has no attribute 'get'")
    else
      var cluster :- ToInt(Get(song.fields, "cluster", Int(-1)));
      Ok(Object(ExportRecord(row, cluster, Get(song.fields, "title", Str("")), Get(song.fields, "perma_url", Str("")))))
  }

  /** The loop filling `export_json`: one record per song id, in the order of
      the ids, row `i` going to the `i`-th id. */
  method Export(data: Record, rows: seq<Vec>) returns (r: Result<Record>)
    requires |rows| == |data.keys|
    ensures r.Ok? <==> forall i :: 0 <= i < |data.keys| ==> ExportEntry(Values(data)[i], rows[i]).Ok?
    ensures r.Ok? ==> (r.value.keys == data.keys &&
      forall i :: 0 <= i < |data.keys| ==> r.value.entries[data.keys[i]] == ExportEntry(Values(data)[i], rows[i]).value)
  {
    var songIds := data.keys;
    var songs := Values(data);
    var exported: Record := Empty();
    for i := 0 to |songIds|
      invariant exported.keys == songIds[..i]
      invariant forall j :: 0 <= j < i ==> (ExportEntry(songs[j], rows[j]).Ok? &&
        exported.entries[songIds[j]] == ExportEntry(songs[j], rows[j]).value)
    {
      var entry := ExportEntry(songs[i], rows[i]);
      if entry.Err? {
        return Err(entry.error);
      }
      ExportStep(exported, data, rows, i);
      exported := Put(exported, songIds[i], entry.value);
    }
    assert songIds[..|songIds|] == songIds;
    r := Ok(exported);
  }

  /** One turn of the export loop: the record of song `i` goes in under a
      new key, and the earlier records stay. */
  lemma ExportStep(exported: Record, data: Record, rows: seq<Vec>, i: nat)
    requires i < |data.keys| == |rows|
    requires exported.keys == data.keys[..i]
    requires forall j :: 0 <= j < i ==> (ExportEntry(Values(data)[j], rows[j]).Ok? &&
      exported.entries[data.keys[j]] == ExportEntry(Values(data)[j], rows[j]).value)
    requires ExportEntry(Values(data)[i], rows[i]).Ok?
    ensures var next := Put(exported, data.keys[i], ExportEntry(Values(data)[i], rows[i]).value);
      && next.keys == data.keys[..i + 1]
      && forall j :: 0 <= j < i + 1 ==> (ExportEntry(Values(data)[j], rows[j]).Ok? &&
           next.entries[data.keys[j]] == ExportEntry(Values(data)[j], rows[j]).value)
  {
    var ids := data.keys;
    assert ids[i] !in exported.entries by {
      assert forall j :: 0 <= j < i ==> ids[j] != ids[i];
    }
    assert ids[..i + 1] == ids[..i] + [ids[i]];
    var next := Put(exported, ids[i], ExportEntry(Values(data)[i], rows[i]).value);
    forall j | 0 <= j < i
      ensures next.entries[ids[j]] == exported.entries[ids[j]]
    {
      assert ids[j] != ids[i];
    }
  }

  /** The whole script from the parsed combined-features file to
      `export_json`, with the projection fitted beforehand. */
  method SelectFeatures(data: Value, pca: seq<Vec> -> Result<seq<Vec>>) returns (r: Result<Record>)
    ensures r.Ok? ==> data.Object? && Gathered(Values(data.fields)).Ok?
    ensures r.Ok? ==>
      var fr := FinalRows(Gathered(Values(data.fields)).value, pca);
      && fr.Ok? && |fr.value| == |data.fields.keys|
      && r.value.keys == data.fields.keys
      && forall i :: 0 <= i < |data.fields.keys| ==>
           ExportEntry(Values(data.fields)[i], fr.value[i]).Ok? &&
           r.value.entries[data.fields.keys[i]] == ExportEntry(Values(data.fields)[i], fr.value[i]).value
    ensures !data.Object? ==> r.Err?
    ensures data.Object? && Gathered(Values(data.fields)).Err? ==> r == Err(Gathered(Values(data.fields)).error)
    ensures data.Object? && Gathered(Values(data.fields)).Ok? ==>
      var fr := FinalRows(Gathered(Values(data.fields)).value, pca);
      && (fr.Err? ==> r == Err(fr.error))
      && (fr.Ok? && |fr.value| == |data.fields.keys| &&
          (forall i :: 0 <= i < |data.fields.keys| ==> ExportEntry(Values(data.fields)[i], fr.value[i]).Ok?)
          ==> r.Ok?)
  {
    if !data.Object? {
      return Err("AttributeError: data has no attribute 'keys'");
    }
    var cols := Gather(Values(data.fields));
    if cols.Err? {
      return Err(cols.error);
    }
    var rows := FinalRows(cols.value, pca);
    if rows.Err? {
      return Err(rows.error);
    }
    GatheredLength(Values(data.fields));
    r := Export(data.fields, rows.value);
  }

  // ---------------------------------------------------------------- properties

  /** The gathering succeeds exactly when every song is readable, and then
      the four lists hold, at position `i`, the fields of song `i`. */
  lemma GatheredSpec(songs: seq<Value>)
    ensures Gathered(songs).Ok? <==> forall i :: 0 <= i < |songs| ==> ReadSong(songs[i]).Ok?
    ensures Gathered(songs).Ok? ==>
      var c := Gathered(songs).value;
      && |c.librosa| == |songs| && |c.yamnet| == |songs| && |c.instrument| == |songs| && |c.duration| == |songs|
      && forall i :: 0 <= i < |songs| ==>
           SongRow(c.librosa[i], c.yamnet[i], c.instrument[i], c.duration[i]) == ReadSong(songs[i]).value
  {
    GatheredOk(songs);
    if Gathered(songs).Ok? {
      GatheredRows(songs);
    }
  }

  lemma {:induction false} GatheredOk(songs: seq<Value>)
    ensures Gathered(songs).Ok? <==> forall i :: 0 <= i < |songs| ==> ReadSong(songs[i]).Ok?
  {
    if songs != [] {
      var front := songs[..|songs| - 1];
      GatheredOk(front);
      assert Gathered(songs).Ok? <==> Gathered(front).Ok? && ReadSong(songs[|songs| - 1]).Ok?;
      assert forall i :: 0 <= i < |front| ==> front[i] == songs[i];
    }
  }

  lemma {:induction false} GatheredRows(songs: seq<Value>)
    requires Gathered(songs).Ok?
    ensures var c := Gathered(songs).value;
      && |c.librosa| == |songs| && |c.yamnet| == |songs| && |c.instrument| == |songs| && |c.duration| == |songs|
      && forall i :: 0 <= i < |songs| ==>
           ReadSong(songs[i]) == Ok(SongRow(c.librosa[i], c.yamnet[i], c.instrument[i], c.duration[i]))
  {
    if songs != [] {
      var front := songs[..|songs| - 1];
      GatheredRows(front);
      var fc := Gathered(front).value;
      var row := ReadSong(songs[|songs| - 1]).value;
      var c := Gathered(songs).value;
      assert c == Columns(fc.librosa + [row.features], fc.yamnet + [row.embedding],
                          fc.instrument + [row.instrument], fc.duration + [row.duration]);
      forall i | 0 <= i < |songs|
        ensures ReadSong(songs[i]) == Ok(SongRow(c.librosa[i], c.yamnet[i], c.instrument[i], c.duration[i]))
      {
        if i < |front| {
          assert songs[i] == front[i];
          assert c.librosa[i] == fc.librosa[i] && c.yamnet[i] == fc.yamnet[i];
          assert c.instrument[i] == fc.instrument[i] && c.duration[i] == fc.duration[i];
        }
      }
    }
  }

  lemma GatheredLength(songs: seq<Value>)
    requires Gathered(songs).Ok?
    ensures |Gathered(songs).value.librosa| == |songs|
  {
    GatheredSpec(songs);
  }

  /** A song without `features`, `yamnet_embedding` or `duration` stops the
      script: there is no default for them. */
  lemma MissingFieldFails(songs: seq<Value>, i: nat)
    requires i < |songs| && songs[i].Object?
    requires !("features" in songs[i].fields.entries && "yamnet_embedding" in songs[i].fields.entries &&
               "duration" in songs[i].fields.entries)
    ensures Gathered(songs).Err?
  {
    GatheredSpec(songs);
  }

  /** Every fused row is the librosa block, the reduced embedding, the
      instrument value and the duration of its own song, in that order; with
      a uniform librosa width and a 64-wide projection all rows have the same
      length. */
  lemma FinalRowsLayout(cols: Columns, pca: seq<Vec> -> Result<seq<Vec>>)
    requires FinalRows(cols, pca).Ok?
    ensures var lib := ToMatrix(cols.librosa).value;
      var reduced := pca(ToMatrix(cols.yamnet).value).value;
      var inst := ToColumn(cols.instrument).value;
      var dur := ToColumn(cols.duration).value;
      var rows := FinalRows(cols, pca).value;
      && |rows| == |cols.librosa|
      && (forall i :: 0 <= i < |rows| ==> rows[i] == lib[i] + reduced[i] + [inst[i]] + [dur[i]])
      && (Uniform(reduced, ReducedSize) ==>
            forall i :: 0 <= i < |rows| ==> |rows[i]| == |lib[0]| + ReducedSize + 2)
  {
  }

  /** Absent fields get the export defaults: cluster -1, empty title and url. */
  lemma ExportDefaults(song: Value, row: Vec)
    requires song.Object?
    ensures "cluster" !in song.fields.entries ==>
      ExportEntry(song, row).Ok? && ExportEntry(song, row).value.fields.entries["cluster"] == Int(-1)
    ensures ExportEntry(song, row).Ok? && "title" !in song.fields.entries ==>
      ExportEntry(song, row).value.fields.entries["title"] == Str("")
    ensures ExportEntry(song, row).Ok? && "perma_url" !in song.fields.entries ==>
      ExportEntry(song, row).value.fields.entries["perma_url"] == Str("")
  {
  }

  /** The instrument value of a song is the first value of its `instruments`
      mapping in insertion order, or 0.0 when the mapping is missing or empty. */
  lemma InstrumentValue(song: Value)
    requires ReadSong(song).Ok?
    ensures var inst := ReadSong(song).value.instrument;
      && ("instruments" !in song.fields.entries || song.fields.entries["instruments"].fields.keys == [] ==> inst == Num(0.0))
      && ("instruments" in song.fields.entries && song.fields.entries["instruments"].fields.keys != [] ==>
            var m := song.fields.entries["instruments"].fields;
            inst == m.entries[m.keys[0]])
  {
  }
}
