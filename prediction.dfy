/** The query engine: load the catalogue once, then answer one decoded song
    with up to ten recommendations from its nearest cluster, or from the ten
    most similar songs when that cluster has none. */
module Prediction {
  import opened Wrappers
  import opened Dicts
  import opened Json
  import opened FeatureLayout
  import opened Chunking
  import opened Yamnet
  import opened Instruments
  import opened ClusterIndex
  import opened Fallback
  import opened Ranker

  // ---------------------------------------------------------------- loading

  /** What the module keeps after loading: `song_id_to_meta`, the centroid
      table, the reduced catalogue and `cluster_to_song_ids`. */
  datatype Engine = Engine(
    meta: Dict<Value, Record>,
    centroids: Dict<int, Vec>,
    catalogue: Record,
    index: Dict<Value, seq<string>>)

  /** The module-level loading steps, in their order, from the parsed
      metadata, clusters and reduced-features files. The first step that
      raises aborts loading with its error. */
  method Load(metadata: Value, clusters: Value, featuresReduced: Value) returns (r: Result<Engine>)
    ensures r.Ok? <==>
      && MetaIndex(metadata).Ok? && CentroidTable(clusters).Ok?
      && featuresReduced.Object? && AllClustered(featuresReduced.fields, featuresReduced.fields.keys)
    ensures r.Ok? ==>
      && r.value.meta == MetaIndex(metadata).value
      && r.value.centroids == CentroidTable(clusters).value
      && r.value.catalogue == featuresReduced.fields
      && IsClusterIndex(r.value.catalogue, r.value.index)
  {
    var meta := MetaIndex(metadata);
    if meta.Err? {
      return Err(meta.error);
    }
    var centroids := CentroidTable(clusters);
    if centroids.Err? {
      return Err(centroids.error);
    }
    if !featuresReduced.Object? {
      return Err("AttributeError: features file has no attribute 'items'");
    }
    var index := BuildClusterIndex(featuresReduced.fields);
    if index.Err? {
      return Err(index.error);
    }
    r := Ok(Engine(meta.value, centroids.value, featuresReduced.fields, index.value));
  }

  // ---------------------------------------------------------------- feature extraction

  /** The signal-processing and learned components, which the model takes as
      given: the spectral summary of a signal, one YAMNet call on a chunk, the
      mean over the stacked frames, the fitted PCA projection, and the class
      names. */
  datatype Extractors = Extractors(
    spectral: Vec -> Result<SpectralSummary>,
    infer: Vec -> Result<ChunkOutput>,
    pool: seq<ChunkOutput> -> Result<Pooled>,
    pca: Vec -> Result<Vec>,
    classNames: seq<string>)

  /** `extract_librosa`: the librosa block and the duration. */
  function LibrosaFeatures(y: Vec, spectral: Vec -> Result<SpectralSummary>): (r: Result<(Vec, real)>)
    ensures r.Ok? <==> spectral(y).Ok?
    ensures r.Err? ==> r.error == spectral(y).error
    ensures r.Ok? ==> r.value == (LibrosaVector(spectral(y).value), spectral(y).value.duration)
    ensures r.Ok? && LibrosaShaped(spectral(y).value) ==>
      |r.value.0| == LibrosaLength && r.value.0[DurationSlot] == r.value.1
  {
    var s :- spectral(y);
    Ok((LibrosaVector(s), s.duration))
  }

  /** What `extract_yamnet_with_instruments` returns once the chunk outputs
      are known: zeros and 0.0 when there were none, otherwise the mean
      embedding and the first value of the `instruments` dict. */
  function YamnetSummary(outs: seq<ChunkOutput>, pool: seq<ChunkOutput> -> Result<Pooled>, names: seq<string>)
    : Result<(Vec, real)>
  {
    if outs == [] then Ok((Zeros(EmbeddingSize), 0.0))
    else
      var p :- pool(outs);
      var instruments :- SelectInstruments(p.scores, names);
      Ok((p.embedding, TopInstrumentScore(instruments)))
  }

  /** `extract_yamnet_with_instruments` on the whole signal. */
  function YamnetFeatures(y: Vec, x: Extractors): Result<(Vec, real)> {
    var outs :- InferAll(Chunks(y, ChunkLength), x.infer);
    YamnetSummary(outs, x.pool, x.classNames)
  }

  /** The chunk loop followed by the pooling and instrument selection. */
  method ExtractYamnet(y: Vec, x: Extractors) returns (r: Result<(Vec, real)>)
    ensures r == YamnetFeatures(y, x)
  {
    var outs := InferChunks(y, x.infer);
    if outs.Err? {
      return Err(outs.error);
    }
    if outs.value == [] {
      return Ok((Zeros(EmbeddingSize), 0.0));
    }
    var pooled := x.pool(outs.value);
    if pooled.Err? {
      return Err(pooled.error);
    }
    var instruments := SelectInstruments(pooled.value.scores, x.classNames);
    if instruments.Err? {
      return Err(instruments.error);
    }
    r := Ok((pooled.value.embedding, TopInstrumentScore(instruments.value)));
  }

  /** `final_vec` for a decoded signal: the librosa block, the projected
      embedding, the instrument score and the duration. */
  function QueryVector(y: Vec, x: Extractors): Result<Vec> {
    var lib :- LibrosaFeatures(y, x.spectral);
    var yam :- YamnetFeatures(y, x);
    var reduced :- x.pca(yam.0);
    Ok(CombineFeatures(lib.0, reduced, yam.1, lib.1))
  }

  // ---------------------------------------------------------------- answering

  datatype Response =
    | Recommendations(clusterId: int, totalCandidates: nat, recommendations: seq<Recommendation>, strategy: string)
    | Failure(error: string)

  lemma NearestInRange(vec: Vec, catalogue: Record)
    requires NearestPositions(vec, catalogue).Ok?
    ensures InRange(catalogue, NearestPositions(vec, catalogue).value)
  {
    TopInRange(vec, catalogue);
  }

  /** `candidate_song_ids`: the cluster's list, or the fallback's ids when the
      list is missing or empty. */
  function Candidates(e: Engine, vec: Vec, c: int): Result<seq<string>> {
    var listed := Get(e.index, Int(c), []);
    if listed != [] then Ok(listed)
    else
      var ps :- NearestPositions(vec, e.catalogue);
      NearestInRange(vec, e.catalogue);
      Ok(IdsAt(e.catalogue, ps))
  }

  /** The response once the query vector and its cluster are known. */
  function Outcome(e: Engine, vec: Vec, c: int): Response {
    var cands := Candidates(e, vec, c);
    if cands.Err? then Failure(cands.error)
    else
      var top := RankFrom(cands.value, e.meta, {}, MaxRecommendations);
      if top.Err? then Failure(top.error)
      else Recommendations(c, |cands.value|, top.value,
                           if Get(e.index, Int(c), []) != [] then "cluster" else "similarity")
  }

  /** `run` on a decoded signal, or on the decoder's error. Every exception
      becomes a response holding only its message. */
  method Run(e: Engine, audio: Result<Vec>, x: Extractors) returns (resp: Response)
    ensures audio.Err? ==> resp == Failure(audio.error)
    ensures audio.Ok? && QueryVector(audio.value, x).Err? ==> resp == Failure(QueryVector(audio.value, x).error)
    ensures audio.Ok? && QueryVector(audio.value, x).Ok? ==>
      var vec := QueryVector(audio.value, x).value;
      && (!AllBroadcastable(vec, e.centroids) ==> resp.Failure?)
      && (AllBroadcastable(vec, e.centroids) ==>
            exists c :: Assigned(vec, e.centroids, c) && resp == Outcome(e, vec, c))
  {
    if audio.Err? {
      return Failure(audio.error);
    }
    var y := audio.value;
    var lib := LibrosaFeatures(y, x.spectral);
    if lib.Err? {
      return Failure(lib.error);
    }
    var yam := ExtractYamnet(y, x);
    if yam.Err? {
      return Failure(yam.error);
    }
    var reduced := x.pca(yam.value.0);
    if reduced.Err? {
      return Failure(reduced.error);
    }
    var finalVec := CombineFeatures(lib.value.0, reduced.value, yam.value.1, lib.value.1);
    var clusterId := AssignCluster(finalVec, e.centroids);
    if clusterId.Err? {
      return Failure(clusterId.error);
    }
    var c := clusterId.value;
    var cands := Get(e.index, Int(c), []);
    if cands == [] {
      var similar := SimilarityFallback(finalVec, e.catalogue);
      if similar.Err? {
        return Failure(similar.error);
      }
      cands := similar.value;
    }
    var top := Rank(cands, e.meta);
    if top.Err? {
      return Failure(top.error);
    }
    resp := Recommendations(c, |cands|, top.value,
                            if Get(e.index, Int(c), []) != [] then "cluster" else "similarity");
  }

  // ---------------------------------------------------------------- properties

  /** An empty signal gives the zero embedding and no instrument score,
      without calling the network. */
  lemma YamnetEmpty(x: Extractors)
    ensures YamnetFeatures([], x) == Ok((Zeros(EmbeddingSize), 0.0))
  {
    var empty: Vec := [];
    ChunksEmpty(empty, ChunkLength);
  }

  /** With distinct class names the instrument score is 0.0 when no mean
      class score exceeds 0.15, and otherwise the largest mean class score. */
  lemma YamnetInstrumentScore(outs: seq<ChunkOutput>, x: Extractors)
    requires DistinctNames(x.classNames)
    requires YamnetSummary(outs, x.pool, x.classNames).Ok?
    ensures var score := YamnetSummary(outs, x.pool, x.classNames).value.1;
      outs == [] ==> score == 0.0
    ensures outs != [] ==>
      var scores := x.pool(outs).value.scores;
      var score := YamnetSummary(outs, x.pool, x.classNames).value.1;
      && ((exists i :: 0 <= i < |scores| && scores[i] > Threshold) ==> IsMax(scores, score) && score > Threshold)
      && ((forall i :: 0 <= i < |scores| ==> scores[i] <= Threshold) ==> score == 0.0)
  {
    if outs != [] {
      TopScoreIsMax(x.pool(outs).value.scores, x.classNames);
    }
  }

  /** The query vector is the librosa block, the projected embedding, the
      instrument score and the duration, in that order; with default shapes
      and a 64-wide projection it has 116 values and ends with the duration. */
  lemma QueryLayout(y: Vec, x: Extractors)
    requires QueryVector(y, x).Ok?
    ensures var s := x.spectral(y).value;
      var yam := YamnetFeatures(y, x).value;
      var reduced := x.pca(yam.0).value;
      && QueryVector(y, x).value == LibrosaVector(s) + reduced + [yam.1] + [s.duration]
      && (LibrosaShaped(s) && |reduced| == ReducedSize ==>
            |QueryVector(y, x).value| == FusedLength && QueryVector(y, x).value[FusedLength - 1] == s.duration)
  {
    var s := x.spectral(y).value;
    var yam := YamnetFeatures(y, x).value;
    if LibrosaShaped(s) && |x.pca(yam.0).value| == ReducedSize {
      FusedShape(s, x.pca(yam.0).value, yam.1, s.duration);
    }
  }

  /** The answer holds at most ten songs; it is "cluster" exactly when the
      cluster's list is non-empty, and then the candidates are that list; on
      the similarity path there are at most ten candidates. */
  lemma OutcomeShape(e: Engine, vec: Vec, c: int)
    requires Outcome(e, vec, c).Recommendations?
    ensures var resp := Outcome(e, vec, c);
      && resp.clusterId == c
      && |resp.recommendations| <= MaxRecommendations
      && (resp.strategy == "cluster" <==> Get(e.index, Int(c), []) != [])
      && (resp.strategy == "cluster" ==> resp.totalCandidates == |Get(e.index, Int(c), [])|)
      && (resp.strategy == "similarity" ==> resp.totalCandidates <= MaxCandidates)
  {
    var cands := Candidates(e, vec, c).value;
    RankShape(cands, e.meta, {}, MaxRecommendations);
    if Get(e.index, Int(c), []) == [] {
      NearestChosen(vec, e.catalogue);
    }
  }

  /** The recommendations are, up to ten, the candidates with metadata whose
      `perma_url` is falsy or was not kept before, in candidate order. */
  lemma OutcomeRanking(e: Engine, vec: Vec, c: int)
    requires Outcome(e, vec, c).Recommendations?
    ensures Candidates(e, vec, c).Ok?
    ensures Ids(Outcome(e, vec, c).recommendations) ==
      Take(KeptFrom(Candidates(e, vec, c).value, e.meta, 0), MaxRecommendations)
  {
    RankKeepsFirstOccurrences(Candidates(e, vec, c).value, e.meta);
  }

  /** Once loaded, the cluster path is taken exactly when some catalogue
      song's `cluster` is `==` to the assigned label (`2.0` and `2` alike),
      and then the candidates are those songs in catalogue order. */
  lemma ClusterPathIff(e: Engine, vec: Vec, c: int)
    requires IsClusterIndex(e.catalogue, e.index)
    ensures Get(e.index, Int(c), []) != [] <==>
      exists i :: 0 <= i < |e.catalogue.keys| && RawCluster(e.catalogue, e.catalogue.keys[i]).Some? &&
        PyEqual(RawCluster(e.catalogue, e.catalogue.keys[i]).value, Int(c))
    ensures Get(e.index, Int(c), []) != [] ==>
      Get(e.index, Int(c), []) == Members(e.catalogue, e.catalogue.keys, Int(c))
  {
    forall i | 0 <= i < |e.catalogue.keys| {
      FiledUnder(e.catalogue, e.catalogue.keys[i], Int(c));
    }
    if Get(e.index, Int(c), []) != [] {
      var x := Get(e.index, Int(c), [])[0];
      MembersSpec(e.catalogue, e.catalogue.keys, Int(c), x);
      var i :| 0 <= i < |e.catalogue.keys| && e.catalogue.keys[i] == x;
    }
  }

  /** A song stored with `"cluster": 2.0` is found when the query is
      assigned the label 2, and the cluster path is taken. */
  lemma FloatClusterFound(e: Engine, vec: Vec, i: nat)
    requires IsClusterIndex(e.catalogue, e.index)
    requires i < |e.catalogue.keys| && RawCluster(e.catalogue, e.catalogue.keys[i]) == Some(Num(2.0))
    ensures e.catalogue.keys[i] in Get(e.index, Int(2), [])
  {
    var id := e.catalogue.keys[i];
    assert ClusterOfId(e.catalogue, id) == Some(Int(2));
    MembersSpec(e.catalogue, e.catalogue.keys, Int(2), id);
  }
}
