/** The chunked YAMNet pass shared by the query engine and the catalogue
    builder: the signal is cut into 2-second chunks, the network is run on
    each chunk in order, and the per-frame rows of every chunk are kept for
    pooling. The network itself is a parameter. */
module Yamnet {
  import opened Wrappers
  import opened FeatureLayout
  import opened Chunking

  /** What one inference call returns for one chunk: a row of class scores
      and an embedding row per frame. */
  datatype ChunkOutput = ChunkOutput(scores: seq<Vec>, embeddings: seq<Vec>)

  /** The column means of all stacked frames: the mean class scores and the
      mean embedding. */
  datatype Pooled = Pooled(scores: Vec, embedding: Vec)

  /** The outputs of the network on the chunks, in order, or the first error. */
  function InferAll(cs: seq<Vec>, infer: Vec -> Result<ChunkOutput>): (r: Result<seq<ChunkOutput>>)
    ensures r.Ok? ==> |r.value| == |cs|
  {
    if cs == [] then Ok([])
    else
      var o :- infer(cs[0]);
      var rest :- InferAll(cs[1..], infer);
      Ok([o] + rest)
  }

  function Prepend(outs: seq<ChunkOutput>, r: Result<seq<ChunkOutput>>): Result<seq<ChunkOutput>> {
    if r.Ok? then Ok(outs + r.value) else r
  }

  /** The loop `for start in range(0, len(y), chunk_len)`, running the network
      on `y[start:start+chunk_len]` and appending each output. The slice is
      never empty because `start < len(y)`, so the `continue` is never taken. */
  method InferChunks(y: Vec, infer: Vec -> Result<ChunkOutput>) returns (r: Result<seq<ChunkOutput>>)
    ensures r == InferAll(Chunks(y, ChunkLength), infer)
  {
    var outs: seq<ChunkOutput> := [];
    var start := 0;
    assert y[start..] == y;
    ghost var whole := InferAll(Chunks(y, ChunkLength), infer);
    if whole.Ok? {
      assert [] + whole.value == whole.value;
    }
    while start < |y|
      invariant start <= |y|
      invariant InferAll(Chunks(y, ChunkLength), infer) == Prepend(outs, InferAll(Chunks(y[start..], ChunkLength), infer))
      decreases |y| - start
    {
      var stop := if start + ChunkLength <= |y| then start + ChunkLength else |y|;
      var chunk := y[start..stop];
      ChunksStep(y[start..], chunk, stop - start);
      var o := infer(chunk);
      if o.Err? {
        assert InferAll([chunk] + Chunks(y[stop..], ChunkLength), infer) == Err(o.error);
        return Err(o.error);
      }
      assert y[start..][stop - start..] == y[stop..];
      PrependStep(outs, o.value, InferAll(Chunks(y[stop..], ChunkLength), infer));
      outs := outs + [o.value];
      start := stop;
    }
    assert y[start..] == [];
    assert outs + [] == outs;
    r := Ok(outs);
  }

  /** Cutting the first chunk off a non-empty signal. */
  lemma ChunksStep(y: Vec, chunk: Vec, len: nat)
    requires y != [] && len == (if ChunkLength <= |y| then ChunkLength else |y|) && chunk == y[..len]
    ensures Chunks(y, ChunkLength) == [chunk] + Chunks(y[len..], ChunkLength)
  {
    if |y| <= ChunkLength {
      assert y[len..] == [] && chunk == y;
    }
  }

  lemma PrependStep(outs: seq<ChunkOutput>, o: ChunkOutput, rest: Result<seq<ChunkOutput>>)
    ensures Prepend(outs, if rest.Ok? then Ok([o] + rest.value) else rest) == Prepend(outs + [o], rest)
  {
    if rest.Ok? {
      assert outs + ([o] + rest.value) == (outs + [o]) + rest.value;
    }
  }

  // ---------------------------------------------------------------- properties

  /** The pass succeeds exactly when the network succeeds on every chunk, and
      then output `i` is the network's output on chunk `i`. */
  lemma {:induction false} InferAllSpec(cs: seq<Vec>, infer: Vec -> Result<ChunkOutput>)
    ensures InferAll(cs, infer).Ok? <==> forall i :: 0 <= i < |cs| ==> infer(cs[i]).Ok?
    ensures InferAll(cs, infer).Ok? ==>
      forall i :: 0 <= i < |cs| ==> InferAll(cs, infer).value[i] == infer(cs[i]).value
  {
    if cs != [] {
      InferAllSpec(cs[1..], infer);
      assert forall i :: 1 <= i < |cs| ==> cs[i] == cs[1..][i - 1];
    }
  }

  /** On failure the error is that of the first chunk the network fails on. */
  lemma {:induction false} InferAllFirstError(cs: seq<Vec>, infer: Vec -> Result<ChunkOutput>, i: nat)
    requires i < |cs| && infer(cs[i]).Err?
    requires forall j :: 0 <= j < i ==> infer(cs[j]).Ok?
    ensures InferAll(cs, infer) == Err(infer(cs[i]).error)
  {
    if i > 0 {
      assert forall j :: 0 <= j < i - 1 ==> cs[1..][j] == cs[j + 1];
      InferAllFirstError(cs[1..], infer, i - 1);
    }
  }
}
