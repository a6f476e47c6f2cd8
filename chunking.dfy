/** The partition of a signal into fixed-length chunks that both YAMNet passes
    use: `y[start:start + n]` for `start` in `range(0, len(y), n)`. */
module Chunking {

  const SampleRate: nat := 16000
  const ChunkSeconds: nat := 2

  /** `sr * chunk_sec` samples per chunk: 32000 at the fixed sample rate. */
  const ChunkLength: nat := SampleRate * ChunkSeconds

  /** The chunks, in order. */
  function Chunks<T>(y: seq<T>, n: nat): (cs: seq<seq<T>>)
    requires n > 0
    decreases |y|
  {
    if y == [] then []
    else if |y| <= n then [y]
    else [y[..n]] + Chunks(y[n..], n)
  }

  function Flatten<T>(cs: seq<seq<T>>): seq<T> {
    if cs == [] then [] else cs[0] + Flatten(cs[1..])
  }

  /** The chunks put back together give the signal. */
  lemma {:induction false} ChunksConcat<T>(y: seq<T>, n: nat)
    requires n > 0
    ensures Flatten(Chunks(y, n)) == y
    decreases |y|
  {
    if y != [] && |y| > n {
      ChunksConcat(y[n..], n);
      assert Chunks(y, n)[1..] == Chunks(y[n..], n);
      assert y == y[..n] + y[n..];
    } else if y != [] {
      assert Chunks(y, n)[1..] == [];
    }
  }

  /** Every chunk but the last has exactly `n` samples; the last has between 1 and `n`. */
  lemma {:induction false} ChunkLengths<T>(y: seq<T>, n: nat)
    requires n > 0
    ensures forall i :: 0 <= i < |Chunks(y, n)| ==> 0 < |Chunks(y, n)[i]| <= n
    ensures forall i :: 0 <= i < |Chunks(y, n)| - 1 ==> |Chunks(y, n)[i]| == n
    decreases |y|
  {
    if |y| > n {
      ChunkLengths(y[n..], n);
      var cs := Chunks(y, n);
      assert forall i :: 1 <= i < |cs| ==> cs[i] == Chunks(y[n..], n)[i - 1];
    }
  }

  /** Chunk `i` starts at sample `i * n`: `Chunks(y, n)[i] == y[i*n .. min((i+1)*n, |y|)]`. */
  lemma {:induction false} ChunkStart<T>(y: seq<T>, n: nat, i: nat)
    requires n > 0 && i < |Chunks(y, n)|
    ensures i * n < |y|
    ensures Chunks(y, n)[i] == y[i * n .. if (i + 1) * n <= |y| then (i + 1) * n else |y|]
    decreases |y|
  {
    if i > 0 {
      var rest := y[n..];
      assert |y| > n;
      assert Chunks(y, n)[i] == Chunks(rest, n)[i - 1];
      ChunkStart(rest, n, i - 1);
      MulStep(i, n);
      var lo := (i - 1) * n;
      var hi := if i * n <= |rest| then i * n else |rest|;
      assert Chunks(rest, n)[i - 1] == rest[lo..hi];
      assert rest[lo..hi] == y[n + lo..n + hi];
    }
  }

  lemma MulStep(i: nat, n: nat)
    requires i > 0
    ensures (i - 1) * n + n == i * n && i * n + n == (i + 1) * n
  {
  }

  /** The empty signal has no chunks, any other signal at least one. */
  lemma ChunksEmpty<T>(y: seq<T>, n: nat)
    requires n > 0
    ensures Chunks(y, n) == [] <==> y == []
  {
  }
}
