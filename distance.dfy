/** `np.linalg.norm(a - b)` on one-dimensional arrays, kept squared: the square
    root is strictly increasing, and so is `1 / (1 + d)` decreasing, so every
    comparison the engine makes between distances or similarities is the same
    comparison between squared distances. */
module Distance {
  import opened Wrappers
  import opened FeatureLayout
  import opened Json

  /** `np.array(v, dtype=np.float32)` of a JSON value: a flat list of numbers
      becomes that vector, a single number a scalar (which broadcasts like a
      length-1 vector). Strings, null, objects and nested lists are rejected
      here, although numpy parses a numeric string, turns null into nan and
      makes a nested list a matrix; the model covers only the flat number
      lists the pipeline writes. */
  function ToVector(v: Value): (r: Result<Vec>)
    ensures (v.Int? || v.Num? || v.Bool?) ==> r == Ok([AsReal(v).value])
    ensures v.List? ==> r == ListToVector(v.items)
    ensures !(v.Int? || v.Num? || v.Bool? || v.List?) ==> r.Err?
  {
    if v.List? then ListToVector(v.items)
    else
      match AsReal(v)
      case Some(x) => Ok([x])
      case None => Err("could not convert to float")
  }

  function ListToVector(items: seq<Value>): (r: Result<Vec>)
    ensures r.Ok? <==> forall i :: 0 <= i < |items| ==> AsReal(items[i]).Some?
    ensures r.Ok? ==> |r.value| == |items| && forall i :: 0 <= i < |items| ==> r.value[i] == AsReal(items[i]).value
  {
    if forall i :: 0 <= i < |items| ==> AsReal(items[i]).Some? then
      Ok(seq(|items|, i requires 0 <= i < |items| => AsReal(items[i]).value))
    else Err("could not convert to float")
  }

  /** numpy broadcasting of two one-dimensional shapes: equal lengths, or one
      of them of length 1 (a length-1 array, or a 0-d scalar array). */
  predicate Broadcastable(a: Vec, b: Vec) {
    |a| == |b| || |a| == 1 || |b| == 1
  }

  /** `a - b`, elementwise after broadcasting; a shape mismatch raises ValueError. */
  function Diff(a: Vec, b: Vec): (r: Result<Vec>)
    ensures r.Ok? <==> Broadcastable(a, b)
    ensures r.Ok? && |a| == |b| ==> |r.value| == |a| && forall i :: 0 <= i < |a| ==> r.value[i] == a[i] - b[i]
  {
    if |a| == |b| then Ok(seq(|a|, i requires 0 <= i < |a| => a[i] - b[i]))
    else if |a| == 1 then Ok(seq(|b|, i requires 0 <= i < |b| => a[0] - b[i]))
    else if |b| == 1 then Ok(seq(|a|, i requires 0 <= i < |a| => a[i] - b[0]))
    else Err("operands could not be broadcast together")
  }

  function SumSquares(v: Vec): real {
    if v == [] then 0.0 else v[0] * v[0] + SumSquares(v[1..])
  }

  /** The squared Euclidean distance, or the broadcasting error. */
  function SqDist(a: Vec, b: Vec): (r: Result<real>)
    ensures r.Ok? <==> Broadcastable(a, b)
  {
    var d :- Diff(a, b);
    Ok(SumSquares(d))
  }

  lemma {:induction false} SumSquaresNonNegative(v: Vec)
    ensures SumSquares(v) >= 0.0
  {
    if v != [] {
      SumSquaresNonNegative(v[1..]);
      assert v[0] * v[0] >= 0.0;
    }
  }

  lemma {:induction false} SumSquaresZero(v: Vec)
    requires forall i :: 0 <= i < |v| ==> v[i] == 0.0
    ensures SumSquares(v) == 0.0
  {
    if v != [] {
      SumSquaresZero(v[1..]);
    }
  }

  lemma {:induction false} SumSquaresNegated(v: Vec, w: Vec)
    requires |v| == |w| && forall i :: 0 <= i < |v| ==> w[i] == -v[i]
    ensures SumSquares(v) == SumSquares(w)
  {
    if v != [] {
      SumSquaresNegated(v[1..], w[1..]);
      assert w[0] * w[0] == v[0] * v[0];
    }
  }

  /** A distance is never negative. */
  lemma DistNonNegative(a: Vec, b: Vec)
    requires Broadcastable(a, b)
    ensures SqDist(a, b).value >= 0.0
  {
    SumSquaresNonNegative(Diff(a, b).value);
  }

  /** A vector is at distance zero from itself. */
  lemma DistSelf(a: Vec)
    ensures SqDist(a, a) == Ok(0.0)
  {
    SumSquaresZero(Diff(a, a).value);
  }

  /** Distance is symmetric, including the broadcast cases and the error. */
  lemma DistSymmetric(a: Vec, b: Vec)
    ensures SqDist(a, b) == SqDist(b, a)
  {
    if Broadcastable(a, b) {
      SumSquaresNegated(Diff(a, b).value, Diff(b, a).value);
    }
  }
}
