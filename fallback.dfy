/** The brute-force fallback of a query whose cluster has no songs: score
    every catalogue song that has features by its similarity
    `1 / (1 + ||query - features||)`, sort by it descending, keep ten. The
    similarity is a strictly decreasing function of the distance, so ordering
    by it descending is ordering by squared distance ascending; Python's sort
    is stable, so equal scores keep catalogue order. */
module Fallback {
  import opened Wrappers
  import opened Dicts
  import opened Json
  import opened FeatureLayout
  import opened Distance
  import opened Ranking

  const MaxCandidates: nat := 10

  /** `"features" in song_data`. Catalogue entries are objects once the
      catalogue has loaded. */
  predicate HasFeatures(catalogue: Record, j: nat)
    requires j < |catalogue.keys|
  {
    var data := EntryAt(catalogue, j);
    data.Object? && "features" in data.fields.entries
  }

  function EntryAt(catalogue: Record, j: nat): Value
    requires j < |catalogue.keys|
  {
    assert catalogue.keys[j] in (set k | k in catalogue.keys);
    catalogue.entries[catalogue.keys[j]]
  }

  /** The squared distance from the query to entry `j`'s features, or the
      error `np.array` or the subtraction raises. */
  function FeatureDist(vec: Vec, catalogue: Record, j: nat): Result<real>
    requires j < |catalogue.keys| && HasFeatures(catalogue, j)
  {
    var f :- ToVector(EntryAt(catalogue, j).fields.entries["features"]);
    SqDist(vec, f)
  }

  /** `similarities` after the loop has seen the first `n` entries: one item
      per entry with features, keyed by its distance and its position. */
  function Scored(vec: Vec, catalogue: Record, n: nat): Result<seq<Keyed>>
    requires n <= |catalogue.keys|
  {
    if n == 0 then Ok([])
    else
      var front :- Scored(vec, catalogue, n - 1);
      if HasFeatures(catalogue, n - 1) then
        var d :- FeatureDist(vec, catalogue, n - 1);
        Ok(front + [Keyed(d, n - 1)])
      else Ok(front)
  }

  /** The positions of the first ten items of the stable sort. */
  function TopPositions(scored: seq<Keyed>): (ps: seq<nat>)
    ensures |ps| <= MaxCandidates && |ps| <= |scored| && (|ps| < MaxCandidates ==> |ps| == |scored|)
    ensures forall k :: 0 <= k < |ps| && Sort(scored)[k].pos >= 0 ==> ps[k] == Sort(scored)[k].pos
  {
    var sorted := Sort(scored);
    var top := if |sorted| <= MaxCandidates then sorted else sorted[..MaxCandidates];
    seq(|top|, k requires 0 <= k < |top| => if top[k].pos >= 0 then top[k].pos as nat else 0)
  }

  /** The catalogue positions of the fallback's candidates, nearest first. */
  function NearestPositions(vec: Vec, catalogue: Record): Result<seq<nat>> {
    var scored :- Scored(vec, catalogue, |catalogue.keys|);
    Ok(TopPositions(scored))
  }

  predicate InRange(catalogue: Record, ps: seq<nat>) {
    forall k :: 0 <= k < |ps| ==> ps[k] < |catalogue.keys|
  }

  function IdsAt(catalogue: Record, ps: seq<nat>): seq<string>
    requires InRange(catalogue, ps)
  {
    seq(|ps|, k requires 0 <= k < |ps| => catalogue.keys[ps[k]])
  }

  /** The loop building `similarities`, then the sort and
      `[sid for sid, _ in similarities[:10]]`. */
  method SimilarityFallback(vec: Vec, catalogue: Record) returns (r: Result<seq<string>>)
    ensures r.Ok? <==> NearestPositions(vec, catalogue).Ok?
    ensures r.Err? ==> r.error == NearestPositions(vec, catalogue).error
    ensures r.Ok? ==> (InRange(catalogue, NearestPositions(vec, catalogue).value) &&
      r.value == IdsAt(catalogue, NearestPositions(vec, catalogue).value))
  {
    var similarities: seq<Keyed> := [];
    var i := 0;
    while i < |catalogue.keys|
      invariant 0 <= i <= |catalogue.keys|
      invariant Scored(vec, catalogue, i) == Ok(similarities)
    {
      if HasFeatures(catalogue, i) {
        var features := ToVector(EntryAt(catalogue, i).fields.entries["features"]);
        if features.Err? {
          ScoredStopsAt(vec, catalogue, i + 1, |catalogue.keys|);
          return Err(features.error);
        }
        var d := SqDist(vec, features.value);
        if d.Err? {
          ScoredStopsAt(vec, catalogue, i + 1, |catalogue.keys|);
          return Err(d.error);
        }
        similarities := similarities + [Keyed(d.value, i)];
      }
      i := i + 1;
    }
    TopInRange(vec, catalogue);
    r := Ok(IdsAt(catalogue, TopPositions(similarities)));
  }

  lemma TopInRange(vec: Vec, catalogue: Record)
    requires Scored(vec, catalogue, |catalogue.keys|).Ok?
    ensures InRange(catalogue, TopPositions(Scored(vec, catalogue, |catalogue.keys|).value))
  {
    var scored := Scored(vec, catalogue, |catalogue.keys|).value;
    ScoredPositions(vec, catalogue, |catalogue.keys|);
    var sorted := Sort(scored);
    forall k | 0 <= k < |sorted| ensures 0 <= sorted[k].pos < |catalogue.keys| {
      assert sorted[k] in multiset(scored);
    }
  }

  /** Once a prefix fails, every longer prefix fails with the same error. */
  lemma {:induction false} ScoredStopsAt(vec: Vec, catalogue: Record, n: nat, m: nat)
    requires n <= m <= |catalogue.keys| && Scored(vec, catalogue, n).Err?
    ensures Scored(vec, catalogue, m) == Scored(vec, catalogue, n)
    decreases m - n
  {
    if n < m {
      ScoredStopsAt(vec, catalogue, n + 1, m);
    }
  }

  /** The scored items are exactly the entries with features below `n`, each
      keyed by its own distance. */
  lemma {:induction false} ScoredPositions(vec: Vec, catalogue: Record, n: nat)
    requires n <= |catalogue.keys| && Scored(vec, catalogue, n).Ok?
    ensures forall t :: t in Scored(vec, catalogue, n).value ==>
      0 <= t.pos < n && HasFeatures(catalogue, t.pos) && FeatureDist(vec, catalogue, t.pos) == Ok(t.key)
    ensures forall j :: 0 <= j < n && HasFeatures(catalogue, j) ==>
      FeatureDist(vec, catalogue, j).Ok? && Keyed(FeatureDist(vec, catalogue, j).value, j) in Scored(vec, catalogue, n).value
    ensures forall a, b :: 0 <= a < b < |Scored(vec, catalogue, n).value| ==>
      Scored(vec, catalogue, n).value[a].pos < Scored(vec, catalogue, n).value[b].pos
  {
    if n > 0 {
      ScoredPositions(vec, catalogue, n - 1);
    }
  }

  /** Sorting keeps the items, and distinct positions stay distinct. */
  lemma PositionsKept(s: seq<Keyed>, sorted: seq<Keyed>)
    requires multiset(sorted) == multiset(s)
    requires forall a, b :: 0 <= a < b < |s| ==> s[a].pos < s[b].pos
    ensures forall t :: t in sorted <==> t in s
    ensures forall a, b :: 0 <= a < b < |sorted| ==> sorted[a].pos != sorted[b].pos
  {
    forall t ensures t in sorted <==> t in s {
      assert t in sorted <==> t in multiset(sorted);
    }
    assert forall a, b :: 0 <= a < b < |s| ==> s[a] != s[b];
    DistinctPreserved(s, sorted);
    forall a, b | 0 <= a < b < |sorted| ensures sorted[a].pos != sorted[b].pos {
      assert sorted[a] in s && sorted[b] in s;
      var x :| 0 <= x < |s| && s[x] == sorted[a];
      var y :| 0 <= y < |s| && s[y] == sorted[b];
      assert x != y;
    }
  }

  // ---------------------------------------------------------------- properties

  function Dist(vec: Vec, catalogue: Record, j: nat): real
    requires j < |catalogue.keys| && HasFeatures(catalogue, j) && FeatureDist(vec, catalogue, j).Ok?
  {
    FeatureDist(vec, catalogue, j).value
  }

  /** The fallback fails exactly when some entry with features has features
      that are not a vector, or a vector the query cannot be compared with. */
  lemma NearestDefined(vec: Vec, catalogue: Record)
    ensures NearestPositions(vec, catalogue).Ok? <==>
      forall j :: 0 <= j < |catalogue.keys| && HasFeatures(catalogue, j) ==> FeatureDist(vec, catalogue, j).Ok?
  {
    ScoredDefined(vec, catalogue, |catalogue.keys|);
  }

  lemma {:induction false} ScoredDefined(vec: Vec, catalogue: Record, n: nat)
    requires n <= |catalogue.keys|
    ensures Scored(vec, catalogue, n).Ok? <==>
      forall j :: 0 <= j < n && HasFeatures(catalogue, j) ==> FeatureDist(vec, catalogue, j).Ok?
  {
    if n > 0 {
      ScoredDefined(vec, catalogue, n - 1);
    }
  }

  /** The first ten of a stable sort, as positions, in sorted order and
      without repeats. */
  lemma TopPositionsFacts(scored: seq<Keyed>)
    requires forall t :: t in scored ==> t.pos >= 0
    requires forall a, b :: 0 <= a < b < |scored| ==> scored[a].pos < scored[b].pos
    ensures var ps := TopPositions(scored); var sorted := Sort(scored);
      && (forall k :: 0 <= k < |ps| ==> sorted[k].pos == ps[k] && sorted[k] in scored)
      && (forall a, b :: 0 <= a < b < |ps| ==> ps[a] != ps[b])
      && (forall a, b :: 0 <= a < b < |ps| ==> Precedes(sorted[a], sorted[b]))
  {
    var sorted := Sort(scored);
    PositionsKept(scored, sorted);
  }

  /** Every item left out of the first ten comes after every item kept, and
      items are left out only when ten were kept. */
  lemma TopPositionsExcluded(scored: seq<Keyed>, t: Keyed)
    requires forall t :: t in scored ==> t.pos >= 0
    requires forall a, b :: 0 <= a < b < |scored| ==> scored[a].pos < scored[b].pos
    requires t in scored && t.pos !in TopPositions(scored)
    ensures var ps := TopPositions(scored);
      |ps| == MaxCandidates && forall k :: 0 <= k < |ps| ==> Precedes(Sort(scored)[k], t)
  {
    var sorted := Sort(scored);
    var ps := TopPositions(scored);
    PositionsKept(scored, sorted);
    var p :| 0 <= p < |sorted| && sorted[p] == t;
    assert p >= |ps|;
  }

  /** At most ten distinct songs with features, nearest first, ties in
      catalogue order. */
  lemma NearestChosen(vec: Vec, catalogue: Record)
    requires NearestPositions(vec, catalogue).Ok?
    ensures var ps := NearestPositions(vec, catalogue).value;
      && |ps| <= MaxCandidates
      && (forall k :: 0 <= k < |ps| ==>
            ps[k] < |catalogue.keys| && HasFeatures(catalogue, ps[k]) && FeatureDist(vec, catalogue, ps[k]).Ok?)
      && (forall a, b :: 0 <= a < b < |ps| ==> ps[a] != ps[b])
      && (forall a, b :: 0 <= a < b < |ps| ==>
            Precedes(Keyed(Dist(vec, catalogue, ps[a]), ps[a]), Keyed(Dist(vec, catalogue, ps[b]), ps[b])))
  {
    var n := |catalogue.keys|;
    var scored := Scored(vec, catalogue, n).value;
    ScoredPositions(vec, catalogue, n);
    TopPositionsFacts(scored);
    ChosenKeys(vec, catalogue);
  }

  /** Each chosen position is the key of the matching sorted item. */
  lemma ChosenKeys(vec: Vec, catalogue: Record)
    requires NearestPositions(vec, catalogue).Ok?
    ensures var ps := NearestPositions(vec, catalogue).value;
      var sorted := Sort(Scored(vec, catalogue, |catalogue.keys|).value);
      |ps| <= |sorted| &&
      forall k :: 0 <= k < |ps| ==>
        ps[k] < |catalogue.keys| && HasFeatures(catalogue, ps[k]) && FeatureDist(vec, catalogue, ps[k]).Ok? &&
        sorted[k] == Keyed(Dist(vec, catalogue, ps[k]), ps[k])
  {
    var n := |catalogue.keys|;
    var scored := Scored(vec, catalogue, n).value;
    ScoredPositions(vec, catalogue, n);
    TopPositionsFacts(scored);
    var sorted := Sort(scored);
    var ps := TopPositions(scored);
    forall k | 0 <= k < |ps|
      ensures ps[k] < n && HasFeatures(catalogue, ps[k]) && FeatureDist(vec, catalogue, ps[k]).Ok?
      ensures sorted[k] == Keyed(Dist(vec, catalogue, ps[k]), ps[k])
    {
      assert sorted[k] in scored;
    }
  }

  /** Every song with features left out is no nearer than any chosen one,
      which can only happen when ten were chosen. */
  lemma NearestExcluded(vec: Vec, catalogue: Record, j: nat)
    requires NearestPositions(vec, catalogue).Ok?
    requires j < |catalogue.keys| && HasFeatures(catalogue, j) && j !in NearestPositions(vec, catalogue).value
    ensures var ps := NearestPositions(vec, catalogue).value;
      && FeatureDist(vec, catalogue, j).Ok? && |ps| == MaxCandidates
      && forall k :: 0 <= k < |ps| ==>
           ps[k] < |catalogue.keys| && HasFeatures(catalogue, ps[k]) && FeatureDist(vec, catalogue, ps[k]).Ok? &&
           Precedes(Keyed(Dist(vec, catalogue, ps[k]), ps[k]), Keyed(Dist(vec, catalogue, j), j))
  {
    var n := |catalogue.keys|;
    var scored := Scored(vec, catalogue, n).value;
    ScoredPositions(vec, catalogue, n);
    ChosenKeys(vec, catalogue);
    var t := Keyed(FeatureDist(vec, catalogue, j).value, j);
    TopPositionsExcluded(scored, t);
  }
}
