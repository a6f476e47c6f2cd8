/** Instrument detection from mean YAMNet class scores:
    `top_idx = np.argsort(scores)[::-1][:20]`,
    `instruments = {CLASS_NAMES[i]: scores[i] for i in top_idx if scores[i] > 0.15}`,
    and the "top instrument score" is the first value of that dict, or 0.0. */
module Instruments {
  import opened Wrappers
  import opened Dicts
  import opened Ranking

  const Threshold: real := 0.15
  const TopCount: nat := 20

  /** Class `i` as an item to sort: ascending `-score`, and on equal scores
      ascending `-i`, i.e. the higher index first. */
  function Ranked(scores: seq<real>): (items: seq<Keyed>)
    ensures |items| == |scores|
    ensures forall i :: 0 <= i < |scores| ==> items[i] == Keyed(-scores[i], -i)
  {
    seq(|scores|, i requires 0 <= i < |scores| => Keyed(-scores[i], -i))
  }

  function IndexOf(k: Keyed): nat {
    if k.pos <= 0 then -k.pos else 0
  }

  /** `np.argsort(scores)[::-1]`: every class index once, by decreasing score.
      numpy's default argsort does not promise an order among equal scores;
      the model fixes the one a stable argsort reversed gives (higher index first). */
  function ScoreOrder(scores: seq<real>): (order: seq<nat>)
    ensures |order| == |scores|
    ensures forall k :: 0 <= k < |order| ==> order[k] < |scores|
    ensures forall i :: 0 <= i < |scores| ==> i in order
    ensures forall a, b :: 0 <= a < b < |order| ==> order[a] != order[b]
    ensures forall a, b :: 0 <= a < b < |order| ==> scores[order[a]] >= scores[order[b]]
    ensures forall a, b :: 0 <= a < b < |order| && scores[order[a]] == scores[order[b]] ==> order[a] > order[b]
  {
    var sorted := Sort(Ranked(scores));
    SortedIndices(scores, sorted);
    Indices(sorted)
  }

  function Indices(sorted: seq<Keyed>): (order: seq<nat>)
    ensures |order| == |sorted|
    ensures forall k :: 0 <= k < |sorted| ==> order[k] == IndexOf(sorted[k])
  {
    seq(|sorted|, k requires 0 <= k < |sorted| => IndexOf(sorted[k]))
  }

  /** Each sorted item is the `Ranked` item of the class index it carries. */
  lemma SortedEntries(scores: seq<real>, sorted: seq<Keyed>)
    requires multiset(sorted) == multiset(Ranked(scores))
    ensures |sorted| == |scores|
    ensures forall k :: 0 <= k < |sorted| ==>
      IndexOf(sorted[k]) < |scores| && sorted[k] == Ranked(scores)[IndexOf(sorted[k])]
  {
    var items := Ranked(scores);
    assert |sorted| == |items| by {
      assert |multiset(sorted)| == |sorted| && |multiset(items)| == |items|;
    }
    forall k | 0 <= k < |sorted|
      ensures IndexOf(sorted[k]) < |scores| && sorted[k] == items[IndexOf(sorted[k])]
    {
      assert sorted[k] in multiset(items);
      var i :| 0 <= i < |items| && items[i] == sorted[k];
    }
  }

  /** Every class index appears among the sorted items. */
  lemma SortedCovers(scores: seq<real>, sorted: seq<Keyed>)
    requires multiset(sorted) == multiset(Ranked(scores))
    ensures forall i :: 0 <= i < |scores| ==> i in Indices(sorted)
  {
    var items := Ranked(scores);
    var order := Indices(sorted);
    forall i | 0 <= i < |scores| ensures i in order {
      assert items[i] in multiset(sorted);
      var k :| 0 <= k < |sorted| && sorted[k] == items[i];
      assert order[k] == i;
    }
  }

  /** No class index appears twice among the sorted items. */
  lemma SortedDistinct(scores: seq<real>, sorted: seq<Keyed>)
    requires multiset(sorted) == multiset(Ranked(scores))
    ensures forall a, b :: 0 <= a < b < |sorted| ==> Indices(sorted)[a] != Indices(sorted)[b]
  {
    var items := Ranked(scores);
    SortedEntries(scores, sorted);
    assert forall a, b :: 0 <= a < b < |items| ==> items[a] != items[b];
    DistinctPreserved(items, sorted);
  }

  lemma SortedIndices(scores: seq<real>, sorted: seq<Keyed>)
    requires Sorted(sorted) && multiset(sorted) == multiset(Ranked(scores))
    ensures var order := Indices(sorted);
      && |order| == |scores|
      && (forall k :: 0 <= k < |order| ==> order[k] < |scores|)
      && (forall i :: 0 <= i < |scores| ==> i in order)
      && (forall a, b :: 0 <= a < b < |order| ==> order[a] != order[b])
      && (forall a, b :: 0 <= a < b < |order| ==> scores[order[a]] >= scores[order[b]])
      && (forall a, b :: 0 <= a < b < |order| && scores[order[a]] == scores[order[b]] ==> order[a] > order[b])
  {
    var order := Indices(sorted);
    SortedEntries(scores, sorted);
    SortedCovers(scores, sorted);
    SortedDistinct(scores, sorted);
    forall a, b | 0 <= a < b < |order| ensures scores[order[a]] >= scores[order[b]]
      && (scores[order[a]] == scores[order[b]] ==> order[a] > order[b])
    {
      assert Precedes(sorted[a], sorted[b]);
    }
  }

  /** The dict comprehension over the chosen indices, in their order. A new
      class name goes to the end; a repeated one keeps its place and gets the
      later score. A passing index outside `names` raises IndexError. */
  function Collect(order: seq<nat>, scores: seq<real>, names: seq<string>, acc: Dict<string, real>)
    : (r: Result<Dict<string, real>>)
    requires forall k :: 0 <= k < |order| ==> order[k] < |scores|
  {
    if order == [] then Ok(acc)
    else
      var i := order[0];
      if scores[i] > Threshold then
        if i < |names| then Collect(order[1..], scores, names, Put(acc, names[i], scores[i]))
        else Err("list index out of range")
      else Collect(order[1..], scores, names, acc)
  }

  /** `np.argsort(scores)[::-1][:20]`: the first twenty classes of the score
      order (all of them when there are fewer), and no class left out scores
      higher than a chosen one. */
  function TopIndices(scores: seq<real>): (top: seq<nat>)
    ensures |top| == if |scores| <= TopCount then |scores| else TopCount
    ensures top == ScoreOrder(scores)[..|top|]
    ensures forall k :: 0 <= k < |top| ==> top[k] < |scores|
    ensures forall k, i :: 0 <= k < |top| && 0 <= i < |scores| && i !in top ==> scores[i] <= scores[top[k]]
  {
    var order := ScoreOrder(scores);
    var top := if |order| <= TopCount then order else order[..TopCount];
    forall k, i | 0 <= k < |top| && 0 <= i < |scores| && i !in top
      ensures scores[i] <= scores[top[k]]
    {
      LeftOutBelow(scores, order, top, k, i);
    }
    top
  }

  lemma LeftOutBelow(scores: seq<real>, order: seq<nat>, top: seq<nat>, k: nat, i: nat)
    requires order == ScoreOrder(scores) && |top| <= |order| && top == order[..|top|]
    requires k < |top| && i < |scores| && i !in top
    ensures scores[i] <= scores[top[k]]
  {
    assert i in order;
    var p :| 0 <= p < |order| && order[p] == i;
    assert forall m :: 0 <= m < |top| ==> top[m] == order[m];
    assert k < p;
  }

  /** The `instruments` dict. */
  function SelectInstruments(scores: seq<real>, names: seq<string>): Result<Dict<string, real>> {
    Collect(TopIndices(scores), scores, names, Empty())
  }

  /** `list(instruments.values())[0] if instruments else 0.0`. */
  function TopInstrumentScore(d: Dict<string, real>): real {
    if d.keys == [] then 0.0 else d.entries[d.keys[0]]
  }

  predicate IsMax(scores: seq<real>, m: real) {
    (exists i :: 0 <= i < |scores| && scores[i] == m) && forall i :: 0 <= i < |scores| ==> scores[i] <= m
  }

  predicate DistinctNames(names: seq<string>) {
    forall i, j :: 0 <= i < j < |names| ==> names[i] != names[j]
  }

  // ---------------------------------------------------------------- properties

  /** The dict has at most 20 entries, and every score in it is above 0.15. */
  lemma SelectionBounds(scores: seq<real>, names: seq<string>)
    requires SelectInstruments(scores, names).Ok?
    ensures |SelectInstruments(scores, names).value.keys| <= TopCount
    ensures forall k :: k in SelectInstruments(scores, names).value.entries ==>
      SelectInstruments(scores, names).value.entries[k] > Threshold
  {
    CollectBounds(TopIndices(scores), scores, names, Empty());
  }

  lemma {:induction false} CollectBounds(order: seq<nat>, scores: seq<real>, names: seq<string>, acc: Dict<string, real>)
    requires forall k :: 0 <= k < |order| ==> order[k] < |scores|
    requires forall k :: k in acc.entries ==> acc.entries[k] > Threshold
    requires Collect(order, scores, names, acc).Ok?
    ensures |Collect(order, scores, names, acc).value.keys| <= |acc.keys| + |order|
    ensures forall k :: k in Collect(order, scores, names, acc).value.entries ==>
      Collect(order, scores, names, acc).value.entries[k] > Threshold
  {
    if order != [] {
      var i := order[0];
      if scores[i] > Threshold {
        CollectBounds(order[1..], scores, names, Put(acc, names[i], scores[i]));
      } else {
        CollectBounds(order[1..], scores, names, acc);
      }
    }
  }

  /** With at least as many class names as scores the lookup never fails. */
  lemma SelectionDefined(scores: seq<real>, names: seq<string>)
    requires |names| >= |scores|
    ensures SelectInstruments(scores, names).Ok?
  {
    CollectDefined(TopIndices(scores), scores, names, Empty());
  }

  lemma {:induction false} CollectDefined(order: seq<nat>, scores: seq<real>, names: seq<string>, acc: Dict<string, real>)
    requires forall k :: 0 <= k < |order| ==> order[k] < |scores|
    requires |names| >= |scores|
    ensures Collect(order, scores, names, acc).Ok?
  {
    if order != [] {
      var i := order[0];
      if scores[i] > Threshold {
        CollectDefined(order[1..], scores, names, Put(acc, names[i], scores[i]));
      } else {
        CollectDefined(order[1..], scores, names, acc);
      }
    }
  }

  /** With distinct class names the top instrument score is the largest mean
      class score when that exceeds 0.15, and 0.0 otherwise. */
  lemma TopScoreIsMax(scores: seq<real>, names: seq<string>)
    requires DistinctNames(names)
    requires SelectInstruments(scores, names).Ok?
    ensures var top := TopInstrumentScore(SelectInstruments(scores, names).value);
      && ((exists i :: 0 <= i < |scores| && scores[i] > Threshold) ==> IsMax(scores, top) && top > Threshold)
      && ((forall i :: 0 <= i < |scores| ==> scores[i] <= Threshold) ==> top == 0.0)
  {
    var order := ScoreOrder(scores);
    var top := TopIndices(scores);
    var d := SelectInstruments(scores, names).value;
    if scores == [] {
      assert top == [];
    } else {
      var i0 := order[0];
      assert top[0] == i0;
      forall i | 0 <= i < |scores| ensures scores[i] <= scores[i0] {
        MaxFirst(scores, order, i);
      }
      if scores[i0] > Threshold {
        assert i0 < |names|;
        var acc := Put(Empty(), names[i0], scores[i0]);
        assert acc.keys == [names[i0]];
        forall k | 0 <= k < |top[1..]| ensures top[1..][k] < |scores| && top[1..][k] != i0 {
          assert top[1..][k] == order[k + 1];
        }
        CollectKeepsFirst(top[1..], scores, names, acc, i0);
        assert IsMax(scores, scores[i0]);
      } else {
        forall k | 0 <= k < |top| ensures scores[top[k]] <= Threshold {
          assert top[k] == order[k];
          assert k == 0 || scores[order[0]] >= scores[order[k]];
        }
        CollectNothingPasses(top, scores, names, Empty());
      }
    }
  }

  lemma MaxFirst(scores: seq<real>, order: seq<nat>, i: nat)
    requires order == ScoreOrder(scores) && i < |scores|
    ensures scores[i] <= scores[order[0]]
  {
    assert i in order;
    var k :| 0 <= k < |order| && order[k] == i;
    assert k == 0 || scores[order[0]] >= scores[order[k]];
  }

  lemma {:induction false} CollectKeepsFirst(order: seq<nat>, scores: seq<real>, names: seq<string>,
                                             acc: Dict<string, real>, i0: nat)
    requires forall k :: 0 <= k < |order| ==> order[k] < |scores| && order[k] != i0
    requires DistinctNames(names) && i0 < |names| && i0 < |scores|
    requires acc.keys != [] && acc.keys[0] == names[i0] && acc.entries[names[i0]] == scores[i0]
    requires Collect(order, scores, names, acc).Ok?
    ensures TopInstrumentScore(Collect(order, scores, names, acc).value) == scores[i0]
  {
    if order != [] {
      var i := order[0];
      if scores[i] > Threshold {
        var acc' := Put(acc, names[i], scores[i]);
        assert names[i] != names[i0];
        CollectKeepsFirst(order[1..], scores, names, acc', i0);
      } else {
        CollectKeepsFirst(order[1..], scores, names, acc, i0);
      }
    }
  }

  lemma {:induction false} CollectNothingPasses(order: seq<nat>, scores: seq<real>, names: seq<string>, acc: Dict<string, real>)
    requires forall k :: 0 <= k < |order| ==> order[k] < |scores| && scores[order[k]] <= Threshold
    ensures Collect(order, scores, names, acc) == Ok(acc)
  {
    if order != [] {
      CollectNothingPasses(order[1..], scores, names, acc);
    }
  }
}
