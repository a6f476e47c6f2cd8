/** Python dictionaries: a finite map together with the sequence of its keys in
    insertion order, which is the order in which Python iterates over them. */
module Dicts {
  import opened Wrappers

  datatype OrderedMap<K(==), V> = OrderedMap(keys: seq<K>, entries: map<K, V>)

  /** The keys are listed once each, and exactly the keys of the map are listed. */
  predicate Coherent<K(==), V>(m: OrderedMap<K, V>) {
    && (forall i, j :: 0 <= i < j < |m.keys| ==> m.keys[i] != m.keys[j])
    && m.entries.Keys == set k | k in m.keys
  }

  type Dict<K(==), V> = m: OrderedMap<K, V> | Coherent(m) witness OrderedMap([], map[])

  function Empty<K(==), V>(): (d: Dict<K, V>)
    ensures d.keys == [] && d.entries == map[]
  {
    OrderedMap([], map[])
  }

  /** `d[k] = v`: a new key goes to the end, an existing key keeps its place. */
  function Put<K(==), V>(d: Dict<K, V>, k: K, v: V): (r: Dict<K, V>)
    ensures r.entries == d.entries[k := v]
    ensures k in d.entries ==> r.keys == d.keys
    ensures k !in d.entries ==> r.keys == d.keys + [k]
  {
    if k in d.entries then OrderedMap(d.keys, d.entries[k := v])
    else OrderedMap(d.keys + [k], d.entries[k := v])
  }

  /** `d.get(k, default)`. */
  function Get<K(==), V>(d: Dict<K, V>, k: K, default: V): V {
    if k in d.entries then d.entries[k] else default
  }

  /** `list(d.values())`. */
  function Values<K(==), V>(d: Dict<K, V>): (vs: seq<V>)
    ensures |vs| == |d.keys|
    ensures forall i :: 0 <= i < |d.keys| ==> d.keys[i] in d.entries && vs[i] == d.entries[d.keys[i]]
  {
    seq(|d.keys|, i requires 0 <= i < |d.keys| => d.entries[d.keys[i]])
  }

  /** A new key's value comes last among the values. */
  lemma ValuesPut<K, V>(d: Dict<K, V>, k: K, v: V)
    requires k !in d.entries
    ensures Values(Put(d, k, v)) == Values(d) + [v]
  {
  }

  /** `{key: value for x in xs}` where computing an item's key and value may
      raise: the first failure aborts the whole comprehension. */
  function Comprehension<A, K(==), V>(xs: seq<A>, item: A -> Result<(K, V)>): Result<Dict<K, V>> {
    ComprehensionFrom(xs, item, Empty())
  }

  function ComprehensionFrom<A, K(==), V>(xs: seq<A>, item: A -> Result<(K, V)>, acc: Dict<K, V>)
    : Result<Dict<K, V>>
    decreases |xs|
  {
    if xs == [] then Ok(acc)
    else
      var kv :- item(xs[0]);
      ComprehensionFrom(xs[1..], item, Put(acc, kv.0, kv.1))
  }

  /** The comprehension succeeds exactly when every item does. */
  lemma {:induction false} ComprehensionDefined<A, K, V>(xs: seq<A>, item: A -> Result<(K, V)>, acc: Dict<K, V>)
    ensures ComprehensionFrom(xs, item, acc).Ok? <==> forall i :: 0 <= i < |xs| ==> item(xs[i]).Ok?
    decreases |xs|
  {
    if xs != [] {
      if item(xs[0]).Ok? {
        var kv := item(xs[0]).value;
        ComprehensionDefined(xs[1..], item, Put(acc, kv.0, kv.1));
        assert forall i :: 1 <= i < |xs| ==> xs[i] == xs[1..][i - 1];
      }
    }
  }

  /** The value stored under an item's key is that item's value when no
      later item has the same key. */
  lemma {:induction false} ComprehensionLast<A, K, V>(xs: seq<A>, item: A -> Result<(K, V)>, acc: Dict<K, V>, i: nat)
    requires ComprehensionFrom(xs, item, acc).Ok?
    requires i < |xs| && item(xs[i]).Ok?
    requires forall j :: i < j < |xs| && item(xs[j]).Ok? ==> item(xs[j]).value.0 != item(xs[i]).value.0
    ensures item(xs[i]).value.0 in ComprehensionFrom(xs, item, acc).value.entries
    ensures ComprehensionFrom(xs, item, acc).value.entries[item(xs[i]).value.0] == item(xs[i]).value.1
    decreases |xs|
  {
    var kv := item(xs[0]).value;
    var acc' := Put(acc, kv.0, kv.1);
    assert ComprehensionFrom(xs, item, acc) == ComprehensionFrom(xs[1..], item, acc');
    if i == 0 {
      forall j | 0 <= j < |xs[1..]| && item(xs[1..][j]).Ok? ensures item(xs[1..][j]).value.0 != kv.0 {
        assert xs[1..][j] == xs[j + 1];
      }
      KeyUntouched(xs[1..], item, acc', kv.0);
    } else {
      assert xs[1..][i - 1] == xs[i];
      forall j | i - 1 < j < |xs[1..]| && item(xs[1..][j]).Ok? ensures item(xs[1..][j]).value.0 != item(xs[i]).value.0 {
        assert xs[1..][j] == xs[j + 1];
      }
      ComprehensionLast(xs[1..], item, acc', i - 1);
    }
  }

  /** Every key of the result was a starting key or some item's key. */
  lemma {:induction false} ComprehensionOnly<A, K, V>(xs: seq<A>, item: A -> Result<(K, V)>, acc: Dict<K, V>, k: K)
    requires ComprehensionFrom(xs, item, acc).Ok?
    requires k in ComprehensionFrom(xs, item, acc).value.entries
    ensures k in acc.entries || exists i :: 0 <= i < |xs| && item(xs[i]).Ok? && item(xs[i]).value.0 == k
    decreases |xs|
  {
    if xs != [] {
      var kv := item(xs[0]).value;
      var acc' := Put(acc, kv.0, kv.1);
      assert ComprehensionFrom(xs, item, acc) == ComprehensionFrom(xs[1..], item, acc');
      ComprehensionOnly(xs[1..], item, acc', k);
      if k !in acc'.entries {
        var i :| 0 <= i < |xs[1..]| && item(xs[1..][i]).Ok? && item(xs[1..][i]).value.0 == k;
        assert xs[1..][i] == xs[i + 1];
      } else if k !in acc.entries {
        assert item(xs[0]).value.0 == k;
      }
    }
  }

  /** A key no later item produces keeps its value. */
  lemma {:induction false} KeyUntouched<A, K, V>(xs: seq<A>, item: A -> Result<(K, V)>, acc: Dict<K, V>, k: K)
    requires ComprehensionFrom(xs, item, acc).Ok?
    requires k in acc.entries
    requires forall j :: 0 <= j < |xs| ==> item(xs[j]).Ok? ==> item(xs[j]).value.0 != k
    ensures k in ComprehensionFrom(xs, item, acc).value.entries
    ensures ComprehensionFrom(xs, item, acc).value.entries[k] == acc.entries[k]
    decreases |xs|
  {
    if xs != [] {
      var kv := item(xs[0]).value;
      assert forall j :: 1 <= j < |xs| ==> xs[j] == xs[1..][j - 1];
      KeyUntouched(xs[1..], item, Put(acc, kv.0, kv.1), k);
    }
  }

  /** The items' keys, in item order. */
  function ItemKeys<A, K, V>(xs: seq<A>, item: A -> Result<(K, V)>): (ks: seq<K>)
    requires forall i :: 0 <= i < |xs| ==> item(xs[i]).Ok?
    ensures |ks| == |xs| && forall i :: 0 <= i < |xs| ==> ks[i] == item(xs[i]).value.0
  {
    if xs == [] then []
    else
      assert forall i :: 1 <= i < |xs| ==> xs[i] == xs[1..][i - 1];
      [item(xs[0]).value.0] + ItemKeys(xs[1..], item)
  }

  ghost predicate Distinct<K>(ks: seq<K>) {
    forall i, j :: 0 <= i < j < |ks| ==> ks[i] != ks[j]
  }

  /** With pairwise distinct keys the result lists them in item order. */
  lemma {:induction false} ComprehensionKeys<A, K, V>(xs: seq<A>, item: A -> Result<(K, V)>, acc: Dict<K, V>)
    requires forall i :: 0 <= i < |xs| ==> item(xs[i]).Ok?
    requires Distinct(ItemKeys(xs, item))
    requires forall k :: k in ItemKeys(xs, item) ==> k !in acc.entries
    ensures ComprehensionFrom(xs, item, acc).Ok?
    ensures ComprehensionFrom(xs, item, acc).value.keys == acc.keys + ItemKeys(xs, item)
    decreases |xs|
  {
    if xs != [] {
      var ks := ItemKeys(xs, item);
      var kv := item(xs[0]).value;
      var acc' := Put(acc, kv.0, kv.1);
      assert ks == [kv.0] + ItemKeys(xs[1..], item);
      assert ComprehensionFrom(xs, item, acc) == ComprehensionFrom(xs[1..], item, acc');
      assert forall i :: 0 <= i < |xs[1..]| ==> item(xs[1..][i]).Ok? by {
        forall i | 0 <= i < |xs[1..]| ensures item(xs[1..][i]).Ok? {
          assert xs[1..][i] == xs[i + 1];
        }
      }
      assert Distinct(ks[1..]);
      assert forall k :: k in ks[1..] ==> k !in acc'.entries by {
        forall k | k in ks[1..] ensures k !in acc'.entries {
          var j :| 0 <= j < |ks[1..]| && ks[1..][j] == k;
          assert ks[j + 1] != ks[0];
        }
      }
      ComprehensionKeys(xs[1..], item, acc');
      assert kv.0 == ks[0] && kv.0 !in acc.entries;
      assert acc'.keys == acc.keys + [kv.0];
      var d := ComprehensionFrom(xs[1..], item, acc').value;
      calc {
        d.keys;
        acc'.keys + ItemKeys(xs[1..], item);
        (acc.keys + [kv.0]) + ItemKeys(xs[1..], item);
        { ConcatAssoc(acc.keys, [kv.0], ItemKeys(xs[1..], item)); }
        acc.keys + ks;
      }
    }
  }

  lemma ConcatAssoc<T>(a: seq<T>, b: seq<T>, c: seq<T>)
    ensures (a + b) + c == a + (b + c)
  {
  }

  /** Two dicts with the same keys in the same order and the same value under
      every key are the same dict. */
  lemma SameDict<K, V>(a: Dict<K, V>, b: Dict<K, V>)
    requires a.keys == b.keys
    requires forall k :: k in a.entries ==> k in b.entries && a.entries[k] == b.entries[k]
    ensures a == b
  {
    assert a.entries.Keys == b.entries.Keys;
  }
}
