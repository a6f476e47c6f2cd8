/** The engine's view of the clustered catalogue: the centroid table, the
    index from cluster label to song ids, and nearest-centroid assignment. */
module ClusterIndex {
  import opened Wrappers
  import opened Dicts
  import opened Json
  import opened FeatureLayout
  import opened Distance
  import opened Numbers

  // ---------------------------------------------------------------- centroids

  /** One entry of `{int(k): np.array(v) for k, v in centroids.items()}`. */
  function CentroidItem(centroids: Record, k: string): (r: Result<(int, Vec)>)
    ensures r.Ok? <==> ParseInt(k).Ok? && k in centroids.entries && ToVector(centroids.entries[k]).Ok?
    ensures r.Ok? ==> r.value == (ParseInt(k).value, ToVector(centroids.entries[k]).value)
  {
    var lbl :- ParseInt(k);
    var v :- if k in centroids.entries then ToVector(centroids.entries[k]) else Err("KeyError");
    Ok((lbl, v))
  }

  function CentroidItems(centroids: Record): string -> Result<(int, Vec)> {
    k => CentroidItem(centroids, k)
  }

  predicate CentroidsShaped(clusters: Value) {
    clusters.Object? && "centroids" in clusters.fields.entries && clusters.fields.entries["centroids"].Object?
  }

  function CentroidFields(clusters: Value): Record
    requires CentroidsShaped(clusters)
  {
    clusters.fields.entries["centroids"].fields
  }

  /** `clusters_data["centroids"]` as a table from integer label to centroid,
      in the file's key order. */
  function CentroidTable(clusters: Value): (r: Result<Dict<int, Vec>>)
    ensures !CentroidsShaped(clusters) ==> r.Err?
  {
    if !clusters.Object? then Err("TypeError: clusters file is not an object")
    else if "centroids" !in clusters.fields.entries then Err("KeyError: 'centroids'")
    else
      var c := clusters.fields.entries["centroids"];
      if !c.Object? then Err("AttributeError: 'centroids' has no attribute 'items'")
      else Comprehension(c.fields.keys, CentroidItems(c.fields))
  }

  lemma KeysListed<V>(d: Dict<string, V>)
    ensures forall i :: 0 <= i < |d.keys| ==> d.keys[i] in d.entries
  {
    forall i | 0 <= i < |d.keys| ensures d.keys[i] in d.entries {
      assert d.keys[i] in (set k | k in d.keys);
    }
  }

  /** The table loads exactly when every key is a decimal integer and every
      value a vector. */
  lemma CentroidTableDefined(clusters: Value)
    requires CentroidsShaped(clusters)
    ensures var c := CentroidFields(clusters);
      CentroidTable(clusters).Ok? <==>
        forall i :: 0 <= i < |c.keys| ==> ParseInt(c.keys[i]).Ok? && ToVector(c.entries[c.keys[i]]).Ok?
  {
    var c := CentroidFields(clusters);
    KeysListed(c);
    ComprehensionDefined(c.keys, CentroidItems(c), Empty());
    assert forall i :: 0 <= i < |c.keys| ==> CentroidItems(c)(c.keys[i]) == CentroidItem(c, c.keys[i]);
  }

  /** Each label holds the vector of the last key that denotes it. */
  lemma CentroidTableEntry(clusters: Value, i: nat)
    requires CentroidsShaped(clusters) && CentroidTable(clusters).Ok?
    requires var c := CentroidFields(clusters);
      i < |c.keys| && forall j :: i < j < |c.keys| ==> ParseInt(c.keys[j]) != ParseInt(c.keys[i])
    ensures var c := CentroidFields(clusters);
      && ParseInt(c.keys[i]).Ok? && ToVector(c.entries[c.keys[i]]).Ok?
      && ParseInt(c.keys[i]).value in CentroidTable(clusters).value.entries
      && CentroidTable(clusters).value.entries[ParseInt(c.keys[i]).value] == ToVector(c.entries[c.keys[i]]).value
  {
    var c := CentroidFields(clusters);
    var item := CentroidItems(c);
    KeysListed(c);
    ComprehensionDefined(c.keys, item, Empty());
    assert item(c.keys[i]) == CentroidItem(c, c.keys[i]);
    forall j | i < j < |c.keys| && item(c.keys[j]).Ok? ensures item(c.keys[j]).value.0 != item(c.keys[i]).value.0 {
      assert item(c.keys[j]) == CentroidItem(c, c.keys[j]);
    }
    ComprehensionLast(c.keys, item, Empty(), i);
  }

  /** With distinct labels the table lists one label per key, in key order. */
  lemma CentroidTableOrder(clusters: Value)
    requires CentroidsShaped(clusters) && CentroidTable(clusters).Ok?
    requires var c := CentroidFields(clusters);
      forall i, j :: 0 <= i < j < |c.keys| ==> ParseInt(c.keys[i]) != ParseInt(c.keys[j])
    ensures var c := CentroidFields(clusters);
      && |CentroidTable(clusters).value.keys| == |c.keys|
      && forall i :: 0 <= i < |c.keys| ==>
           ParseInt(c.keys[i]).Ok? && CentroidTable(clusters).value.keys[i] == ParseInt(c.keys[i]).value
  {
    CentroidTableDefined(clusters);
    var c := CentroidFields(clusters);
    var item := CentroidItems(c);
    CentroidLabels(c);
    var ks := ItemKeys(c.keys, item);
    forall i, j | 0 <= i < j < |ks| ensures ks[i] != ks[j] {
      assert ParseInt(c.keys[i]) != ParseInt(c.keys[j]);
    }
    ComprehensionKeys(c.keys, item, Empty());
  }

  /** When every item loads, the label of item `i` is its parsed key. */
  lemma CentroidLabels(c: Record)
    requires forall i :: 0 <= i < |c.keys| ==> ParseInt(c.keys[i]).Ok? && ToVector(c.entries[c.keys[i]]).Ok?
    ensures forall i :: 0 <= i < |c.keys| ==> CentroidItems(c)(c.keys[i]).Ok?
    ensures forall i :: 0 <= i < |c.keys| ==> ItemKeys(c.keys, CentroidItems(c))[i] == ParseInt(c.keys[i]).value
  {
    KeysListed(c);
    assert forall j :: 0 <= j < |c.keys| ==> CentroidItems(c)(c.keys[j]) == CentroidItem(c, c.keys[j]);
  }

  // ---------------------------------------------------------------- cluster index

  /** A catalogue entry whose `data["cluster"]` can be read and used as a key. */
  predicate HasCluster(data: Value) {
    data.Object? && "cluster" in data.fields.entries && Hashable(data.fields.entries["cluster"])
  }

  /** The `cluster` value of an id's entry, if it can be read. */
  function RawCluster(catalogue: Record, id: string): Option<Value> {
    if id in catalogue.entries && HasCluster(catalogue.entries[id]) then
      Some(catalogue.entries[id].fields.entries["cluster"])
    else None
  }

  /** The key an id's entry is filed under, if its cluster can be read:
      `2`, `2.0` and `True`-as-`1` are one key, as in a Python dict. */
  function ClusterOfId(catalogue: Record, id: string): Option<Value> {
    match RawCluster(catalogue, id)
    case Some(v) => Some(KeyOf(v))
    case None => None
  }

  /** An entry is filed under the key of `c` exactly when its `cluster`
      is `==` to `c`. */
  lemma FiledUnder(catalogue: Record, id: string, c: Value)
    requires Hashable(c) && KeyOf(c) == c
    ensures ClusterOfId(catalogue, id) == Some(c) <==>
      RawCluster(catalogue, id).Some? && PyEqual(RawCluster(catalogue, id).value, c)
  {
    if RawCluster(catalogue, id).Some? {
      KeyOfEqual(RawCluster(catalogue, id).value, c);
    }
  }

  predicate AllClustered(catalogue: Record, ids: seq<string>) {
    forall i :: 0 <= i < |ids| ==> ClusterOfId(catalogue, ids[i]).Some?
  }

  /** The ids of `ids` whose entry is in cluster `c`, in their order. */
  function Members(catalogue: Record, ids: seq<string>, c: Value): seq<string> {
    if ids == [] then []
    else
      var last := ids[|ids| - 1];
      Members(catalogue, ids[..|ids| - 1], c) + (if ClusterOfId(catalogue, last) == Some(c) then [last] else [])
  }

  /** An id is in a cluster's member list exactly when it is in the listing
      and its entry names that cluster. */
  lemma {:induction false} MembersSpec(catalogue: Record, ids: seq<string>, c: Value, x: string)
    ensures x in Members(catalogue, ids, c) <==> x in ids && ClusterOfId(catalogue, x) == Some(c)
  {
    if ids != [] {
      var front := ids[..|ids| - 1];
      MembersSpec(catalogue, front, c, x);
      assert ids == front + [ids[|ids| - 1]];
    }
  }

  /** `cluster_to_song_ids` as built from the catalogue: every cluster that
      occurs maps to its members, in catalogue order, and no list is empty. */
  predicate IsClusterIndex(catalogue: Record, index: Dict<Value, seq<string>>) {
    && (forall c :: c in index.entries ==> index.entries[c] == Members(catalogue, catalogue.keys, c) && index.entries[c] != [])
    && (forall i :: 0 <= i < |catalogue.keys| && ClusterOfId(catalogue, catalogue.keys[i]).Some? ==>
          ClusterOfId(catalogue, catalogue.keys[i]).value in index.entries)
  }

  /** The module-level loop `cluster_to_song_ids.setdefault(data["cluster"], []).append(song_id)`.
      An entry that is not an object, has no `cluster`, or has an unhashable
      one aborts loading. */
  method BuildClusterIndex(catalogue: Record) returns (r: Result<Dict<Value, seq<string>>>)
    ensures r.Ok? <==> AllClustered(catalogue, catalogue.keys)
    ensures r.Ok? ==> IsClusterIndex(catalogue, r.value)
  {
    var ids := catalogue.keys;
    var index: Dict<Value, seq<string>> := Empty();
    for i := 0 to |ids|
      invariant AllClustered(catalogue, ids[..i])
      invariant forall c :: Get(index, c, []) == Members(catalogue, ids[..i], c)
      invariant forall c :: c in index.entries ==> index.entries[c] != []
      invariant forall j :: 0 <= j < i ==> ClusterOfId(catalogue, ids[j]).Some? && ClusterOfId(catalogue, ids[j]).value in index.entries
    {
      assert ids[i] in catalogue.entries by {
        assert ids[i] in (set k | k in ids);
      }
      var data := catalogue.entries[ids[i]];
      if !HasCluster(data) {
        assert ClusterOfId(catalogue, ids[i]).None?;
        return Err("KeyError: 'cluster'");
      }
      var c := KeyOf(data.fields.entries["cluster"]);
      ghost var before := index;
      index := Put(index, c, Get(index, c, []) + [ids[i]]);
      IndexStep(catalogue, ids, i, before, index);
    }
    assert ids[..|ids|] == ids;
    r := Ok(index);
  }

  /** One turn of the loop keeps its invariant. */
  lemma IndexStep(catalogue: Record, ids: seq<string>, i: nat,
                  index: Dict<Value, seq<string>>, index': Dict<Value, seq<string>>)
    requires i < |ids| && AllClustered(catalogue, ids[..i])
    requires ClusterOfId(catalogue, ids[i]).Some?
    requires forall c :: Get(index, c, []) == Members(catalogue, ids[..i], c)
    requires forall c :: c in index.entries ==> index.entries[c] != []
    requires forall j :: 0 <= j < i ==> ClusterOfId(catalogue, ids[j]).Some? && ClusterOfId(catalogue, ids[j]).value in index.entries
    requires var c := ClusterOfId(catalogue, ids[i]).value;
      index' == Put(index, c, Get(index, c, []) + [ids[i]])
    ensures AllClustered(catalogue, ids[..i + 1])
    ensures forall c :: Get(index', c, []) == Members(catalogue, ids[..i + 1], c)
    ensures forall c :: c in index'.entries ==> index'.entries[c] != []
    ensures forall j :: 0 <= j < i + 1 ==> ClusterOfId(catalogue, ids[j]).Some? && ClusterOfId(catalogue, ids[j]).value in index'.entries
  {
    IndexStepMembers(catalogue, ids, i, index, index');
  }

  /** The list of the entry's cluster gets the id at its end; the others stay. */
  lemma IndexStepMembers(catalogue: Record, ids: seq<string>, i: nat,
                         index: Dict<Value, seq<string>>, index': Dict<Value, seq<string>>)
    requires i < |ids| && ClusterOfId(catalogue, ids[i]).Some?
    requires forall c :: Get(index, c, []) == Members(catalogue, ids[..i], c)
    requires var c := ClusterOfId(catalogue, ids[i]).value;
      index' == Put(index, c, Get(index, c, []) + [ids[i]])
    ensures forall c :: Get(index', c, []) == Members(catalogue, ids[..i + 1], c)
  {
    var c0 := ClusterOfId(catalogue, ids[i]).value;
    var pre := ids[..i + 1];
    assert pre[..i] == ids[..i] && pre[i] == ids[i];
    forall c ensures Get(index', c, []) == Members(catalogue, pre, c) {
      assert Members(catalogue, pre, c) == Members(catalogue, ids[..i], c) + (if c0 == c then [ids[i]] else []);
    }
  }

  /** Every catalogue id is in exactly one list: the one of its own cluster. */
  lemma ExactlyOneList(catalogue: Record, index: Dict<Value, seq<string>>, i: nat, c: Value)
    requires IsClusterIndex(catalogue, index)
    requires i < |catalogue.keys| && c in index.entries
    ensures catalogue.keys[i] in index.entries[c] <==> ClusterOfId(catalogue, catalogue.keys[i]) == Some(c)
  {
    MembersSpec(catalogue, catalogue.keys, c, catalogue.keys[i]);
  }

  // ---------------------------------------------------------------- assignment

  function CentroidAt(cs: Dict<int, Vec>, j: nat): Vec
    requires j < |cs.keys|
  {
    assert cs.keys[j] in (set k | k in cs.keys);
    cs.entries[cs.keys[j]]
  }

  predicate AllBroadcastable(vec: Vec, cs: Dict<int, Vec>) {
    forall j :: 0 <= j < |cs.keys| ==> Broadcastable(vec, CentroidAt(cs, j))
  }

  function DistTo(vec: Vec, cs: Dict<int, Vec>, j: nat): real
    requires j < |cs.keys| && Broadcastable(vec, CentroidAt(cs, j))
  {
    SqDist(vec, CentroidAt(cs, j)).value
  }

  /** Centroid `w` is at minimal distance, and strictly closer than every
      centroid before it. */
  predicate NearestFirst(vec: Vec, cs: Dict<int, Vec>, w: nat)
    requires AllBroadcastable(vec, cs) && w < |cs.keys|
  {
    && (forall j :: 0 <= j < |cs.keys| ==> DistTo(vec, cs, w) <= DistTo(vec, cs, j))
    && (forall j :: 0 <= j < w ==> DistTo(vec, cs, j) > DistTo(vec, cs, w))
  }

  /** `c` is what `assign_cluster` may answer: -1 with no centroids, otherwise
      the label of a nearest centroid that no earlier centroid ties. */
  ghost predicate Assigned(vec: Vec, cs: Dict<int, Vec>, c: int) {
    && AllBroadcastable(vec, cs)
    && (cs.keys == [] ==> c == -1)
    && (cs.keys != [] ==> exists w :: 0 <= w < |cs.keys| && cs.keys[w] == c && NearestFirst(vec, cs, w))
  }

  /** There is only one such answer: the first nearest centroid is unique. */
  lemma AssignedUnique(vec: Vec, cs: Dict<int, Vec>, c1: int, c2: int)
    requires Assigned(vec, cs, c1) && Assigned(vec, cs, c2)
    ensures c1 == c2
  {
    if cs.keys != [] {
      var w1 :| 0 <= w1 < |cs.keys| && cs.keys[w1] == c1 && NearestFirst(vec, cs, w1);
      var w2 :| 0 <= w2 < |cs.keys| && cs.keys[w2] == c2 && NearestFirst(vec, cs, w2);
      assert !(w1 < w2) && !(w2 < w1);
    }
  }

  /** `assign_cluster`: the label of the nearest centroid, the first one on a
      tie because the comparison is strict; -1 with no centroids. A centroid
      whose length cannot be broadcast against the vector raises. */
  method AssignCluster(vec: Vec, cs: Dict<int, Vec>) returns (r: Result<int>)
    ensures r.Ok? <==> AllBroadcastable(vec, cs)
    ensures r.Ok? ==> Assigned(vec, cs, r.value)
  {
    var minDist: Option<real> := None;   // float("inf")
    var chosen := -1;
    ghost var w := 0;
    for i := 0 to |cs.keys|
      invariant forall j :: 0 <= j < i ==> Broadcastable(vec, CentroidAt(cs, j))
      invariant i == 0 ==> minDist.None? && chosen == -1
      invariant i > 0 ==> minDist.Some? && w < i && chosen == cs.keys[w] && minDist.value == DistTo(vec, cs, w)
      invariant i > 0 ==> forall j :: 0 <= j < i ==> DistTo(vec, cs, w) <= DistTo(vec, cs, j)
      invariant i > 0 ==> forall j :: 0 <= j < w ==> DistTo(vec, cs, j) > DistTo(vec, cs, w)
    {
      var d := SqDist(vec, CentroidAt(cs, i));
      if d.Err? {
        return Err("ValueError: operands could not be broadcast together");
      }
      if minDist.None? || d.value < minDist.value {
        minDist := Some(d.value);
        chosen := cs.keys[i];
        w := i;
      }
    }
    r := Ok(chosen);
  }
}
