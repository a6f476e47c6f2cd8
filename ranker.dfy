/** The ranking step of a query: walk the candidate ids in order, keep those
    with metadata, skip a song whose truthy `perma_url` was already kept, and
    stop at ten. */
module Ranker {
  import opened Wrappers
  import opened Dicts
  import opened Json

  const MaxRecommendations: nat := 10

  // ---------------------------------------------------------------- metadata index

  /** One entry of `{v["song_id"]: v for v in metadata.values()}`: the entry
      must be an object whose `song_id` exists and can be a key. */
  function MetaItem(v: Value): (r: Result<(Value, Record)>)
    ensures r.Ok? <==> v.Object? && "song_id" in v.fields.entries && Hashable(v.fields.entries["song_id"])
    ensures r.Ok? ==> r.value == (v.fields.entries["song_id"], v.fields)
  {
    if !v.Object? then Err("TypeError: metadata entry is not an object")
    else if "song_id" !in v.fields.entries then Err("KeyError: 'song_id'")
    else if !Hashable(v.fields.entries["song_id"]) then Err("TypeError: unhashable type")
    else Ok((v.fields.entries["song_id"], v.fields))
  }

  /** `song_id_to_meta`, keyed by each record's own `song_id`. */
  function MetaIndex(metadata: Value): (r: Result<Dict<Value, Record>>)
    ensures !metadata.Object? ==> r.Err?
  {
    if !metadata.Object? then Err("AttributeError: metadata has no attribute 'values'")
    else Comprehension(Values(metadata.fields), MetaItem)
  }

  /** The index loads exactly when every record is an object with a usable
      `song_id`. */
  lemma MetaIndexDefined(metadata: Value)
    requires metadata.Object?
    ensures var vs := Values(metadata.fields);
      MetaIndex(metadata).Ok? <==> forall i :: 0 <= i < |vs| ==> MetaItem(vs[i]).Ok?
  {
    ComprehensionDefined(Values(metadata.fields), MetaItem, Empty());
  }

  /** A record is found under its own `song_id`, unless a later record claims
      the same id, in which case the later one wins. */
  lemma MetaIndexEntry(metadata: Value, i: nat)
    requires metadata.Object? && MetaIndex(metadata).Ok?
    requires var vs := Values(metadata.fields);
      i < |vs| && MetaItem(vs[i]).Ok? &&
      forall j :: i < j < |vs| && MetaItem(vs[j]).Ok? ==> MetaItem(vs[j]).value.0 != MetaItem(vs[i]).value.0
    ensures var vs := Values(metadata.fields);
      var sid := vs[i].fields.entries["song_id"];
      sid in MetaIndex(metadata).value.entries && MetaIndex(metadata).value.entries[sid] == vs[i].fields
  {
    ComprehensionLast(Values(metadata.fields), MetaItem, Empty(), i);
  }

  /** Every key of the index is the `song_id` of some record. */
  lemma MetaIndexOnly(metadata: Value, sid: Value)
    requires metadata.Object? && MetaIndex(metadata).Ok? && sid in MetaIndex(metadata).value.entries
    ensures var vs := Values(metadata.fields);
      exists i :: 0 <= i < |vs| && vs[i].Object? && "song_id" in vs[i].fields.entries && vs[i].fields.entries["song_id"] == sid
  {
    var vs := Values(metadata.fields);
    ComprehensionOnly(vs, MetaItem, Empty(), sid);
    var i :| 0 <= i < |vs| && MetaItem(vs[i]).Ok? && MetaItem(vs[i]).value.0 == sid;
  }

  // ---------------------------------------------------------------- recommendations

  datatype Recommendation = Recommendation(
    songId: string, title: Value, album: Value, year: Value, language: Value,
    duration: Value, permaUrl: Value, imageUrl: Value)

  /** The dict appended to `top_songs`: `title` is required, the other fields
      fall back to "" or 0, and a missing `perma_url` is None. */
  function MakeRecommendation(sid: string, meta: Record): (r: Result<Recommendation>)
    ensures r.Ok? <==> "title" in meta.entries
    ensures r.Ok? ==> r.value.songId == sid && r.value.title == meta.entries["title"]
    ensures r.Ok? ==> r.value.permaUrl == Get(meta, "perma_url", Null)
    ensures r.Ok? ==> (
      && r.value.album == Get(meta, "album", Str("")) && r.value.year == Get(meta, "year", Str(""))
      && r.value.language == Get(meta, "language", Str("")) && r.value.duration == Get(meta, "duration", Int(0))
      && r.value.imageUrl == Get(meta, "image_url", Str("")))
  {
    if "title" !in meta.entries then Err("'title'")
    else Ok(Recommendation(
      sid, meta.entries["title"],
      Get(meta, "album", Str("")), Get(meta, "year", Str("")), Get(meta, "language", Str("")),
      Get(meta, "duration", Int(0)), Get(meta, "perma_url", Null), Get(meta, "image_url", Str(""))))
  }

  predicate InMeta(meta: Dict<Value, Record>, sid: string) {
    Str(sid) in meta.entries
  }

  function UrlOf(meta: Dict<Value, Record>, sid: string): Value
    requires InMeta(meta, sid)
  {
    Get(meta.entries[Str(sid)], "perma_url", Null)
  }

  /** A candidate whose truthy url cannot be looked up in a set: `url in seen_urls` raises. */
  predicate UnhashableUrl(cands: seq<string>, meta: Dict<Value, Record>)
    requires cands != [] && InMeta(meta, cands[0])
  {
    Truthy(UrlOf(meta, cands[0])) && !Hashable(UrlOf(meta, cands[0]))
  }

  /** A song in front of the songs after it, the first error winning. */
  function Cons(rec: Result<Recommendation>, rest: Result<seq<Recommendation>>): (r: Result<seq<Recommendation>>)
    ensures r.Ok? <==> rec.Ok? && rest.Ok?
    ensures r.Ok? ==> r.value == [rec.value] + rest.value
  {
    if rec.Err? then Err(rec.error) else if rest.Err? then rest else Ok([rec.value] + rest.value)
  }

  /** The ranking loop as a recursive definition: `seen` is `seen_urls`, and
      `room` the number of places still free. */
  function RankFrom(cands: seq<string>, meta: Dict<Value, Record>, seen: set<Value>, room: nat)
    : Result<seq<Recommendation>>
    decreases |cands|
  {
    if room == 0 || cands == [] then Ok([])
    else if Skipped(cands, meta, seen) then RankFrom(cands[1..], meta, seen, room)
    else if UnhashableUrl(cands, meta) then Err("TypeError: unhashable type")
    else Cons(MakeRecommendation(cands[0], meta.entries[Str(cands[0])]),
              RankFrom(cands[1..], meta, SeenAfter(cands, meta, seen), room - 1))
  }

  function Prepend(top: seq<Recommendation>, r: Result<seq<Recommendation>>): Result<seq<Recommendation>> {
    if r.Ok? then Ok(top + r.value) else r
  }

  /** The loop over `candidate_song_ids` that fills `top_songs`. */
  method Rank(cands: seq<string>, meta: Dict<Value, Record>) returns (r: Result<seq<Recommendation>>)
    ensures r == RankFrom(cands, meta, {}, MaxRecommendations)
  {
    var top: seq<Recommendation> := [];
    var seen: set<Value> := {};
    assert cands[0..] == cands;
    ghost var whole := RankFrom(cands, meta, {}, MaxRecommendations);
    if whole.Ok? {
      assert [] + whole.value == whole.value;
    }
    for i := 0 to |cands|
      invariant |top| <= MaxRecommendations
      invariant RankFrom(cands, meta, {}, MaxRecommendations)
        == Prepend(top, RankFrom(cands[i..], meta, seen, MaxRecommendations - |top|))
    {
      if |top| >= MaxRecommendations {
        break;
      }
      var sid := cands[i];
      if Str(sid) in meta.entries {
        var songMeta := meta.entries[Str(sid)];
        var url := Get(songMeta, "perma_url", Null);
        if Truthy(url) && !Hashable(url) {
          RankFails(cands, meta, seen, MaxRecommendations - |top|, i);
          return Err("TypeError: unhashable type");
        }
        if Truthy(url) && url in seen {
          RankSkips(cands, meta, seen, MaxRecommendations - |top|, i);
          continue;
        }
        var rec := MakeRecommendation(sid, songMeta);
        if rec.Err? {
          RankTakes(cands, meta, seen, MaxRecommendations - |top|, i);
          return Err(rec.error);
        }
        RankTakeAt(cands, meta, seen, top, i);
        if Truthy(url) {
          seen := seen + {url};
        }
        top := top + [rec.value];
      } else {
        RankSkips(cands, meta, seen, MaxRecommendations - |top|, i);
      }
    }
    assert top + [] == top;
    r := Ok(top);
  }

  /** A candidate without metadata, or whose url was already seen, is passed over. */
  lemma RankSkips(cands: seq<string>, meta: Dict<Value, Record>, seen: set<Value>, room: nat, i: nat)
    requires i < |cands| && room > 0
    requires !InMeta(meta, cands[i]) ||
      (!(Truthy(UrlOf(meta, cands[i])) && !Hashable(UrlOf(meta, cands[i]))) &&
       Truthy(UrlOf(meta, cands[i])) && UrlOf(meta, cands[i]) in seen)
    ensures RankFrom(cands[i..], meta, seen, room) == RankFrom(cands[i + 1..], meta, seen, room)
  {
    assert cands[i..][0] == cands[i] && cands[i..][1..] == cands[i + 1..];
  }

  /** A candidate whose url cannot be put in a set stops the ranking. */
  lemma RankFails(cands: seq<string>, meta: Dict<Value, Record>, seen: set<Value>, room: nat, i: nat)
    requires i < |cands| && room > 0 && InMeta(meta, cands[i])
    requires Truthy(UrlOf(meta, cands[i])) && !Hashable(UrlOf(meta, cands[i]))
    ensures RankFrom(cands[i..], meta, seen, room) == Err("TypeError: unhashable type")
  {
    assert cands[i..][0] == cands[i];
  }

  /** Any other candidate with metadata takes the next place, or stops the
      ranking when it has no title. */
  lemma RankTakes(cands: seq<string>, meta: Dict<Value, Record>, seen: set<Value>, room: nat, i: nat)
    requires i < |cands| && room > 0 && InMeta(meta, cands[i])
    requires !(Truthy(UrlOf(meta, cands[i])) && !Hashable(UrlOf(meta, cands[i])))
    requires !(Truthy(UrlOf(meta, cands[i])) && UrlOf(meta, cands[i]) in seen)
    ensures var url := UrlOf(meta, cands[i]);
      var rec := MakeRecommendation(cands[i], meta.entries[Str(cands[i])]);
      RankFrom(cands[i..], meta, seen, room) ==
        if rec.Err? then Err(rec.error)
        else Prepend([rec.value], RankFrom(cands[i + 1..], meta, if Truthy(url) then seen + {url} else seen, room - 1))
  {
    assert cands[i..][0] == cands[i] && cands[i..][1..] == cands[i + 1..];
  }

  /** The loop invariant carried over a candidate that takes the next place. */
  lemma RankTakeAt(cands: seq<string>, meta: Dict<Value, Record>, seen: set<Value>, top: seq<Recommendation>, i: nat)
    requires i < |cands| && |top| < MaxRecommendations && InMeta(meta, cands[i])
    requires !(Truthy(UrlOf(meta, cands[i])) && !Hashable(UrlOf(meta, cands[i])))
    requires !(Truthy(UrlOf(meta, cands[i])) && UrlOf(meta, cands[i]) in seen)
    requires MakeRecommendation(cands[i], meta.entries[Str(cands[i])]).Ok?
    ensures var url := UrlOf(meta, cands[i]);
      var top' := top + [MakeRecommendation(cands[i], meta.entries[Str(cands[i])]).value];
      Prepend(top, RankFrom(cands[i..], meta, seen, MaxRecommendations - |top|)) ==
        Prepend(top', RankFrom(cands[i + 1..], meta, if Truthy(url) then seen + {url} else seen, MaxRecommendations - |top'|))
  {
    var url := UrlOf(meta, cands[i]);
    var rec := MakeRecommendation(cands[i], meta.entries[Str(cands[i])]).value;
    RankTakes(cands, meta, seen, MaxRecommendations - |top|, i);
    PrependTwice(top, rec, RankFrom(cands[i + 1..], meta, if Truthy(url) then seen + {url} else seen, MaxRecommendations - |top| - 1));
  }

  lemma PrependTwice(top: seq<Recommendation>, x: Recommendation, r: Result<seq<Recommendation>>)
    ensures Prepend(top, Prepend([x], r)) == Prepend(top + [x], r)
  {
    if r.Ok? {
      assert top + ([x] + r.value) == top + [x] + r.value;
    }
  }

  function Ids(rs: seq<Recommendation>): (ids: seq<string>)
    ensures |ids| == |rs| && forall i :: 0 <= i < |rs| ==> ids[i] == rs[i].songId
  {
    if rs == [] then [] else [rs[0].songId] + Ids(rs[1..])
  }

  function Take<T>(s: seq<T>, n: nat): seq<T> {
    if |s| <= n then s else s[..n]
  }

  // ---------------------------------------------------------------- reference definition

  /** Candidate `k` is kept when it has metadata and its `perma_url` is falsy
      or differs from that of every earlier candidate with metadata. */
  predicate Kept(cands: seq<string>, meta: Dict<Value, Record>, k: nat)
    requires k < |cands|
  {
    && InMeta(meta, cands[k])
    && (Truthy(UrlOf(meta, cands[k])) ==>
          forall j :: 0 <= j < k && InMeta(meta, cands[j]) ==> UrlOf(meta, cands[j]) != UrlOf(meta, cands[k]))
  }

  /** The kept candidates from position `k` on, in candidate order. */
  function KeptFrom(cands: seq<string>, meta: Dict<Value, Record>, k: nat): seq<string>
    requires k <= |cands|
    decreases |cands| - k
  {
    if k == |cands| then []
    else (if Kept(cands, meta, k) then [cands[k]] else []) + KeptFrom(cands, meta, k + 1)
  }

  /** The truthy urls of the candidates before `k` that have metadata. */
  function SeenBefore(cands: seq<string>, meta: Dict<Value, Record>, k: nat): set<Value>
    requires k <= |cands|
  {
    set j | 0 <= j < k && InMeta(meta, cands[j]) && Truthy(UrlOf(meta, cands[j])) :: UrlOf(meta, cands[j])
  }

  /** The de-duplication without the cap and without the errors. */
  function Dedup(cands: seq<string>, meta: Dict<Value, Record>, seen: set<Value>): seq<string>
    decreases |cands|
  {
    if cands == [] then []
    else if !InMeta(meta, cands[0]) then Dedup(cands[1..], meta, seen)
    else
      var url := UrlOf(meta, cands[0]);
      if Truthy(url) && url in seen then Dedup(cands[1..], meta, seen)
      else [cands[0]] + Dedup(cands[1..], meta, if Truthy(url) then seen + {url} else seen)
  }

  /** A successful ranking holds the first `room` songs of the de-duplication. */
  lemma {:induction false} RankIsTakeOfDedup(cands: seq<string>, meta: Dict<Value, Record>, seen: set<Value>, room: nat)
    requires RankFrom(cands, meta, seen, room).Ok?
    ensures Ids(RankFrom(cands, meta, seen, room).value) == Take(Dedup(cands, meta, seen), room)
    decreases |cands|
  {
    if room != 0 && cands != [] {
      var sid := cands[0];
      if Skipped(cands, meta, seen) {
        RankSkipFront(cands, meta, seen, room);
        RankIsTakeOfDedup(cands[1..], meta, seen, room);
      } else {
        var seen' := SeenAfter(cands, meta, seen);
        RankTakeFront(cands, meta, seen, room);
        RankIsTakeOfDedup(cands[1..], meta, seen', room - 1);
        var rs := RankFrom(cands, meta, seen, room).value;
        var rest := RankFrom(cands[1..], meta, seen', room - 1).value;
        assert rs[1..] == rest;
        assert Ids(rs) == [sid] + Ids(rest);
        TakeCons(sid, Dedup(cands[1..], meta, seen'), room);
      }
    } else if cands != [] {
      assert Take(Dedup(cands, meta, seen), 0) == [];
    }
  }

  /** A candidate that is taken heads both the ranking and the de-duplication. */
  lemma RankTakeFront(cands: seq<string>, meta: Dict<Value, Record>, seen: set<Value>, room: nat)
    requires room != 0 && cands != [] && !Skipped(cands, meta, seen)
    requires RankFrom(cands, meta, seen, room).Ok?
    ensures var seen' := SeenAfter(cands, meta, seen);
      var rec := MakeRecommendation(cands[0], meta.entries[Str(cands[0])]);
      && rec.Ok? && RankFrom(cands[1..], meta, seen', room - 1).Ok?
      && RankFrom(cands, meta, seen, room).value == [rec.value] + RankFrom(cands[1..], meta, seen', room - 1).value
      && Dedup(cands, meta, seen) == [cands[0]] + Dedup(cands[1..], meta, seen')
  {
  }

  lemma TakeCons<T>(x: T, s: seq<T>, n: nat)
    requires n > 0
    ensures Take([x] + s, n) == [x] + Take(s, n - 1)
  {
    if |s| > n - 1 {
      assert ([x] + s)[..n] == [x] + s[..n - 1];
    }
  }

  /** The de-duplication run from position `k`, with the urls seen before `k`,
      keeps exactly the candidates `Kept` describes. */
  lemma {:induction false} DedupIsKept(cands: seq<string>, meta: Dict<Value, Record>, k: nat)
    requires k <= |cands|
    ensures Dedup(cands[k..], meta, SeenBefore(cands, meta, k)) == KeptFrom(cands, meta, k)
    decreases |cands| - k
  {
    if k < |cands| {
      var sid := cands[k];
      var seen := SeenBefore(cands, meta, k);
      assert cands[k..][0] == sid && cands[k..][1..] == cands[k + 1..];
      DedupIsKept(cands, meta, k + 1);
      if !InMeta(meta, sid) {
        assert SeenBefore(cands, meta, k + 1) == seen;
      } else {
        var url := UrlOf(meta, sid);
        if Truthy(url) {
          assert SeenBefore(cands, meta, k + 1) == seen + {url};
          if url in seen {
            var j :| 0 <= j < k && InMeta(meta, cands[j]) && Truthy(UrlOf(meta, cands[j])) && UrlOf(meta, cands[j]) == url;
            assert !Kept(cands, meta, k);
            assert seen + {url} == seen;
          } else {
            assert Kept(cands, meta, k);
          }
        } else {
          assert SeenBefore(cands, meta, k + 1) == seen;
          assert Kept(cands, meta, k);
        }
      }
    }
  }

  /** The ranking loop keeps, up to ten, exactly the candidates with metadata
      whose `perma_url` is falsy or the first of its kind, in candidate order. */
  lemma RankKeepsFirstOccurrences(cands: seq<string>, meta: Dict<Value, Record>)
    requires RankFrom(cands, meta, {}, MaxRecommendations).Ok?
    ensures Ids(RankFrom(cands, meta, {}, MaxRecommendations).value) == Take(KeptFrom(cands, meta, 0), MaxRecommendations)
  {
    RankIsTakeOfDedup(cands, meta, {}, MaxRecommendations);
    DedupIsKept(cands, meta, 0);
    assert SeenBefore(cands, meta, 0) == {};
    assert cands[0..] == cands;
  }

  // ---------------------------------------------------------------- direct properties

  /** A candidate without metadata, or whose truthy url was already seen, is passed over. */
  predicate Skipped(cands: seq<string>, meta: Dict<Value, Record>, seen: set<Value>)
    requires cands != []
  {
    || !InMeta(meta, cands[0])
    || (Truthy(UrlOf(meta, cands[0])) && Hashable(UrlOf(meta, cands[0])) && UrlOf(meta, cands[0]) in seen)
  }

  function SeenAfter(cands: seq<string>, meta: Dict<Value, Record>, seen: set<Value>): set<Value>
    requires cands != [] && InMeta(meta, cands[0])
  {
    var url := UrlOf(meta, cands[0]);
    if Truthy(url) then seen + {url} else seen
  }

  lemma RankSkipFront(cands: seq<string>, meta: Dict<Value, Record>, seen: set<Value>, room: nat)
    requires room != 0 && cands != [] && Skipped(cands, meta, seen)
    ensures RankFrom(cands, meta, seen, room) == RankFrom(cands[1..], meta, seen, room)
  {
  }

  /** At most `room` songs. */
  lemma {:induction false} RankLength(cands: seq<string>, meta: Dict<Value, Record>, seen: set<Value>, room: nat)
    requires RankFrom(cands, meta, seen, room).Ok?
    ensures |RankFrom(cands, meta, seen, room).value| <= room
    decreases |cands|
  {
    if room != 0 && cands != [] {
      if Skipped(cands, meta, seen) {
        RankSkipFront(cands, meta, seen, room);
        RankLength(cands[1..], meta, seen, room);
      } else {
        RankTakeFront(cands, meta, seen, room);
        RankLength(cands[1..], meta, SeenAfter(cands, meta, seen), room - 1);
      }
    }
  }

  /** Each song is one of the candidates. */
  lemma {:induction false} RankFromCands(cands: seq<string>, meta: Dict<Value, Record>, seen: set<Value>, room: nat)
    requires RankFrom(cands, meta, seen, room).Ok?
    ensures var rs := RankFrom(cands, meta, seen, room).value;
      forall i :: 0 <= i < |rs| ==> rs[i].songId in cands
    decreases |cands|
  {
    if room != 0 && cands != [] {
      assert forall x :: x in cands[1..] ==> x in cands;
      if Skipped(cands, meta, seen) {
        RankSkipFront(cands, meta, seen, room);
        RankFromCands(cands[1..], meta, seen, room);
      } else {
        var seen' := SeenAfter(cands, meta, seen);
        RankTakeFront(cands, meta, seen, room);
        RankFromCands(cands[1..], meta, seen', room - 1);
        var rs := RankFrom(cands, meta, seen, room).value;
        var rest := RankFrom(cands[1..], meta, seen', room - 1).value;
        assert forall i :: 1 <= i < |rs| ==> rs[i] == rest[i - 1];
        assert rs[0].songId == cands[0];
      }
    }
  }

  /** Each song is built from its own metadata record. */
  lemma {:induction false} RankRecords(cands: seq<string>, meta: Dict<Value, Record>, seen: set<Value>, room: nat)
    requires RankFrom(cands, meta, seen, room).Ok?
    ensures var rs := RankFrom(cands, meta, seen, room).value;
      forall i :: 0 <= i < |rs| ==>
        InMeta(meta, rs[i].songId) && MakeRecommendation(rs[i].songId, meta.entries[Str(rs[i].songId)]) == Ok(rs[i])
    decreases |cands|
  {
    if room != 0 && cands != [] {
      if Skipped(cands, meta, seen) {
        RankSkipFront(cands, meta, seen, room);
        RankRecords(cands[1..], meta, seen, room);
      } else {
        var seen' := SeenAfter(cands, meta, seen);
        RankTakeFront(cands, meta, seen, room);
        RankRecords(cands[1..], meta, seen', room - 1);
        var rs := RankFrom(cands, meta, seen, room).value;
        var rest := RankFrom(cands[1..], meta, seen', room - 1).value;
        assert forall i :: 1 <= i < |rs| ==> rs[i] == rest[i - 1];
        assert rs[0] == MakeRecommendation(cands[0], meta.entries[Str(cands[0])]).value;
      }
    }
  }

  /** No song has a truthy url that was already seen. */
  lemma {:induction false} RankUnseen(cands: seq<string>, meta: Dict<Value, Record>, seen: set<Value>, room: nat)
    requires RankFrom(cands, meta, seen, room).Ok?
    ensures var rs := RankFrom(cands, meta, seen, room).value;
      forall i :: 0 <= i < |rs| && Truthy(rs[i].permaUrl) ==> rs[i].permaUrl !in seen
    decreases |cands|
  {
    if room != 0 && cands != [] {
      if Skipped(cands, meta, seen) {
        RankSkipFront(cands, meta, seen, room);
        RankUnseen(cands[1..], meta, seen, room);
      } else {
        var seen' := SeenAfter(cands, meta, seen);
        RankTakeFront(cands, meta, seen, room);
        RankUnseen(cands[1..], meta, seen', room - 1);
        var rs := RankFrom(cands, meta, seen, room).value;
        var rest := RankFrom(cands[1..], meta, seen', room - 1).value;
        assert forall i :: 1 <= i < |rs| ==> rs[i] == rest[i - 1];
        assert rs[0].permaUrl == UrlOf(meta, cands[0]);
      }
    }
  }

  /** No two songs share a truthy url. */
  lemma {:induction false} RankDistinctUrls(cands: seq<string>, meta: Dict<Value, Record>, seen: set<Value>, room: nat)
    requires RankFrom(cands, meta, seen, room).Ok?
    ensures var rs := RankFrom(cands, meta, seen, room).value;
      forall i, j :: 0 <= i < j < |rs| && Truthy(rs[i].permaUrl) ==> rs[i].permaUrl != rs[j].permaUrl
    decreases |cands|
  {
    if room != 0 && cands != [] {
      if Skipped(cands, meta, seen) {
        RankSkipFront(cands, meta, seen, room);
        RankDistinctUrls(cands[1..], meta, seen, room);
      } else {
        var seen' := SeenAfter(cands, meta, seen);
        RankTakeFront(cands, meta, seen, room);
        RankDistinctUrls(cands[1..], meta, seen', room - 1);
        RankUnseen(cands[1..], meta, seen', room - 1);
        var rs := RankFrom(cands, meta, seen, room).value;
        var rest := RankFrom(cands[1..], meta, seen', room - 1).value;
        assert forall i :: 1 <= i < |rs| ==> rs[i] == rest[i - 1];
        assert rs[0].permaUrl == UrlOf(meta, cands[0]);
      }
    }
  }

  /** At most `room` songs, each built from its own metadata record, no two
      sharing a truthy `perma_url`, and none with a url already seen. */
  lemma RankShape(cands: seq<string>, meta: Dict<Value, Record>, seen: set<Value>, room: nat)
    requires RankFrom(cands, meta, seen, room).Ok?
    ensures var rs := RankFrom(cands, meta, seen, room).value;
      && |rs| <= room
      && (forall i :: 0 <= i < |rs| ==>
            (InMeta(meta, rs[i].songId) && rs[i].songId in cands &&
             MakeRecommendation(rs[i].songId, meta.entries[Str(rs[i].songId)]) == Ok(rs[i])))
      && (forall i :: 0 <= i < |rs| && Truthy(rs[i].permaUrl) ==> rs[i].permaUrl !in seen)
      && (forall i, j :: 0 <= i < j < |rs| && Truthy(rs[i].permaUrl) ==> rs[i].permaUrl != rs[j].permaUrl)
  {
    RankLength(cands, meta, seen, room);
    RankFromCands(cands, meta, seen, room);
    RankRecords(cands, meta, seen, room);
    RankUnseen(cands, meta, seen, room);
    RankDistinctUrls(cands, meta, seen, room);
  }

  /** With every candidate's record carrying a title and a hashable or falsy
      url, the ranking never raises. */
  lemma {:induction false} RankDefined(cands: seq<string>, meta: Dict<Value, Record>, seen: set<Value>, room: nat)
    requires forall i :: 0 <= i < |cands| && InMeta(meta, cands[i]) ==>
      "title" in meta.entries[Str(cands[i])].entries &&
      (Truthy(UrlOf(meta, cands[i])) ==> Hashable(UrlOf(meta, cands[i])))
    ensures RankFrom(cands, meta, seen, room).Ok?
    decreases |cands|
  {
    if room != 0 && cands != [] {
      assert forall i :: 0 <= i < |cands[1..]| ==> cands[1..][i] == cands[i + 1];
      var url := if InMeta(meta, cands[0]) then UrlOf(meta, cands[0]) else Null;
      RankDefined(cands[1..], meta, seen, room);
      RankDefined(cands[1..], meta, seen, room - 1);
      RankDefined(cands[1..], meta, seen + {url}, room - 1);
    }
  }
}
