/** Stable sorting. Python's `list.sort` (with or without `reverse=True`) is
    stable, so sorting a list by one key yields the unique order in which the
    keys never decrease and equal keys keep their original order. Each item is
    paired with its original position; sorting the pairs lexicographically is
    that order. */
module Ranking {

  /** An item of the list being sorted: its sort key and its original position. */
  datatype Keyed = Keyed(key: real, pos: int)

  /** `a` may come before `b`: a smaller key, or the same key and an earlier position. */
  predicate Precedes(a: Keyed, b: Keyed) {
    a.key < b.key || (a.key == b.key && a.pos <= b.pos)
  }

  predicate Sorted(s: seq<Keyed>) {
    forall i, j :: 0 <= i < j < |s| ==> Precedes(s[i], s[j])
  }

  function Insert(x: Keyed, s: seq<Keyed>): (r: seq<Keyed>)
    requires Sorted(s)
    ensures Sorted(r)
    ensures multiset(r) == multiset(s) + multiset{x}
    ensures |r| == |s| + 1
    ensures forall y :: y in r ==> y == x || y in s
  {
    if s == [] then [x]
    else if Precedes(x, s[0]) then
      FirstPrecedesAll(x, s);
      [x] + s
    else
      var t := Insert(x, s[1..]);
      assert s == [s[0]] + s[1..];
      assert forall y :: y in s[1..] ==> Precedes(s[0], y) by {
        forall y | y in s[1..] ensures Precedes(s[0], y) {
          var j :| 0 <= j < |s[1..]| && s[1..][j] == y;
          assert s[j + 1] == y;
        }
      }
      FirstPrecedesAll(s[0], t);
      [s[0]] + t
  }

  /** Putting an item that precedes every item of a sorted list in front keeps it sorted. */
  lemma FirstPrecedesAll(h: Keyed, t: seq<Keyed>)
    requires Sorted(t)
    requires forall y :: y in t ==> Precedes(h, y)
    ensures Sorted([h] + t)
  {
    var r := [h] + t;
    forall i, j | 0 <= i < j < |r| ensures Precedes(r[i], r[j]) {
      assert r[j] == t[j - 1];
      if i > 0 {
        assert r[i] == t[i - 1];
      }
    }
  }

  /** The stable sort of `s` by key, ties in order of position. */
  function Sort(s: seq<Keyed>): (r: seq<Keyed>)
    ensures Sorted(r)
    ensures multiset(r) == multiset(s)
    ensures |r| == |s|
  {
    if s == [] then []
    else
      assert s == s[..|s| - 1] + [s[|s| - 1]];
      Insert(s[|s| - 1], Sort(s[..|s| - 1]))
  }

  /** A sorted permutation is unique: `Sort` is THE stable sort of its input. */
  lemma {:induction false} SortedPermutationUnique(a: seq<Keyed>, b: seq<Keyed>)
    requires Sorted(a) && Sorted(b) && multiset(a) == multiset(b)
    ensures a == b
  {
    if a != [] {
      assert |b| == |a| by {
        assert |multiset(a)| == |a| && |multiset(b)| == |b|;
      }
      assert a[0] in multiset(b) && b[0] in multiset(a);
      HeadPrecedes(b, a[0]);
      HeadPrecedes(a, b[0]);
      assert a[0] == b[0];
      TailMultiset(a);
      TailMultiset(b);
      SortedTail(a);
      SortedTail(b);
      SortedPermutationUnique(a[1..], b[1..]);
      assert a == [a[0]] + a[1..] && b == [b[0]] + b[1..];
    }
  }

  lemma HeadPrecedes(s: seq<Keyed>, x: Keyed)
    requires Sorted(s) && x in s
    ensures Precedes(s[0], x)
  {
    var i :| 0 <= i < |s| && s[i] == x;
    assert i == 0 || Precedes(s[0], s[i]);
  }

  lemma TailMultiset(s: seq<Keyed>)
    requires s != []
    ensures multiset(s[1..]) == multiset(s) - multiset{s[0]}
  {
    assert s == [s[0]] + s[1..];
  }

  lemma SortedTail(s: seq<Keyed>)
    requires Sorted(s) && s != []
    ensures Sorted(s[1..])
  {
    forall i, j | 0 <= i < j < |s| - 1 ensures Precedes(s[1..][i], s[1..][j]) {
      assert s[1..][i] == s[i + 1] && s[1..][j] == s[j + 1];
    }
  }

  /** The first `k` items of a sorted list precede all the others. */
  lemma PrefixPrecedesRest(r: seq<Keyed>, k: nat, x: Keyed, y: Keyed)
    requires Sorted(r) && k <= |r|
    requires x in r[..k] && y in r[k..]
    ensures Precedes(x, y)
  {
    var i :| 0 <= i < k && r[..k][i] == x;
    var j :| 0 <= j < |r| - k && r[k..][j] == y;
    assert r[i] == x && r[k + j] == y;
  }

  /** A permutation of a list without repeats has no repeats either. */
  lemma DistinctPreserved<T>(a: seq<T>, b: seq<T>)
    requires multiset(a) == multiset(b)
    requires forall i, j :: 0 <= i < j < |a| ==> a[i] != a[j]
    ensures forall i, j :: 0 <= i < j < |b| ==> b[i] != b[j]
  {
    forall i, j | 0 <= i < j < |b| ensures b[i] != b[j] {
      if b[i] == b[j] {
        var x := b[i];
        assert b == b[..i] + [x] + b[i + 1..j] + [x] + b[j + 1..];
        assert multiset(b)[x] >= 2;
        AtMostOnce(a, x);
        assert false;
      }
    }
  }

  lemma {:induction false} AtMostOnce<T>(a: seq<T>, x: T)
    requires forall i, j :: 0 <= i < j < |a| ==> a[i] != a[j]
    ensures multiset(a)[x] <= 1
  {
    if a != [] {
      assert a == [a[0]] + a[1..];
      AtMostOnce(a[1..], x);
      if a[0] == x {
        assert x !in a[1..];
      }
    }
  }
}
