/**
 * `Array.prototype.sort` with a comparator, which JavaScript requires to be
 * stable. The model is an insertion sort over a "less or equal" relation
 * derived from the comparator: an element is placed before the first element
 * it does not exceed, so an earlier element stays ahead of an equal later one.
 */
module Sorting {

  /** `le` is a total preorder: every two elements compare and comparison chains. */
  ghost predicate TotalPreorder<T(!new)>(le: (T, T) -> bool) {
    (forall a, b :: le(a, b) || le(b, a)) &&
    (forall a, b, c :: le(a, b) && le(b, c) ==> le(a, c))
  }

  predicate SortedBy<T>(s: seq<T>, le: (T, T) -> bool) {
    forall i, j :: 0 <= i < j < |s| ==> le(s[i], s[j])
  }

  /** Places `x` before the first element of `s` that it does not exceed. */
  function Insert<T>(x: T, s: seq<T>, le: (T, T) -> bool): (r: seq<T>)
    ensures multiset(r) == multiset(s) + multiset{x}
    ensures |r| == |s| + 1
  {
    if s == [] then [x]
    else if le(x, s[0]) then [x] + s
    else assert s == [s[0]] + s[1..]; [s[0]] + Insert(x, s[1..], le)
  }

  function Sort<T>(s: seq<T>, le: (T, T) -> bool): (r: seq<T>)
    ensures multiset(r) == multiset(s)
    ensures |r| == |s|
  {
    if s == [] then [] else assert s == [s[0]] + s[1..]; Insert(s[0], Sort(s[1..], le), le)
  }

  lemma {:induction false} InsertSorted<T(!new)>(x: T, s: seq<T>, le: (T, T) -> bool)
    requires TotalPreorder(le) && SortedBy(s, le)
    ensures SortedBy(Insert(x, s, le), le)
  {
    if s != [] && !le(x, s[0]) {
      var t := s[1..];
      assert SortedBy(t, le);
      InsertSorted(x, t, le);
      var r := Insert(x, t, le);
      assert le(s[0], x);
      forall k | 0 <= k < |r| ensures le(s[0], r[k]) {
        assert r[k] in multiset(r);
        assert r[k] in multiset(t) + multiset{x};
        if r[k] != x {
          assert r[k] in multiset(t);
          var m :| 0 <= m < |t| && t[m] == r[k];
          assert s[m + 1] == r[k];
        }
      }
    }
  }

  /** The sort orders its input by `le` and keeps exactly its elements. */
  lemma {:induction false} SortSorted<T(!new)>(s: seq<T>, le: (T, T) -> bool)
    requires TotalPreorder(le)
    ensures SortedBy(Sort(s, le), le)
    ensures multiset(Sort(s, le)) == multiset(s)
  {
    if s != [] {
      SortSorted(s[1..], le);
      InsertSorted(s[0], Sort(s[1..], le), le);
    }
  }

  /** Sorting does not change which elements are present. */
  lemma SortSameElements<T>(s: seq<T>, le: (T, T) -> bool, x: T)
    ensures x in Sort(s, le) <==> x in s
  {
    assert x in Sort(s, le) <==> x in multiset(Sort(s, le));
    assert x in s <==> x in multiset(s);
  }

  /** No two elements of `s` share a key. */
  ghost predicate DistinctKeys<T, K>(s: seq<T>, key: T -> K) {
    forall a, b :: 0 <= a < b < |s| ==> key(s[a]) != key(s[b])
  }

  lemma {:induction false} InsertKeepsDistinct<T, K>(x: T, s: seq<T>, le: (T, T) -> bool, key: T -> K)
    requires DistinctKeys(s, key)
    requires forall i :: 0 <= i < |s| ==> key(s[i]) != key(x)
    ensures DistinctKeys(Insert(x, s, le), key)
  {
    if s != [] && !le(x, s[0]) {
      var t := s[1..];
      InsertKeepsDistinct(x, t, le, key);
      var r := Insert(x, t, le);
      forall k | 0 <= k < |r| ensures key(s[0]) != key(r[k]) {
        assert r[k] in multiset(t) + multiset{x};
        if r[k] != x {
          var m :| 0 <= m < |t| && t[m] == r[k];
          assert s[m + 1] == r[k];
        }
      }
      assert Insert(x, s, le) == [s[0]] + r;
    }
  }

  /** Sorting keeps the keys of its elements distinct. */
  lemma {:induction false} SortKeepsDistinct<T, K>(s: seq<T>, le: (T, T) -> bool, key: T -> K)
    requires DistinctKeys(s, key)
    ensures DistinctKeys(Sort(s, le), key)
  {
    if s != [] {
      var t := s[1..];
      assert DistinctKeys(t, key);
      SortKeepsDistinct(t, le, key);
      var r := Sort(t, le);
      forall i | 0 <= i < |r| ensures key(r[i]) != key(s[0]) {
        assert r[i] in multiset(t);
        var m :| 0 <= m < |t| && t[m] == r[i];
        assert s[m + 1] == r[i];
      }
      InsertKeepsDistinct(s[0], r, le, key);
    }
  }
}
