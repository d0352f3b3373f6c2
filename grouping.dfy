/**
 * Folding a sequence into a `Map` by key, as the routes do in loops.
 * Keeping one element per key: elements are visited in order, the first
 * element with a new key is stored, and a later element with the same key
 * replaces the stored one only when it supersedes it. Summing per key: each
 * element adds its amount to its key's entry. The key order of the map is
 * the order in which the keys first appear.
 */
module Grouping {
  import opened Sorting
  import opened Sums

  /** `s.map(f)`. */
  function Map<A, B>(f: A -> B, s: seq<A>): (r: seq<B>)
    ensures |r| == |s| && forall i :: 0 <= i < |s| ==> r[i] == f(s[i])
  {
    seq(|s|, i requires 0 <= i < |s| => f(s[i]))
  }

  /**
   * `sup` is a strict weak order: irreflexive, transitive, and whenever
   * `a` supersedes `b`, every `c` is superseded by `a` or supersedes `b`.
   */
  ghost predicate StrictWeakOrder<T(!new)>(sup: (T, T) -> bool) {
    (forall a :: !sup(a, a)) &&
    (forall a, b, c :: sup(a, b) && sup(b, c) ==> sup(a, c)) &&
    (forall a, b, c :: sup(a, b) ==> sup(a, c) || sup(c, b))
  }

  /**
   * Element `w` is the one stored for its key after the first `n` elements:
   * no element with that key supersedes it, and it supersedes every earlier
   * one — so it is maximal, and the first element to reach that maximum.
   */
  ghost predicate ChosenAmong<T, K>(s: seq<T>, key: T -> K, sup: (T, T) -> bool, w: int, n: int)
    requires 0 <= w < |s| && n <= |s|
  {
    forall j :: 0 <= j < n && key(s[j]) == key(s[w]) ==> !sup(s[j], s[w]) && (j < w ==> sup(s[w], s[j]))
  }

  /** One element is chosen per key. */
  lemma ChosenUnique<T(!new), K>(s: seq<T>, key: T -> K, sup: (T, T) -> bool, v: int, w: int)
    requires 0 <= v < |s| && 0 <= w < |s| && key(s[v]) == key(s[w])
    requires ChosenAmong(s, key, sup, v, |s|) && ChosenAmong(s, key, sup, w, |s|)
    ensures v == w
  {
    assert !sup(s[w], s[v]) && !sup(s[v], s[w]);
  }

  /** A chosen element stays chosen past an element that does not displace it. */
  lemma ChosenExtend<T, K>(s: seq<T>, key: T -> K, sup: (T, T) -> bool, w: int, n: int)
    requires 0 <= w < n < |s| && ChosenAmong(s, key, sup, w, n)
    requires key(s[n]) != key(s[w]) || !sup(s[n], s[w])
    ensures ChosenAmong(s, key, sup, w, n + 1)
  {
  }

  /** An element that supersedes every earlier element with its key is chosen among the elements up to it. */
  lemma ChosenNew<T(!new), K>(s: seq<T>, key: T -> K, sup: (T, T) -> bool, n: int)
    requires StrictWeakOrder(sup) && 0 <= n < |s|
    requires forall j :: 0 <= j < n && key(s[j]) == key(s[n]) ==> sup(s[n], s[j])
    ensures ChosenAmong(s, key, sup, n, n + 1)
  {
  }

  /**
   * The state of the loop after `n` elements: `keys` lists the keys seen,
   * first appearance first, and `byKey[k]` is the element chosen so far for
   * `k`, which sits at index `src[k]`.
   */
  ghost predicate Grouped<T, K(!new)>(s: seq<T>, key: T -> K, sup: (T, T) -> bool, n: int,
                                      byKey: map<K, T>, keys: seq<K>, src: map<K, int>)
    requires 0 <= n <= |s|
  {
    (forall a, b :: 0 <= a < b < |keys| ==> keys[a] != keys[b]) &&
    (forall k :: k in byKey <==> k in keys) &&
    byKey.Keys == src.Keys &&
    (forall k :: k in src ==>
       0 <= src[k] < n && byKey[k] == s[src[k]] && key(s[src[k]]) == k && ChosenAmong(s, key, sup, src[k], n)) &&
    (forall j :: 0 <= j < n ==> key(s[j]) in byKey)
  }

  /** A key seen for the first time goes last, with its element as the choice. */
  lemma GroupedNew<T(!new), K(!new)>(s: seq<T>, key: T -> K, sup: (T, T) -> bool, n: int,
                                     byKey: map<K, T>, keys: seq<K>, src: map<K, int>)
    requires StrictWeakOrder(sup) && 0 <= n < |s| && Grouped(s, key, sup, n, byKey, keys, src)
    requires key(s[n]) !in byKey
    ensures var k := key(s[n]); Grouped(s, key, sup, n + 1, byKey[k := s[n]], keys + [k], src[k := n])
  {
    forall k' | k' in src ensures ChosenAmong(s, key, sup, src[k'], n + 1) {
      ChosenExtend(s, key, sup, src[k'], n);
    }
    ChosenNew(s, key, sup, n);
  }

  /** An element that supersedes the current choice for its key replaces it. */
  lemma GroupedReplace<T(!new), K(!new)>(s: seq<T>, key: T -> K, sup: (T, T) -> bool, n: int,
                                         byKey: map<K, T>, keys: seq<K>, src: map<K, int>)
    requires StrictWeakOrder(sup) && 0 <= n < |s| && Grouped(s, key, sup, n, byKey, keys, src)
    requires key(s[n]) in byKey && sup(s[n], byKey[key(s[n])])
    ensures var k := key(s[n]); Grouped(s, key, sup, n + 1, byKey[k := s[n]], keys, src[k := n])
  {
    var k := key(s[n]);
    forall k' | k' in src && k' != k ensures ChosenAmong(s, key, sup, src[k'], n + 1) {
      ChosenExtend(s, key, sup, src[k'], n);
    }
    var w := src[k];
    forall j | 0 <= j < n && key(s[j]) == k ensures sup(s[n], s[j]) {
      assert sup(s[n], s[w]) && !sup(s[j], s[w]);
    }
    ChosenNew(s, key, sup, n);
  }

  /** An element that does not supersede the current choice for its key changes nothing. */
  lemma GroupedKeep<T, K(!new)>(s: seq<T>, key: T -> K, sup: (T, T) -> bool, n: int,
                                byKey: map<K, T>, keys: seq<K>, src: map<K, int>)
    requires 0 <= n < |s| && Grouped(s, key, sup, n, byKey, keys, src)
    requires key(s[n]) in byKey && !sup(s[n], byKey[key(s[n])])
    ensures Grouped(s, key, sup, n + 1, byKey, keys, src)
  {
    forall k' | k' in src ensures ChosenAmong(s, key, sup, src[k'], n + 1) {
      ChosenExtend(s, key, sup, src[k'], n);
    }
  }

  /**
   * The loop that fills the map: afterwards every key of `s` is present, once,
   * holding its chosen element.
   */
  method GroupByKey<T(!new), K(!new)>(s: seq<T>, key: T -> K, sup: (T, T) -> bool)
      returns (byKey: map<K, T>, keys: seq<K>, ghost src: map<K, int>)
    requires StrictWeakOrder(sup)
    ensures Grouped(s, key, sup, |s|, byKey, keys, src)
  {
    byKey, keys, src := map[], [], map[];
    var i := 0;
    while i < |s|
      invariant 0 <= i <= |s| && Grouped(s, key, sup, i, byKey, keys, src)
    {
      var x := s[i];
      var k := key(x);
      if k !in byKey {
        GroupedNew(s, key, sup, i, byKey, keys, src);
        byKey, keys, src := byKey[k := x], keys + [k], src[k := i];
      } else if sup(x, byKey[k]) {
        GroupedReplace(s, key, sup, i, byKey, keys, src);
        byKey, src := byKey[k := x], src[k := i];
      } else {
        GroupedKeep(s, key, sup, i, byKey, keys, src);
      }
      i := i + 1;
    }
  }

  /** `[...byKey.values()]`: the stored elements in the order their keys were inserted. */
  method Values<T, K>(byKey: map<K, T>, keys: seq<K>) returns (values: seq<T>)
    requires forall t :: 0 <= t < |keys| ==> keys[t] in byKey
    ensures |values| == |keys| && forall t :: 0 <= t < |keys| ==> values[t] == byKey[keys[t]]
  {
    values := [];
    var m := 0;
    while m < |keys|
      invariant 0 <= m <= |keys| && |values| == m
      invariant forall t :: 0 <= t < m ==> values[t] == byKey[keys[t]]
    {
      values := values + [byKey[keys[m]]];
      m := m + 1;
    }
  }

  /** Two sequences with the same elements have the same keys. */
  lemma MapSameElements<A, B>(f: A -> B, a: seq<A>, b: seq<A>, y: B)
    requires forall x :: x in a <==> x in b
    ensures y in Map(f, a) ==> y in Map(f, b)
  {
    if y in Map(f, a) {
      var i :| 0 <= i < |a| && Map(f, a)[i] == y;
      assert a[i] in a;
      var m :| 0 <= m < |b| && b[m] == a[i];
      assert Map(f, b)[m] == y;
    }
  }

  /** After the whole of `s`, the key of element `j` is stored. */
  lemma GroupedCovers<T, K(!new)>(s: seq<T>, key: T -> K, sup: (T, T) -> bool,
                                  byKey: map<K, T>, keys: seq<K>, src: map<K, int>, values: seq<T>, j: int)
    requires Grouped(s, key, sup, |s|, byKey, keys, src) && 0 <= j < |s|
    requires |values| == |keys| && forall t :: 0 <= t < |keys| ==> values[t] == byKey[keys[t]]
    ensures key(s[j]) in Map(key, values)
  {
    var m :| 0 <= m < |keys| && keys[m] == key(s[j]);
    assert values[m] == s[src[keys[m]]];
    assert Map(key, values)[m] == key(s[j]);
  }

  /** An element of `values` sits at the index of the chosen element for its key. */
  lemma GroupedChosen<T, K(!new)>(s: seq<T>, key: T -> K, sup: (T, T) -> bool,
                                  byKey: map<K, T>, keys: seq<K>, src: map<K, int>, values: seq<T>, x: T)
    requires Grouped(s, key, sup, |s|, byKey, keys, src) && x in values
    requires |values| == |keys| && forall t :: 0 <= t < |keys| ==> values[t] == byKey[keys[t]]
    ensures exists w :: 0 <= w < |s| && x == s[w] && ChosenAmong(s, key, sup, w, |s|)
  {
    var t :| 0 <= t < |values| && values[t] == x;
    assert x == s[src[keys[t]]];
  }

  /**
   * Groups `s` by key and lists the chosen elements: one per key, each the
   * chosen element for its key, every key present.
   */
  method Dedupe<T(!new), K(==,!new)>(s: seq<T>, key: T -> K, sup: (T, T) -> bool) returns (values: seq<T>)
    requires StrictWeakOrder(sup)
    ensures DistinctKeys(values, key)
    ensures forall x | x in values :: exists w :: 0 <= w < |s| && x == s[w] && ChosenAmong(s, key, sup, w, |s|)
    ensures forall j | 0 <= j < |s| :: key(s[j]) in Map(key, values)
  {
    var byKey, keys, src := GroupByKey(s, key, sup);
    values := Values(byKey, keys);
    forall a, b | 0 <= a < b < |values| ensures key(values[a]) != key(values[b]) {
      assert key(values[a]) == keys[a] && key(values[b]) == keys[b];
    }
    forall x | x in values ensures exists w :: 0 <= w < |s| && x == s[w] && ChosenAmong(s, key, sup, w, |s|) {
      GroupedChosen(s, key, sup, byKey, keys, src, values, x);
    }
    forall j | 0 <= j < |s| ensures key(s[j]) in Map(key, values) {
      GroupedCovers(s, key, sup, byKey, keys, src, values, j);
    }
  }

  // ---------------------------------------------------------------------
  // Sums per key
  // ---------------------------------------------------------------------

  /** The sum of `f` over the elements of `s` whose key is `k`. */
  function KeyTotal<T, K(==,!new)>(s: seq<T>, key: T -> K, f: T -> real, k: K): real {
    if s == [] then 0.0
    else KeyTotal(s[..|s| - 1], key, f, k) + (if key(s[|s| - 1]) == k then f(s[|s| - 1]) else 0.0)
  }

  /** The entries of `m` for `keys`, added up in order. */
  function ValuesTotal<K>(m: map<K, real>, keys: seq<K>): real {
    if keys == [] then 0.0
    else ValuesTotal(m, keys[..|keys| - 1]) + (if keys[|keys| - 1] in m then m[keys[|keys| - 1]] else 0.0)
  }

  lemma KeyTotalAppend<T, K(!new)>(s: seq<T>, x: T, key: T -> K, f: T -> real, k: K)
    ensures KeyTotal(s + [x], key, f, k) == KeyTotal(s, key, f, k) + (if key(x) == k then f(x) else 0.0)
  {
    assert (s + [x])[..|s|] == s;
  }

  /** The total of a key is a filtered sum when the key test and the filter agree on every element. */
  lemma {:induction false} KeyTotalIsSumWhere<T, K(!new)>(s: seq<T>, key: T -> K, f: T -> real, k: K, p: T -> bool)
    requires forall i :: 0 <= i < |s| ==> (key(s[i]) == k <==> p(s[i]))
    ensures KeyTotal(s, key, f, k) == SumWhere(s, p, f)
  {
    if s != [] {
      KeyTotalIsSumWhere(s[..|s| - 1], key, f, k, p);
    }
  }

  /** A key no element has totals 0. */
  lemma {:induction false} KeyTotalMissing<T, K(!new)>(s: seq<T>, key: T -> K, f: T -> real, k: K)
    requires k !in Map(key, s)
    ensures KeyTotal(s, key, f, k) == 0.0
  {
    if s != [] {
      var init := s[..|s| - 1];
      assert Map(key, s) == Map(key, init) + [key(s[|s| - 1])];
      KeyTotalMissing(init, key, f, k);
    }
  }

  /** Changing the entry of a key listed once changes the total by the difference. */
  lemma {:induction false} ValuesTotalUpdate<K>(m: map<K, real>, keys: seq<K>, k: K, v: real)
    requires forall a, b :: 0 <= a < b < |keys| ==> keys[a] != keys[b]
    requires k in m
    ensures ValuesTotal(m[k := v], keys) == ValuesTotal(m, keys) + (if k in keys then v - m[k] else 0.0)
  {
    if keys != [] {
      var init := keys[..|keys| - 1];
      ValuesTotalUpdate(m, init, k, v);
      assert k in keys <==> k in init || k == keys[|keys| - 1];
      assert keys[|keys| - 1] !in init;
    }
  }

  /** Adding an entry for a key not listed leaves the total of the listed keys alone. */
  lemma {:induction false} ValuesTotalFresh<K>(m: map<K, real>, keys: seq<K>, k: K, v: real)
    requires k !in keys
    ensures ValuesTotal(m[k := v], keys) == ValuesTotal(m, keys)
  {
    if keys != [] {
      ValuesTotalFresh(m, keys[..|keys| - 1], k, v);
    }
  }

  /** The state of the summing loop after the first `n` elements. */
  ghost predicate Summed<T, K(!new)>(s: seq<T>, key: T -> K, f: T -> real, n: int, m: map<K, real>, keys: seq<K>)
    requires 0 <= n <= |s|
  {
    (forall a, b :: 0 <= a < b < |keys| ==> keys[a] != keys[b]) &&
    (forall k :: k in m <==> k in keys) &&
    (forall k :: k in keys <==> k in Map(key, s[..n])) &&
    (forall k | k in m :: m[k] == KeyTotal(s[..n], key, f, k)) &&
    ValuesTotal(m, keys) == Sum(s[..n], f)
  }

  lemma SummedStep<T, K(!new)>(s: seq<T>, key: T -> K, f: T -> real, n: int, m: map<K, real>, keys: seq<K>)
    requires 0 <= n < |s| && Summed(s, key, f, n, m, keys)
    ensures var k := key(s[n]);
      var m' := m[k := (if k in m then m[k] else 0.0) + f(s[n])];
      Summed(s, key, f, n + 1, m', if k in m then keys else keys + [k])
  {
    assert s[..n + 1] == s[..n] + [s[n]];
    AppendStep(s[..n], s[n], key, f);
    if key(s[n]) in m {
      SummedKnown(s, key, f, n, m, keys);
    } else {
      SummedFresh(s, key, f, n, m, keys);
    }
  }

  /** What appending one element does to the keys, the key totals and the sum. */
  lemma AppendStep<T, K(!new)>(done: seq<T>, x: T, key: T -> K, f: T -> real)
    ensures Map(key, done + [x]) == Map(key, done) + [key(x)]
    ensures Sum(done + [x], f) == Sum(done, f) + f(x)
    ensures forall k' :: KeyTotal(done + [x], key, f, k') == KeyTotal(done, key, f, k') + (if key(x) == k' then f(x) else 0.0)
  {
    SumAppend(done, x, f);
    forall k' ensures KeyTotal(done + [x], key, f, k') == KeyTotal(done, key, f, k') + (if key(x) == k' then f(x) else 0.0) {
      KeyTotalAppend(done, x, key, f, k');
    }
  }

  /** The step for a key already in the map: its entry grows, the key list stays. */
  lemma SummedKnown<T, K(!new)>(s: seq<T>, key: T -> K, f: T -> real, n: int, m: map<K, real>, keys: seq<K>)
    requires 0 <= n < |s| && Summed(s, key, f, n, m, keys) && key(s[n]) in m
    requires s[..n + 1] == s[..n] + [s[n]]
    requires Map(key, s[..n + 1]) == Map(key, s[..n]) + [key(s[n])]
    requires Sum(s[..n + 1], f) == Sum(s[..n], f) + f(s[n])
    requires forall k' :: KeyTotal(s[..n + 1], key, f, k') == KeyTotal(s[..n], key, f, k') + (if key(s[n]) == k' then f(s[n]) else 0.0)
    ensures Summed(s, key, f, n + 1, m[key(s[n]) := m[key(s[n])] + f(s[n])], keys)
  {
    var k := key(s[n]);
    ValuesTotalUpdate(m, keys, k, m[k] + f(s[n]));
  }

  /** The step for a new key: it gets an entry and goes to the end of the key list. */
  lemma SummedFresh<T, K(!new)>(s: seq<T>, key: T -> K, f: T -> real, n: int, m: map<K, real>, keys: seq<K>)
    requires 0 <= n < |s| && Summed(s, key, f, n, m, keys) && key(s[n]) !in m
    requires s[..n + 1] == s[..n] + [s[n]]
    requires Map(key, s[..n + 1]) == Map(key, s[..n]) + [key(s[n])]
    requires Sum(s[..n + 1], f) == Sum(s[..n], f) + f(s[n])
    requires forall k' :: KeyTotal(s[..n + 1], key, f, k') == KeyTotal(s[..n], key, f, k') + (if key(s[n]) == k' then f(s[n]) else 0.0)
    ensures Summed(s, key, f, n + 1, m[key(s[n]) := f(s[n])], keys + [key(s[n])])
  {
    var k := key(s[n]);
    KeyTotalMissing(s[..n], key, f, k);
    ValuesTotalFresh(m, keys, k, f(s[n]));
    var keys' := keys + [k];
    assert keys'[..|keys'| - 1] == keys;
  }

  /**
   * `for (const x of s) byKey.set(key(x), (byKey.get(key(x)) || 0) + f(x))`:
   * one entry per key that occurs, holding the sum of that key's amounts;
   * `keys` is the map's key order, and the entries add up to the whole sum.
   */
  method SumByKey<T, K(==,!new)>(s: seq<T>, key: T -> K, f: T -> real) returns (m: map<K, real>, keys: seq<K>)
    ensures Summed(s, key, f, |s|, m, keys)
    ensures forall k :: k in m <==> k in Map(key, s)
    ensures forall k | k in m :: m[k] == KeyTotal(s, key, f, k)
    ensures ValuesTotal(m, keys) == Sum(s, f)
  {
    m, keys := map[], [];
    var i := 0;
    while i < |s|
      invariant 0 <= i <= |s| && Summed(s, key, f, i, m, keys)
    {
      var k := key(s[i]);
      SummedStep(s, key, f, i, m, keys);
      if k !in m {
        keys := keys + [k];
      }
      m := m[k := (if k in m then m[k] else 0.0) + f(s[i])];
      i := i + 1;
    }
    assert s[..|s|] == s;
  }
}
