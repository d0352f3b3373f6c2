/**
 * Folds over sequences of records: sums, as `reduce((s, x) => s + f(x), 0)`
 * and SQL's `COALESCE(SUM(...), 0)` compute them (left to right, 0 when
 * empty), filters, and the greatest element under an order.
 */
module Sums {
  import opened Wrappers

  /** The sum of `f` over `s`, folded from the left. */
  function Sum<T>(s: seq<T>, f: T -> real): real {
    if s == [] then 0.0 else Sum(s[..|s| - 1], f) + f(s[|s| - 1])
  }

  /** The sum of `f` over the elements of `s` that satisfy `p` (a `WHERE` or a `filter`). */
  function SumWhere<T>(s: seq<T>, p: T -> bool, f: T -> real): real {
    if s == [] then 0.0 else SumWhere(s[..|s| - 1], p, f) + (if p(s[|s| - 1]) then f(s[|s| - 1]) else 0.0)
  }

  /** `s.filter(p)`. */
  function Filter<T>(s: seq<T>, p: T -> bool): (r: seq<T>)
    ensures |r| <= |s|
    ensures forall i :: 0 <= i < |r| ==> r[i] in s && p(r[i])
    ensures forall i :: 0 <= i < |s| && p(s[i]) ==> s[i] in r
  {
    if s == [] then [] else Filter(s[..|s| - 1], p) + (if p(s[|s| - 1]) then [s[|s| - 1]] else [])
  }

  /** A filter every element passes keeps the sequence. */
  lemma {:induction false} FilterAll<T>(s: seq<T>, p: T -> bool)
    requires forall i :: 0 <= i < |s| ==> p(s[i])
    ensures Filter(s, p) == s
  {
    if s != [] {
      FilterAll(s[..|s| - 1], p);
    }
  }

  /** A filter keeps the elements' relative order, so keys distinct before are distinct after. */
  lemma {:induction false} FilterKeepsDistinct<T, K>(s: seq<T>, p: T -> bool, key: T -> K)
    requires forall i, j :: 0 <= i < j < |s| ==> key(s[i]) != key(s[j])
    ensures forall i, j :: 0 <= i < j < |Filter(s, p)| ==> key(Filter(s, p)[i]) != key(Filter(s, p)[j])
  {
    if s != [] {
      var n := |s| - 1;
      var init, last := s[..n], s[n];
      FilterKeepsDistinct(init, p, key);
      var f := Filter(init, p);
      assert forall i, j :: 0 <= i < j < |f| ==> key(f[i]) != key(f[j]);
      if p(last) {
        forall i | 0 <= i < |f| ensures key(f[i]) != key(last) {
          var m :| 0 <= m < n && init[m] == f[i];
          assert s[m] == f[i];
        }
        assert Filter(s, p) == f + [last];
      } else {
        assert Filter(s, p) == f;
      }
    }
  }

  /** A sum over three elements, written out. */
  lemma SumOfThree<T>(s: seq<T>, f: T -> real)
    requires |s| == 3
    ensures Sum(s, f) == f(s[0]) + f(s[1]) + f(s[2])
  {
    assert Sum(s, f) == Sum(s[..2], f) + f(s[2]);
    assert s[..2][..1] == s[..1] && s[..2][1] == s[1];
    assert Sum(s[..2], f) == Sum(s[..1], f) + f(s[1]);
    assert s[..1][..0] == [];
    assert Sum(s[..1], f) == f(s[0]);
  }

  lemma SumAppend<T>(s: seq<T>, x: T, f: T -> real)
    ensures Sum(s + [x], f) == Sum(s, f) + f(x)
  {
    assert (s + [x])[..|s|] == s;
  }

  lemma SumWhereAppend<T>(s: seq<T>, x: T, p: T -> bool, f: T -> real)
    ensures SumWhere(s + [x], p, f) == SumWhere(s, p, f) + (if p(x) then f(x) else 0.0)
  {
    assert (s + [x])[..|s|] == s;
  }

  /** Summing over a filter is summing where the filter's test holds. */
  lemma {:induction false} SumOfFilter<T>(s: seq<T>, p: T -> bool, f: T -> real)
    ensures Sum(Filter(s, p), f) == SumWhere(s, p, f)
  {
    if s != [] {
      var init, last := s[..|s| - 1], s[|s| - 1];
      SumOfFilter(init, p, f);
      if p(last) {
        SumAppend(Filter(init, p), last, f);
      } else {
        assert Filter(s, p) == Filter(init, p);
      }
    }
  }

  /** A test splits a sum in two: the elements that pass and the ones that do not. */
  lemma {:induction false} SumPartition<T>(s: seq<T>, p: T -> bool, f: T -> real)
    ensures Sum(s, f) == SumWhere(s, p, f) + SumWhere(s, x => !p(x), f)
  {
    if s != [] {
      SumPartition(s[..|s| - 1], p, f);
    }
  }

  /** A test that fails on exactly one element sums everything but that element. */
  lemma {:induction false} SumWhereAllBut<T>(s: seq<T>, p: T -> bool, f: T -> real, k: int)
    requires 0 <= k < |s| && !p(s[k])
    requires forall i :: 0 <= i < |s| && i != k ==> p(s[i])
    ensures SumWhere(s, p, f) == Sum(s, f) - f(s[k])
  {
    var n := |s| - 1;
    if k < n {
      SumWhereAllBut(s[..n], p, f, k);
    } else {
      SumWhereAll(s[..n], p, f);
    }
  }

  /** A test no element passes contributes nothing. */
  lemma {:induction false} SumWhereNone<T>(s: seq<T>, p: T -> bool, f: T -> real)
    requires forall i :: 0 <= i < |s| ==> !p(s[i])
    ensures SumWhere(s, p, f) == 0.0
  {
    if s != [] {
      SumWhereNone(s[..|s| - 1], p, f);
    }
  }

  /** Two tests that agree on every element give the same sum. */
  lemma {:induction false} SumWhereCongruent<T>(s: seq<T>, p: T -> bool, q: T -> bool, f: T -> real)
    requires forall i :: 0 <= i < |s| ==> p(s[i]) == q(s[i])
    ensures SumWhere(s, p, f) == SumWhere(s, q, f)
  {
    if s != [] {
      SumWhereCongruent(s[..|s| - 1], p, q, f);
    }
  }

  /** A test every element passes keeps the whole sum. */
  lemma {:induction false} SumWhereAll<T>(s: seq<T>, p: T -> bool, f: T -> real)
    requires forall i :: 0 <= i < |s| ==> p(s[i])
    ensures SumWhere(s, p, f) == Sum(s, f)
  {
    if s != [] {
      SumWhereAll(s[..|s| - 1], p, f);
    }
  }

  /** Two sequences that agree element by element on the test and the amount have the same sum. */
  lemma {:induction false} SumWhereTransfer<A, B>(s: seq<A>, t: seq<B>, p: A -> bool, q: B -> bool, f: A -> real, g: B -> real)
    requires |s| == |t|
    requires forall i :: 0 <= i < |s| ==> q(t[i]) == p(s[i]) && g(t[i]) == f(s[i])
    ensures SumWhere(t, q, g) == SumWhere(s, p, f)
  {
    if s != [] {
      SumWhereTransfer(s[..|s| - 1], t[..|t| - 1], p, q, f, g);
    }
  }


  ghost predicate StrictOrder<T(!new)>(above: (T, T) -> bool) {
    (forall a :: !above(a, a)) && (forall a, b, c :: above(a, b) && above(b, c) ==> above(a, c))
  }

  /**
   * An element satisfying `p` that no other such element is above, or none
   * when no element satisfies `p`; a later element replaces the current one
   * only when it is above it.
   */
  function MaxWhere<T(!new)>(s: seq<T>, p: T -> bool, above: (T, T) -> bool): (r: Option<T>)
    requires StrictOrder(above)
    ensures r.None? <==> forall i :: 0 <= i < |s| ==> !p(s[i])
    ensures r.Some? ==> r.value in s && p(r.value)
    ensures r.Some? ==> forall i :: 0 <= i < |s| && p(s[i]) ==> !above(s[i], r.value)
  {
    if s == [] then None
    else
      var rest := MaxWhere(s[..|s| - 1], p, above);
      var x := s[|s| - 1];
      if !p(x) then rest
      else if rest.None? || above(x, rest.value) then Some(x)
      else rest
  }

  /**
   * Two sequences that agree element by element on the test and pairwise on
   * the order pick the greatest element at the same position.
   */
  lemma {:induction false} MaxWhereTransfer<A(!new), B(!new)>(s: seq<A>, t: seq<B>, p: A -> bool, q: B -> bool,
                                                              aboveA: (A, A) -> bool, aboveB: (B, B) -> bool)
    requires StrictOrder(aboveA) && StrictOrder(aboveB) && |s| == |t|
    requires forall i :: 0 <= i < |s| ==> q(t[i]) == p(s[i])
    requires forall i, j :: 0 <= i < |s| && 0 <= j < |s| ==> aboveB(t[i], t[j]) == aboveA(s[i], s[j])
    ensures MaxWhere(t, q, aboveB).None? <==> MaxWhere(s, p, aboveA).None?
    ensures MaxWhere(s, p, aboveA).Some? ==>
      exists i :: 0 <= i < |s| && s[i] == MaxWhere(s, p, aboveA).value && t[i] == MaxWhere(t, q, aboveB).value
  {
    if s != [] {
      var n := |s| - 1;
      MaxWhereTransfer(s[..n], t[..n], p, q, aboveA, aboveB);
      var rs, rt := MaxWhere(s[..n], p, aboveA), MaxWhere(t[..n], q, aboveB);
      if rs.Some? {
        var i :| 0 <= i < n && s[..n][i] == rs.value && t[..n][i] == rt.value;
        assert aboveB(t[n], t[i]) == aboveA(s[n], s[i]);
        if !p(s[n]) || !aboveA(s[n], s[i]) {
          assert s[i] == MaxWhere(s, p, aboveA).value && t[i] == MaxWhere(t, q, aboveB).value;
        }
      }
    }
  }
}
