/** Cardinality facts about finite sets of pairs, used to show that the
    symmetrised distance table covers every ordered pair of the alphabet. */
module Counting {

  /** No element occurs twice in `s`. */
  predicate Distinct<T(==)>(s: seq<T>)
  {
    forall i, j :: 0 <= i < j < |s| ==> s[i] != s[j]
  }

  /** All ordered pairs whose first component is drawn from `xs` and second from `ys`. */
  function Product<T(==)>(xs: seq<T>, ys: seq<T>): set<(T, T)>
  {
    set x, y | x in xs && y in ys :: (x, y)
  }

  /** The pairs `(x, y)` for one fixed `x`. */
  function RowOf<T(==)>(x: T, ys: seq<T>): set<(T, T)>
  {
    set y | y in ys :: (x, y)
  }

  /** The pairs `(x, x)` for every `x` in `xs`. */
  function DiagonalOf<T(==)>(xs: seq<T>): set<(T, T)>
  {
    set x | x in xs :: (x, x)
  }

  lemma DistinctPrefix<T>(s: seq<T>)
    requires Distinct(s) && |s| > 0
    ensures Distinct(s[..|s| - 1]) && s[|s| - 1] !in s[..|s| - 1]
  {
  }

  lemma {:induction false} RowOfCard<T>(x: T, ys: seq<T>)
    requires Distinct(ys)
    ensures |RowOf(x, ys)| == |ys|
    decreases |ys|
  {
    if ys != [] {
      var n := |ys| - 1;
      DistinctPrefix(ys);
      RowOfCard(x, ys[..n]);
      assert ys == ys[..n] + [ys[n]];
      assert RowOf(x, ys) == RowOf(x, ys[..n]) + {(x, ys[n])};
    }
  }

  lemma {:induction false} DiagonalOfCard<T>(xs: seq<T>)
    requires Distinct(xs)
    ensures |DiagonalOf(xs)| == |xs|
    decreases |xs|
  {
    if xs != [] {
      var n := |xs| - 1;
      DistinctPrefix(xs);
      DiagonalOfCard(xs[..n]);
      assert xs == xs[..n] + [xs[n]];
      assert DiagonalOf(xs) == DiagonalOf(xs[..n]) + {(xs[n], xs[n])};
    }
  }

  /** The product of two duplicate-free sequences has |xs| * |ys| pairs. */
  lemma {:induction false} ProductCard<T>(xs: seq<T>, ys: seq<T>)
    requires Distinct(xs) && Distinct(ys)
    ensures |Product(xs, ys)| == |xs| * |ys|
    decreases |xs|
  {
    if xs != [] {
      var n := |xs| - 1;
      var x := xs[n];
      DistinctPrefix(xs);
      ProductCard(xs[..n], ys);
      RowOfCard(x, ys);
      ProductSplit(xs, ys);
      MulSucc(n, |ys|);
    }
  }

  lemma MulSucc(n: nat, m: nat)
    ensures (n + 1) * m == n * m + m
  {
  }

  lemma ProductSplit<T>(xs: seq<T>, ys: seq<T>)
    requires Distinct(xs) && xs != []
    ensures var n := |xs| - 1;
      && Product(xs, ys) == Product(xs[..n], ys) + RowOf(xs[n], ys)
      && Product(xs[..n], ys) * RowOf(xs[n], ys) == {}
  {
    var n := |xs| - 1;
    assert xs == xs[..n] + [xs[n]];
    forall p | p in Product(xs, ys)
      ensures p in Product(xs[..n], ys) + RowOf(xs[n], ys)
    {
      var x, y :| x in xs && y in ys && p == (x, y);
      if x != xs[n] {
        assert x in xs[..n];
      }
    }
    forall p | p in Product(xs[..n], ys)
      ensures p in Product(xs, ys) && p !in RowOf(xs[n], ys)
    {
      var x, y :| x in xs[..n] && y in ys && p == (x, y);
      DistinctPrefix(xs);
    }
  }

  /** A subset as large as its superset is the superset. */
  lemma SubsetOfSameSize<T>(a: set<T>, b: set<T>)
    requires a <= b && |a| == |b|
    ensures a == b
  {
    assert a + (b - a) == b && a * (b - a) == {};
    assert b - a == {};
  }
}
