/** The symmetric distance table: how a half matrix of amino-acid pairs is
    mirrored into both orderings and completed with zero self-distances,
    stated for any half matrix and any alphabet. */
module GranthamTable {
  import opened Counting

  /** An ordered pair of one-letter codes: a key of the distance table. */
  type Pair = (char, char)

  /** One item of a half matrix: a pair of codes and its distance. */
  type Entry = (Pair, nat)

  /** The same pair in the other order. */
  function Swap(p: Pair): (q: Pair)
    ensures q == p <==> p.0 == p.1
  {
    (p.1, p.0)
  }

  /** The pairs a half matrix gives a distance for. */
  function KeySet(items: seq<Entry>): set<Pair>
  {
    set e | e in items :: e.0
  }

  /** Every item of the half matrix with its pair reversed. */
  function Mirrored(items: seq<Entry>): seq<Entry>
  {
    seq(|items|, i requires 0 <= i < |items| => (Swap(items[i].0), items[i].1))
  }

  /** Every pair of the table has its reverse in the table, with the same distance. */
  ghost predicate Symmetric(table: map<Pair, nat>)
  {
    forall p :: p in table ==> Swap(p) in table && table[Swap(p)] == table[p]
  }

  /** No pair occurs twice in the half matrix, as the keys of a dict. */
  predicate DistinctKeys(items: seq<Entry>)
  {
    forall i, j :: 0 <= i < j < |items| ==> items[i].0 != items[j].0
  }

  /** No pair occurs twice in the half matrix, in either orientation. */
  predicate Unambiguous(items: seq<Entry>)
  {
    forall i, j :: 0 <= i < j < |items| ==> items[j].0 != items[i].0 && items[j].0 != Swap(items[i].0)
  }

  /** The table after the first loop has written every item, in order, under
      its pair and under the reversed pair. */
  function Mirror(items: seq<Entry>): (m: map<Pair, nat>)
    ensures items != [] ==>
      var (p, v) := items[|items| - 1];
      p in m && m[p] == v && Swap(p) in m && m[Swap(p)] == v
    decreases |items|
  {
    if items == [] then map[]
    else
      var (p, v) := items[|items| - 1];
      Mirror(items[..|items| - 1])[p := v][Swap(p) := v]
  }

  /** Mirroring gives a distance for exactly the pairs of the half matrix and their reverses. */
  lemma {:induction false} MirrorKeys(items: seq<Entry>)
    ensures Mirror(items).Keys == KeySet(items) + KeySet(Mirrored(items))
    decreases |items|
  {
    if items != [] {
      var n := |items| - 1;
      var prefix, last := items[..n], items[n];
      MirrorKeys(prefix);
      assert Mirror(items).Keys == Mirror(prefix).Keys + {last.0, Swap(last.0)};
      assert items == prefix + [last];
      assert KeySet(items) == KeySet(prefix) + {last.0};
      assert Mirrored(items) == Mirrored(prefix) + [(Swap(last.0), last.1)];
      assert KeySet(Mirrored(items)) == KeySet(Mirrored(prefix)) + {Swap(last.0)};
    }
  }

  /** Each step writes one distance under both orders of its pair, so the
      mirrored table is symmetric whatever the half matrix holds. */
  lemma {:induction false} MirrorSymmetric(items: seq<Entry>)
    ensures Symmetric(Mirror(items))
    decreases |items|
  {
    if items != [] {
      var n := |items| - 1;
      MirrorSymmetric(items[..n]);
    }
  }

  /** `m` with the distance of every self-pair of the alphabet set to 0. */
  function WithDiagonal(m: map<Pair, nat>, alphabet: seq<char>): (r: map<Pair, nat>)
    ensures r.Keys == m.Keys + DiagonalOf(alphabet)
    ensures forall a :: a in alphabet ==> (a, a) in r && r[(a, a)] == 0
    ensures forall p :: p in m && p !in DiagonalOf(alphabet) ==> r[p] == m[p]
  {
    m + map p | p in DiagonalOf(alphabet) :: 0
  }

  /** The table the builder produces from a half matrix and an alphabet. */
  function Symmetrised(items: seq<Entry>, alphabet: seq<char>): (t: map<Pair, nat>)
    ensures t.Keys == KeySet(items) + KeySet(Mirrored(items)) + DiagonalOf(alphabet)
    ensures Symmetric(t)
    ensures forall a :: a in alphabet ==> (a, a) in t && t[(a, a)] == 0
  {
    MirrorKeys(items);
    MirrorSymmetric(items);
    var t := WithDiagonal(Mirror(items), alphabet);
    assert forall a :: a in alphabet ==> (a, a) in DiagonalOf(alphabet);
    t
  }

  /** Without a repeated or reversed pair, mirroring keeps every distance of
      the half matrix, in both orders. */
  lemma {:induction false} MirrorPreserves(items: seq<Entry>)
    requires Unambiguous(items)
    ensures forall e :: e in items ==>
      && e.0 in Mirror(items) && Mirror(items)[e.0] == e.1
      && Swap(e.0) in Mirror(items) && Mirror(items)[Swap(e.0)] == e.1
    decreases |items|
  {
    if items != [] {
      var n := |items| - 1;
      var prefix := items[..n];
      var last := items[n];
      assert Unambiguous(prefix);
      MirrorPreserves(prefix);
      var prev := Mirror(prefix);
      assert Mirror(items) == prev[last.0 := last.1][Swap(last.0) := last.1];
      forall e | e in items
        ensures e.0 in Mirror(items) && Mirror(items)[e.0] == e.1
        ensures Swap(e.0) in Mirror(items) && Mirror(items)[Swap(e.0)] == e.1
      {
        var i :| 0 <= i < |items| && items[i] == e;
        if i < n {
          assert prefix[i] == e;
          assert e.0 != last.0 && e.0 != Swap(last.0);
        }
      }
    }
  }


  /** The built table keeps every distance of the half matrix in both orders,
      except on self-pairs of the alphabet, where the later 0 wins. */
  lemma SymmetrisedPreserves(items: seq<Entry>, alphabet: seq<char>)
    requires Unambiguous(items)
    ensures forall e :: e in items && e.0 !in DiagonalOf(alphabet) ==>
      Symmetrised(items, alphabet)[e.0] == e.1 && Symmetrised(items, alphabet)[Swap(e.0)] == e.1
  {
    MirrorPreserves(items);
  }

  lemma DiagonalStep(m: map<Pair, nat>, alphabet: seq<char>, j: nat)
    requires j < |alphabet|
    ensures WithDiagonal(m, alphabet[..j + 1]) == WithDiagonal(m, alphabet[..j])[(alphabet[j], alphabet[j]) := 0]
  {
    assert alphabet[..j + 1] == alphabet[..j] + [alphabet[j]];
    assert DiagonalOf(alphabet[..j + 1]) == DiagonalOf(alphabet[..j]) + {(alphabet[j], alphabet[j])};
  }

  /** Lexicographic order on pairs of codes. */
  predicate Before(p: Pair, q: Pair)
  {
    p.0 < q.0 || (p.0 == q.0 && p.1 < q.1)
  }

  /** The item at `i` and the one after it are in ascending order. */
  predicate OrderedAt(items: seq<Entry>, i: int)
    requires 0 <= i < |items| - 1
  {
    Before(items[i].0, items[i + 1].0)
  }

  /** Each pair of the half matrix comes strictly after the one before it. */
  predicate Ascending(items: seq<Entry>)
  {
    forall i :: 0 <= i < |items| - 1 ==> OrderedAt(items, i)
  }

  /** Each pair `(a1, a2)` of the half matrix has both codes in the alphabet and `a1 < a2`. */
  predicate AboveDiagonal(items: seq<Entry>, alphabet: seq<char>)
  {
    forall i :: 0 <= i < |items| ==> items[i].0.0 in alphabet && items[i].0.1 in alphabet && items[i].0.0 < items[i].0.1
  }

  lemma AscendingAppend(s: seq<Entry>, t: seq<Entry>)
    requires Ascending(s) && Ascending(t)
    requires s != [] && t != [] ==> Before(s[|s| - 1].0, t[0].0)
    ensures Ascending(s + t)
    ensures t != [] ==> (s + t)[|s + t| - 1] == t[|t| - 1]
  {
    forall i | 0 <= i < |s + t| - 1
      ensures OrderedAt(s + t, i)
    {
      if i < |s| - 1 {
        assert OrderedAt(s, i);
      } else if i == |s| - 1 {
        assert (s + t)[i] == s[|s| - 1] && (s + t)[i + 1] == t[0];
      } else {
        assert OrderedAt(t, i - |s|);
        assert (s + t)[i] == t[i - |s|] && (s + t)[i + 1] == t[i + 1 - |s|];
      }
    }
  }

  lemma AboveDiagonalAppend(s: seq<Entry>, t: seq<Entry>, alphabet: seq<char>)
    requires AboveDiagonal(s, alphabet) && AboveDiagonal(t, alphabet)
    ensures AboveDiagonal(s + t, alphabet)
  {
    forall i | 0 <= i < |s + t|
      ensures (s + t)[i].0.0 in alphabet && (s + t)[i].0.1 in alphabet && (s + t)[i].0.0 < (s + t)[i].0.1
    {
      if i >= |s| {
        assert (s + t)[i] == t[i - |s|];
      }
    }
  }

  /** An ascending half matrix is ordered between any two of its items, not only neighbours. */
  lemma {:induction false} AscendingOrdered(items: seq<Entry>)
    requires Ascending(items)
    ensures forall i, j :: 0 <= i < j < |items| ==> Before(items[i].0, items[j].0)
    decreases |items|
  {
    if items != [] {
      var n := |items| - 1;
      var prefix := items[..n];
      assert Ascending(prefix) by {
        forall i | 0 <= i < |prefix| - 1 ensures OrderedAt(prefix, i) {
          assert OrderedAt(items, i);
        }
      }
      AscendingOrdered(prefix);
      forall i, j | 0 <= i < j < |items|
        ensures Before(items[i].0, items[j].0)
      {
        assert OrderedAt(items, n - 1);
        if j == n && i < n - 1 {
          assert Before(prefix[i].0, prefix[n - 1].0);
        }
      }
    }
  }

  /** A half matrix written above the diagonal in ascending order holds no
      pair twice in either orientation. */
  lemma HalfMatrixUnambiguous(items: seq<Entry>, alphabet: seq<char>)
    requires Ascending(items) && AboveDiagonal(items, alphabet)
    ensures Unambiguous(items) && DistinctKeys(items)
  {
    AscendingOrdered(items);
  }

  /** Without repeated pairs, a half matrix names as many pairs as it has items. */
  lemma {:induction false} KeySetCard(items: seq<Entry>)
    requires DistinctKeys(items)
    ensures |KeySet(items)| == |items|
    decreases |items|
  {
    if items != [] {
      var n := |items| - 1;
      KeySetCard(items[..n]);
      assert items == items[..n] + [items[n]];
      assert KeySet(items) == KeySet(items[..n]) + {items[n].0};
      assert items[n].0 !in KeySet(items[..n]);
    }
  }

  /** The pairs above, below and on the diagonal are disjoint, so the table
      has one entry per item, one per mirrored item and one per code. */
  lemma SymmetrisedCard(items: seq<Entry>, alphabet: seq<char>)
    requires DistinctKeys(items) && AboveDiagonal(items, alphabet) && Distinct(alphabet)
    ensures KeySet(items) * KeySet(Mirrored(items)) == {}
    ensures (KeySet(items) + KeySet(Mirrored(items))) * DiagonalOf(alphabet) == {}
    ensures |Symmetrised(items, alphabet)| == 2 * |items| + |alphabet|
  {
    var upper, lower, diagonal := KeySet(items), KeySet(Mirrored(items)), DiagonalOf(alphabet);
    KeySetCard(items);
    assert DistinctKeys(Mirrored(items)) by {
      forall i, j | 0 <= i < j < |items|
        ensures Mirrored(items)[i].0 != Mirrored(items)[j].0
      {
        assert items[i].0 != items[j].0;
      }
    }
    KeySetCard(Mirrored(items));
    DiagonalOfCard(alphabet);
    assert forall p :: p in upper ==> p.0 < p.1 by {
      forall p | p in upper ensures p.0 < p.1 {
        var e :| e in items && e.0 == p;
      }
    }
    assert forall p :: p in lower ==> p.1 < p.0 by {
      forall p | p in lower ensures p.1 < p.0 {
        var e :| e in Mirrored(items) && e.0 == p;
      }
    }
    assert upper * lower == {};
    assert (upper + lower) * diagonal == {};
    assert |Symmetrised(items, alphabet).Keys| == |upper + lower + diagonal|;
  }

  /** Every pair the table names is made of two codes of the alphabet. */
  lemma SymmetrisedWithinProduct(items: seq<Entry>, alphabet: seq<char>)
    requires AboveDiagonal(items, alphabet)
    ensures KeySet(items) + KeySet(Mirrored(items)) + DiagonalOf(alphabet) <= Product(alphabet, alphabet)
  {
    forall p | p in KeySet(items) + KeySet(Mirrored(items)) + DiagonalOf(alphabet)
      ensures p in Product(alphabet, alphabet)
    {
      if p in KeySet(items) {
        var e :| e in items && e.0 == p;
      } else if p in KeySet(Mirrored(items)) {
        var e :| e in Mirrored(items) && e.0 == p;
      }
    }
  }

  /** A half matrix over an alphabet of n distinct codes that holds all
      n * (n - 1) / 2 pairs above the diagonal yields a table defined on
      exactly the n * n ordered pairs of the alphabet. */
  lemma SymmetrisedCoversProduct(items: seq<Entry>, alphabet: seq<char>)
    requires DistinctKeys(items) && AboveDiagonal(items, alphabet) && Distinct(alphabet)
    requires 2 * |items| + |alphabet| == |alphabet| * |alphabet|
    ensures Symmetrised(items, alphabet).Keys == Product(alphabet, alphabet)
    ensures |Symmetrised(items, alphabet)| == |alphabet| * |alphabet|
  {
    SymmetrisedCard(items, alphabet);
    SymmetrisedWithinProduct(items, alphabet);
    ProductCard(alphabet, alphabet);
    SubsetOfSameSize(KeySet(items) + KeySet(Mirrored(items)) + DiagonalOf(alphabet), Product(alphabet, alphabet));
  }

  /** Builds the symmetric table: the first loop writes each item of the half
      matrix under both orderings of its pair, the second loop writes 0 for
      every self-pair of the alphabet. */
  method BuildSymmetric(items: seq<Entry>, alphabet: seq<char>) returns (table: map<Pair, nat>)
    ensures table == Symmetrised(items, alphabet)
    ensures table.Keys == KeySet(items) + KeySet(Mirrored(items)) + DiagonalOf(alphabet)
    ensures forall p :: p in table ==> Swap(p) in table && table[Swap(p)] == table[p]
    ensures forall a :: a in alphabet ==> (a, a) in table && table[(a, a)] == 0
    ensures Unambiguous(items) ==>
      forall e :: e in items && e.0 !in DiagonalOf(alphabet) ==> table[e.0] == e.1 && table[Swap(e.0)] == e.1
  {
    table := map[];
    for i := 0 to |items|
      invariant table == Mirror(items[..i])
    {
      var (pair, val) := items[i];
      assert items[..i + 1][..i] == items[..i];
      table := table[pair := val];
      table := table[(pair.1, pair.0) := val];
    }
    assert items[..|items|] == items;
    ghost var mirrored := table;
    for j := 0 to |alphabet|
      invariant table == WithDiagonal(mirrored, alphabet[..j])
    {
      var aa := alphabet[j];
      DiagonalStep(mirrored, alphabet, j);
      table := table[(aa, aa) := 0];
    }
    assert alphabet[..|alphabet|] == alphabet;
    if Unambiguous(items) {
      SymmetrisedPreserves(items, alphabet);
    }
  }
}
