/** The distance table the calculator builds once at start-up, its lookup,
    and what the page can observe through the two three-letter selections. */
module Grantham {
  import opened Counting
  import opened GranthamTable
  import opened GranthamData
  import opened AminoCodes

  datatype Option<T> = None | Some(value: T)

  /** The symmetric table: the half matrix mirrored, with 0 on the diagonal. */
  const SymmetricGrantham: map<Pair, nat> := Symmetrised(HalfMatrix, AminoAcids)

  /** The table is defined on exactly the 20 * 20 = 400 ordered pairs of codes. */
  lemma SymmetricGranthamKeys()
    ensures SymmetricGrantham.Keys == Product(AminoAcids, AminoAcids)
    ensures |SymmetricGrantham| == 400
  {
    HalfMatrixWellFormed();
    AminoAcidsDistinct();
    HalfMatrixUnambiguous(HalfMatrix, AminoAcids);
    SymmetrisedCoversProduct(HalfMatrix, AminoAcids);
  }

  /** Runs the two start-up loops on the published half matrix. */
  method BuildGranthamTable() returns (table: map<Pair, nat>)
    ensures table == SymmetricGrantham
    ensures table.Keys == Product(AminoAcids, AminoAcids) && |table| == 400
  {
    table := BuildSymmetric(HalfMatrix, AminoAcids);
    SymmetricGranthamKeys();
  }

  /** The distance between wild type `wt` and mutant `mu`, or None when the
      table has no entry for the pair. */
  function GranthamScore(wt: char, mu: char): (r: Option<nat>)
    ensures r.Some? <==> wt in AminoAcids && mu in AminoAcids
  {
    SymmetricGranthamKeys();
    assert wt in AminoAcids && mu in AminoAcids ==> (wt, mu) in Product(AminoAcids, AminoAcids);
    if (wt, mu) in SymmetricGrantham then Some(SymmetricGrantham[(wt, mu)]) else None
  }

  /** Swapping wild type and mutant never changes the answer. */
  lemma ScoreSymmetric(a: char, b: char)
    ensures GranthamScore(a, b) == GranthamScore(b, a)
  {
    assert Swap((a, b)) == (b, a);
  }

  /** An amino acid is at distance 0 from itself. */
  lemma ScoreZeroDiagonal(a: char)
    requires a in AminoAcids
    ensures GranthamScore(a, a) == Some(0)
  {
  }

  /** Each item of the half matrix is answered, in both orders, with its published distance. */
  lemma ScoreMatchesHalfMatrix(e: Entry)
    requires e in HalfMatrix
    ensures GranthamScore(e.0.0, e.0.1) == Some(e.1)
    ensures GranthamScore(e.0.1, e.0.0) == Some(e.1)
  {
    HalfMatrixWellFormed();
    HalfMatrixUnambiguous(HalfMatrix, AminoAcids);
    SymmetrisedPreserves(HalfMatrix, AminoAcids);
    var i :| 0 <= i < |HalfMatrix| && HalfMatrix[i] == e;
    assert e.0.0 < e.0.1;
    assert e.0 !in DiagonalOf(AminoAcids);
  }

  /** Three distances of the published table, read in both orders. */
  lemma SpotValues()
    ensures GranthamScore('A', 'C') == Some(195) && GranthamScore('C', 'A') == Some(195)
    ensures GranthamScore('I', 'L') == Some(5) && GranthamScore('L', 'I') == Some(5)
    ensures GranthamScore('W', 'Y') == Some(37) && GranthamScore('Y', 'W') == Some(37)
  {
    assert (('A', 'C'), 195) in RowA;
    ScoreMatchesHalfMatrix((('A', 'C'), 195));
    assert (('I', 'L'), 5) in RowI;
    ScoreMatchesHalfMatrix((('I', 'L'), 5));
    assert (('W', 'Y'), 37) in RowW;
    ScoreMatchesHalfMatrix((('W', 'Y'), 37));
  }

  /** Both selectors offer only the 20 three-letter names, so a selection
      from the page always has a score and the "no score found" warning is
      never shown. */
  lemma SelectionAlwaysScored(wildtypeSel: string, mutantSel: string)
    requires wildtypeSel in AaLookup.Values && mutantSel in AaLookup.Values
    ensures GranthamScore(OneLetterFrom3Letter(wildtypeSel), OneLetterFrom3Letter(mutantSel)).Some?
  {
    AaLookupKeys();
  }

  /** Selecting "Ala" and "Cys" reports 195. */
  lemma AlaCysScore()
    ensures "Ala" in AaLookup.Values && "Cys" in AaLookup.Values
    ensures GranthamScore(OneLetterFrom3Letter("Ala"), OneLetterFrom3Letter("Cys")) == Some(195)
  {
    assert AaLookup['A'] == "Ala" && AaLookup['C'] == "Cys";
    OneLetterRoundTrip('A');
    OneLetterRoundTrip('C');
    SpotValues();
  }
}
