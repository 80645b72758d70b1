/** The published Grantham distances between the 20 standard amino acids,
    as a half matrix over their one-letter codes, and the facts about its
    shape that the table construction relies on. */
module GranthamData {
  import opened Counting
  import opened GranthamTable

  /** The alphabet of one-letter codes, in the order the diagonal is written. */
  const AminoAcids: string := "ACDEFGHIKLMNPQRSTVWY"

  /** Membership in the alphabet, spelled out letter by letter. */
  predicate IsAminoAcid(c: char)
  {
    c == 'A' || c == 'C' || c == 'D' || c == 'E' || c == 'F'
    || c == 'G' || c == 'H' || c == 'I' || c == 'K' || c == 'L'
    || c == 'M' || c == 'N' || c == 'P' || c == 'Q' || c == 'R'
    || c == 'S' || c == 'T' || c == 'V' || c == 'W' || c == 'Y'
  }

  lemma AminoAcidsMembership()
    ensures forall c :: c in AminoAcids <==> IsAminoAcid(c)
  {
  }

  /** The code at `i` is below the one after it. */
  predicate CodeOrderedAt(s: string, i: int)
    requires 0 <= i < |s| - 1
  {
    s[i] < s[i + 1]
  }

  lemma {:induction false} AscendingCodesOrdered(s: string)
    requires forall i :: 0 <= i < |s| - 1 ==> CodeOrderedAt(s, i)
    ensures forall i, j :: 0 <= i < j < |s| ==> s[i] < s[j]
    decreases |s|
  {
    if |s| > 1 {
      var n := |s| - 1;
      var prefix := s[..n];
      forall i | 0 <= i < |prefix| - 1
        ensures CodeOrderedAt(prefix, i)
      {
        assert CodeOrderedAt(s, i);
      }
      AscendingCodesOrdered(prefix);
      forall i, j | 0 <= i < j < |s|
        ensures s[i] < s[j]
      {
        assert CodeOrderedAt(s, n - 1);
        if j == n && i < n - 1 {
          assert prefix[i] < prefix[n - 1];
        }
      }
    }
  }

  /** The alphabet is written in ascending order, so no code occurs twice. */
  lemma AminoAcidsDistinct()
    ensures Distinct(AminoAcids)
  {
    assert forall i :: 0 <= i < |AminoAcids| - 1 ==> CodeOrderedAt(AminoAcids, i);
    AscendingCodesOrdered(AminoAcids);
  }

  /** The half matrix, one row per first code, in the order the items are
      listed: each item is a pair `(a1, a2)` with `a1 < a2` and its distance. */
  const RowA: seq<Entry> := [
    (('A', 'C'), 195), (('A', 'D'), 126), (('A', 'E'), 107), (('A', 'F'), 113), (('A', 'G'), 60), (('A', 'H'), 86),
    (('A', 'I'), 94), (('A', 'K'), 106), (('A', 'L'), 96), (('A', 'M'), 84), (('A', 'N'), 111), (('A', 'P'), 27),
    (('A', 'Q'), 91), (('A', 'R'), 112), (('A', 'S'), 99), (('A', 'T'), 58), (('A', 'V'), 64), (('A', 'W'), 148),
    (('A', 'Y'), 112)
  ]
  const RowC: seq<Entry> := [
    (('C', 'D'), 154), (('C', 'E'), 170), (('C', 'F'), 205), (('C', 'G'), 159), (('C', 'H'), 174), (('C', 'I'), 198),
    (('C', 'K'), 202), (('C', 'L'), 198), (('C', 'M'), 196), (('C', 'N'), 139), (('C', 'P'), 169), (('C', 'Q'), 154),
    (('C', 'R'), 180), (('C', 'S'), 112), (('C', 'T'), 149), (('C', 'V'), 192), (('C', 'W'), 215), (('C', 'Y'), 194)
  ]
  const RowD: seq<Entry> := [
    (('D', 'E'), 45), (('D', 'F'), 177), (('D', 'G'), 94), (('D', 'H'), 81), (('D', 'I'), 168), (('D', 'K'), 101),
    (('D', 'L'), 172), (('D', 'M'), 160), (('D', 'N'), 23), (('D', 'P'), 108), (('D', 'Q'), 61), (('D', 'R'), 96),
    (('D', 'S'), 65), (('D', 'T'), 85), (('D', 'V'), 152), (('D', 'W'), 181), (('D', 'Y'), 160)
  ]
  const RowE: seq<Entry> := [
    (('E', 'F'), 140), (('E', 'G'), 98), (('E', 'H'), 40), (('E', 'I'), 134), (('E', 'K'), 56), (('E', 'L'), 138),
    (('E', 'M'), 126), (('E', 'N'), 42), (('E', 'P'), 93), (('E', 'Q'), 29), (('E', 'R'), 54), (('E', 'S'), 80),
    (('E', 'T'), 65), (('E', 'V'), 121), (('E', 'W'), 152), (('E', 'Y'), 122)
  ]
  const RowF: seq<Entry> := [
    (('F', 'G'), 153), (('F', 'H'), 100), (('F', 'I'), 21), (('F', 'K'), 102), (('F', 'L'), 22), (('F', 'M'), 28),
    (('F', 'N'), 158), (('F', 'P'), 114), (('F', 'Q'), 116), (('F', 'R'), 97), (('F', 'S'), 155), (('F', 'T'), 103),
    (('F', 'V'), 50), (('F', 'W'), 40), (('F', 'Y'), 22)
  ]
  const RowG: seq<Entry> := [
    (('G', 'H'), 98), (('G', 'I'), 135), (('G', 'K'), 127), (('G', 'L'), 138), (('G', 'M'), 127), (('G', 'N'), 80),
    (('G', 'P'), 42), (('G', 'Q'), 87), (('G', 'R'), 125), (('G', 'S'), 56), (('G', 'T'), 59), (('G', 'V'), 109),
    (('G', 'W'), 184), (('G', 'Y'), 147)
  ]
  const RowH: seq<Entry> := [
    (('H', 'I'), 94), (('H', 'K'), 32), (('H', 'L'), 99), (('H', 'M'), 87), (('H', 'N'), 68), (('H', 'P'), 77),
    (('H', 'Q'), 24), (('H', 'R'), 29), (('H', 'S'), 89), (('H', 'T'), 47), (('H', 'V'), 84), (('H', 'W'), 115),
    (('H', 'Y'), 83)
  ]
  const RowI: seq<Entry> := [
    (('I', 'K'), 102), (('I', 'L'), 5), (('I', 'M'), 10), (('I', 'N'), 149), (('I', 'P'), 95), (('I', 'Q'), 109),
    (('I', 'R'), 97), (('I', 'S'), 142), (('I', 'T'), 89), (('I', 'V'), 29), (('I', 'W'), 61), (('I', 'Y'), 33)
  ]
  const RowK: seq<Entry> := [
    (('K', 'L'), 107), (('K', 'M'), 95), (('K', 'N'), 94), (('K', 'P'), 103), (('K', 'Q'), 53), (('K', 'R'), 26),
    (('K', 'S'), 121), (('K', 'T'), 78), (('K', 'V'), 97), (('K', 'W'), 110), (('K', 'Y'), 85)
  ]
  const RowL: seq<Entry> := [
    (('L', 'M'), 15), (('L', 'N'), 153), (('L', 'P'), 98), (('L', 'Q'), 113), (('L', 'R'), 102), (('L', 'S'), 145),
    (('L', 'T'), 92), (('L', 'V'), 32), (('L', 'W'), 61), (('L', 'Y'), 36)
  ]
  const RowM: seq<Entry> := [
    (('M', 'N'), 142), (('M', 'P'), 87), (('M', 'Q'), 101), (('M', 'R'), 91), (('M', 'S'), 135), (('M', 'T'), 81),
    (('M', 'V'), 21), (('M', 'W'), 67), (('M', 'Y'), 36)
  ]
  const RowN: seq<Entry> := [
    (('N', 'P'), 91), (('N', 'Q'), 46), (('N', 'R'), 86), (('N', 'S'), 46), (('N', 'T'), 65), (('N', 'V'), 133),
    (('N', 'W'), 174), (('N', 'Y'), 143)
  ]
  const RowP: seq<Entry> := [
    (('P', 'Q'), 76), (('P', 'R'), 103), (('P', 'S'), 74), (('P', 'T'), 38), (('P', 'V'), 68), (('P', 'W'), 147),
    (('P', 'Y'), 110)
  ]
  const RowQ: seq<Entry> := [
    (('Q', 'R'), 43), (('Q', 'S'), 68), (('Q', 'T'), 42), (('Q', 'V'), 96), (('Q', 'W'), 130), (('Q', 'Y'), 99)
  ]
  const RowR: seq<Entry> := [
    (('R', 'S'), 110), (('R', 'T'), 71), (('R', 'V'), 96), (('R', 'W'), 101), (('R', 'Y'), 77)
  ]
  const RowS: seq<Entry> := [
    (('S', 'T'), 58), (('S', 'V'), 64), (('S', 'W'), 177), (('S', 'Y'), 144)
  ]
  const RowT: seq<Entry> := [
    (('T', 'V'), 69), (('T', 'W'), 128), (('T', 'Y'), 92)
  ]
  const RowV: seq<Entry> := [
    (('V', 'W'), 88), (('V', 'Y'), 55)
  ]
  const RowW: seq<Entry> := [
    (('W', 'Y'), 37)
  ]

  const HalfMatrix: seq<Entry> :=
      RowA + RowC + RowD + RowE + RowF + RowG
      + RowH + RowI + RowK + RowL + RowM + RowN
      + RowP + RowQ + RowR + RowS + RowT + RowV
      + RowW

  /** Each pair of a row is above the diagonal and made of codes of the alphabet. */
  predicate RowCodes(row: seq<Entry>)
  {
    forall i :: 0 <= i < |row| ==> IsAminoAcid(row[i].0.0) && IsAminoAcid(row[i].0.1) && row[i].0.0 < row[i].0.1
  }

  lemma RowAboveDiagonal(row: seq<Entry>)
    requires RowCodes(row)
    ensures AboveDiagonal(row, AminoAcids)
  {
    AminoAcidsMembership();
  }

  lemma RowAWellFormed()
    ensures Ascending(RowA) && RowCodes(RowA)
  {
  }

  lemma RowCWellFormed()
    ensures Ascending(RowC) && RowCodes(RowC)
  {
  }

  lemma RowDWellFormed()
    ensures Ascending(RowD) && RowCodes(RowD)
  {
  }

  lemma RowEWellFormed()
    ensures Ascending(RowE) && RowCodes(RowE)
  {
  }

  lemma RowFWellFormed()
    ensures Ascending(RowF) && RowCodes(RowF)
  {
  }

  lemma RowGWellFormed()
    ensures Ascending(RowG) && RowCodes(RowG)
  {
  }

  lemma RowHWellFormed()
    ensures Ascending(RowH) && RowCodes(RowH)
  {
  }

  lemma RowIWellFormed()
    ensures Ascending(RowI) && RowCodes(RowI)
  {
  }

  lemma RowKWellFormed()
    ensures Ascending(RowK) && RowCodes(RowK)
  {
  }

  lemma RowLWellFormed()
    ensures Ascending(RowL) && RowCodes(RowL)
  {
  }

  lemma RowMWellFormed()
    ensures Ascending(RowM) && RowCodes(RowM)
  {
  }

  lemma RowNWellFormed()
    ensures Ascending(RowN) && RowCodes(RowN)
  {
  }

  lemma RowPWellFormed()
    ensures Ascending(RowP) && RowCodes(RowP)
  {
  }

  lemma RowQWellFormed()
    ensures Ascending(RowQ) && RowCodes(RowQ)
  {
  }

  lemma RowRWellFormed()
    ensures Ascending(RowR) && RowCodes(RowR)
  {
  }

  lemma RowSWellFormed()
    ensures Ascending(RowS) && RowCodes(RowS)
  {
  }

  lemma RowTWellFormed()
    ensures Ascending(RowT) && RowCodes(RowT)
  {
  }

  lemma RowVWellFormed()
    ensures Ascending(RowV) && RowCodes(RowV)
  {
  }

  lemma RowWWellFormed()
    ensures Ascending(RowW) && RowCodes(RowW)
  {
  }

  lemma Extend(prefix: seq<Entry>, row: seq<Entry>)
    requires Ascending(prefix) && AboveDiagonal(prefix, AminoAcids)
    requires Ascending(row) && AboveDiagonal(row, AminoAcids) && row != []
    requires prefix != [] ==> Before(prefix[|prefix| - 1].0, row[0].0)
    ensures Ascending(prefix + row) && AboveDiagonal(prefix + row, AminoAcids)
    ensures (prefix + row)[|prefix + row| - 1] == row[|row| - 1]
  {
    AscendingAppend(prefix, row);
    AboveDiagonalAppend(prefix, row, AminoAcids);
  }

  lemma RowsWellFormed0()
    ensures var rows := RowA + RowC + RowD + RowE + RowF;
      && Ascending(rows) && AboveDiagonal(rows, AminoAcids)
      && rows[|rows| - 1] == RowF[|RowF| - 1]
  {
    RowAWellFormed();
    RowAboveDiagonal(RowA);
    RowCWellFormed();
    RowAboveDiagonal(RowC);
    Extend(RowA, RowC);
    RowDWellFormed();
    RowAboveDiagonal(RowD);
    Extend(RowA + RowC, RowD);
    RowEWellFormed();
    RowAboveDiagonal(RowE);
    Extend(RowA + RowC + RowD, RowE);
    RowFWellFormed();
    RowAboveDiagonal(RowF);
    Extend(RowA + RowC + RowD + RowE, RowF);
  }

  lemma RowsWellFormed1()
    ensures var rows := RowA + RowC + RowD + RowE + RowF + RowG
      + RowH + RowI + RowK + RowL;
      && Ascending(rows) && AboveDiagonal(rows, AminoAcids)
      && rows[|rows| - 1] == RowL[|RowL| - 1]
  {
    RowsWellFormed0();
    RowGWellFormed();
    RowAboveDiagonal(RowG);
    Extend(RowA + RowC + RowD + RowE + RowF, RowG);
    RowHWellFormed();
    RowAboveDiagonal(RowH);
    Extend(RowA + RowC + RowD + RowE + RowF + RowG, RowH);
    RowIWellFormed();
    RowAboveDiagonal(RowI);
    Extend(RowA + RowC + RowD + RowE + RowF + RowG + RowH, RowI);
    RowKWellFormed();
    RowAboveDiagonal(RowK);
    Extend(RowA + RowC + RowD + RowE + RowF + RowG + RowH + RowI, RowK);
    RowLWellFormed();
    RowAboveDiagonal(RowL);
    Extend(RowA + RowC + RowD + RowE + RowF + RowG + RowH + RowI + RowK, RowL);
  }

  lemma RowsWellFormed2()
    ensures var rows := RowA + RowC + RowD + RowE + RowF + RowG
      + RowH + RowI + RowK + RowL + RowM + RowN
      + RowP + RowQ + RowR;
      && Ascending(rows) && AboveDiagonal(rows, AminoAcids)
      && rows[|rows| - 1] == RowR[|RowR| - 1]
  {
    RowsWellFormed1();
    RowMWellFormed();
    RowAboveDiagonal(RowM);
    Extend(RowA + RowC + RowD + RowE + RowF + RowG + RowH + RowI + RowK + RowL, RowM);
    RowNWellFormed();
    RowAboveDiagonal(RowN);
    Extend(RowA + RowC + RowD + RowE + RowF + RowG + RowH + RowI + RowK + RowL + RowM, RowN);
    RowPWellFormed();
    RowAboveDiagonal(RowP);
    Extend(RowA + RowC + RowD + RowE + RowF + RowG + RowH + RowI + RowK + RowL + RowM + RowN, RowP);
    RowQWellFormed();
    RowAboveDiagonal(RowQ);
    Extend(RowA + RowC + RowD + RowE + RowF + RowG + RowH + RowI + RowK + RowL + RowM + RowN + RowP, RowQ);
    RowRWellFormed();
    RowAboveDiagonal(RowR);
    Extend(RowA + RowC + RowD + RowE + RowF + RowG + RowH + RowI + RowK + RowL + RowM + RowN + RowP + RowQ, RowR);
  }

  /** The half matrix lists 190 pairs, in ascending order, all above the
      diagonal of the alphabet. */
  lemma HalfMatrixWellFormed()
    ensures |HalfMatrix| == 190
    ensures Ascending(HalfMatrix) && AboveDiagonal(HalfMatrix, AminoAcids)
  {
    RowsWellFormed2();
    RowSWellFormed();
    RowAboveDiagonal(RowS);
    Extend(RowA + RowC + RowD + RowE + RowF + RowG + RowH + RowI + RowK + RowL + RowM + RowN + RowP + RowQ + RowR, RowS);
    RowTWellFormed();
    RowAboveDiagonal(RowT);
    Extend(RowA + RowC + RowD + RowE + RowF + RowG + RowH + RowI + RowK + RowL + RowM + RowN + RowP + RowQ + RowR + RowS, RowT);
    RowVWellFormed();
    RowAboveDiagonal(RowV);
    Extend(RowA + RowC + RowD + RowE + RowF + RowG + RowH + RowI + RowK + RowL + RowM + RowN + RowP + RowQ + RowR + RowS + RowT, RowV);
    RowWWellFormed();
    RowAboveDiagonal(RowW);
    Extend(RowA + RowC + RowD + RowE + RowF + RowG + RowH + RowI + RowK + RowL + RowM + RowN + RowP + RowQ + RowR + RowS + RowT + RowV, RowW);
  }
}
