/** The fixed correspondence between one-letter and three-letter amino-acid
    codes, and its inversion. */
module AminoCodes {
  import opened GranthamData

  /** One-letter code to three-letter code, for the 20 standard amino acids. */
  const AaLookup: map<char, string> := map[
    'A' := "Ala", 'C' := "Cys", 'D' := "Asp", 'E' := "Glu", 'F' := "Phe",
    'G' := "Gly", 'H' := "His", 'I' := "Ile", 'K' := "Lys", 'L' := "Leu",
    'M' := "Met", 'N' := "Asn", 'P' := "Pro", 'Q' := "Gln", 'R' := "Arg",
    'S' := "Ser", 'T' := "Thr", 'V' := "Val", 'W' := "Trp", 'Y' := "Tyr"
  ]

  /** No two keys of `m` share a value. */
  ghost predicate Injective<K, V>(m: map<K, V>)
  {
    forall x, y :: x in m && y in m && x != y ==> m[x] != m[y]
  }

  /** The map from each value of `m` back to its key. */
  function Invert<K, V(==)>(m: map<K, V>): (r: map<V, K>)
    requires Injective(m)
    ensures r.Keys == m.Values
    ensures forall x :: x in m ==> r[m[x]] == x
  {
    map x | x in m :: m[x] := x
  }

  /** The 20 three-letter names are pairwise different. */
  lemma AaLookupInjective()
    ensures Injective(AaLookup)
  {
  }

  /** The one-letter codes with a three-letter name are exactly the alphabet of the distance table. */
  lemma AaLookupKeys()
    ensures AaLookup.Keys == set c | c in AminoAcids
  {
    AminoAcidsMembership();
  }

  /** The one-letter code whose three-letter name is `threeLetter`. */
  function OneLetterFrom3Letter(threeLetter: string): (r: char)
    requires threeLetter in AaLookup.Values
    ensures r in AaLookup && AaLookup[r] == threeLetter
  {
    AaLookupInjective();
    Invert(AaLookup)[threeLetter]
  }

  /** Converting a code to its three-letter name and back gives the code. */
  lemma OneLetterRoundTrip(x: char)
    requires x in AaLookup
    ensures OneLetterFrom3Letter(AaLookup[x]) == x
  {
    AaLookupInjective();
  }
}
