# Grantham distance table, modelled in Dafny

The Grantham calculator is a one-page web tool. It reports the Grantham (1974) physicochemical distance between a wild-type and a mutant amino acid. Its core is small:

- a half matrix of 190 published distances. Each key is a pair `(a1, a2)` of one-letter codes with `a1 < a2` in the alphabet `ACDEFGHIKLMNPQRSTVWY`;
- two start-up loops that build the symmetric table. The first writes every distance under both orders of its pair. The second writes 0 for the 20 self-pairs;
- `grantham_score`, a lookup in that table that returns a distance or nothing;
- `get_one_letter_from_3letter`, which inverts the fixed one-letter to three-letter map (`"Ala"` to `'A'`).

The model has five modules:

- `GranthamTable` (`grantham_table.dfy`): the builder, stated for any half matrix and any alphabet. `BuildSymmetric` runs the two loops over a `map<(char, char), nat>` with loop invariants. It is proved equal to the specification function `Symmetrised`. The following are proved about `Symmetrised`:
  - the exact key set;
  - symmetry;
  - a zero diagonal;
  - preservation of every half-matrix distance, when no pair occurs twice in either orientation;
  - coverage of all n × n ordered pairs, when the half matrix holds n(n-1)/2 distinct pairs above the diagonal (as dict keys are distinct; no ordering is needed).
- `GranthamData` (`grantham_data.dfy`): the alphabet and the published half matrix. The matrix is written as its 19 source rows, one per first letter, concatenated in source order. Proofs show it is ascending, above the diagonal and made of alphabet codes.
- `Grantham` (`grantham.dfy`): the concrete table `SymmetricGrantham` (400 entries), the lookup `GranthamScore`, and the properties the page relies on.
- `AminoCodes` (`amino_codes.dfy`): the three-letter names, the inversion and its round trip.
- `Counting` (`counting.dfy`): cardinality facts used by the coverage proof.

The half matrix is a Python dict, and `.items()` yields it in insertion order. The model therefore takes it as a sequence of `(pair, distance)` items in that order. The symmetry, key-set and zero-diagonal results hold for every input. The preservation result needs no pair to occur twice in either orientation, because otherwise the later write wins.

The code builds 190 × 2 + 20 = 400 directed entries.

## Model

| member | source | states |
|---|---|---|
| `GranthamTable.BuildSymmetric` | Grantham_calculator.py:79-84 | The two loops return `Symmetrised(items, alphabet)`. Its keys are exactly the half-matrix pairs, their reverses and the alphabet's self-pairs. It is symmetric and every self-pair of the alphabet maps to 0. Without repeated or reversed pairs, each half-matrix distance appears under both orders of its pair, except on alphabet self-pairs, where the later 0 wins. |
| `GranthamTable.Symmetrised` | Grantham_calculator.py:79-84 | The built table's keys are the mirrored half-matrix keys plus the diagonal. The table is symmetric and has 0 on the alphabet's diagonal, for any input. |
| `GranthamTable.MirrorKeys` | Grantham_calculator.py:80-82 | After the first loop, the keys are exactly the half-matrix pairs and their reverses. |
| `GranthamTable.MirrorSymmetric` | Grantham_calculator.py:80-82 | Every write goes under both orders of its pair, so the mirrored table is symmetric even when the input has reversed duplicates. |
| `GranthamTable.MirrorPreserves` | Grantham_calculator.py:80-82 | Without repeated or reversed pairs, the first loop maps both `(a1, a2)` and `(a2, a1)` to the item's distance. |
| `GranthamTable.SymmetrisedPreserves` | Grantham_calculator.py:80-84 | Without repeated or reversed pairs, the finished table keeps every half-matrix distance in both orders. The exception is self-pairs of the alphabet, which are overwritten with 0. |
| `GranthamTable.Mirror` | Grantham_calculator.py:80-82 | The first loop's table after the given items: the last item written is found under both orders of its pair with its distance, so a later write wins. |
| `GranthamTable.WithDiagonal` | Grantham_calculator.py:83-84 | The second loop adds exactly the alphabet's self-pairs to the keys, maps each of them to 0 and leaves every other entry unchanged. |
| `GranthamTable.HalfMatrixUnambiguous` | Grantham_calculator.py:25-66 | A half matrix listed above the diagonal in ascending order holds no pair twice in either orientation, and so has distinct keys. |
| `GranthamTable.SymmetrisedCard` | Grantham_calculator.py:79-84 | For a half matrix of distinct pairs above the diagonal, in any order, the upper, lower and diagonal pairs are disjoint, and the built table has 2 × (half-matrix items) + (alphabet size) entries. |
| `GranthamTable.SymmetrisedCoversProduct` | Grantham_calculator.py:25-84 | A half matrix of n(n-1)/2 distinct pairs above the diagonal of an n-letter alphabet, in any order, yields a table defined on exactly the n × n ordered pairs. |
| `GranthamData.HalfMatrix` | Grantham_calculator.py:25-66 | The 190 published `(pair, distance)` items, in source order (the constant itself; its properties are in `HalfMatrixWellFormed`). |
| `GranthamData.AminoAcids` | Grantham_calculator.py:68 | The 20-letter alphabet string (the constant itself; its properties are in `AminoAcidsDistinct` and `AminoAcidsMembership`). |
| `GranthamData.HalfMatrixWellFormed` | Grantham_calculator.py:25-66 | The published half matrix has 190 items in strictly ascending pair order. Each pair `(a1, a2)` has `a1 < a2`, and both codes are in the alphabet. |
| `GranthamData.AminoAcidsDistinct` | Grantham_calculator.py:68 | No code occurs twice in the alphabet string. |
| `GranthamData.AminoAcidsMembership` | Grantham_calculator.py:68 | A character is in the alphabet exactly when it is one of the 20 listed codes. |
| `Grantham.SymmetricGrantham` | Grantham_calculator.py:79-84 | The table the start-up loops build from the published data (the constant itself; its properties are in `SymmetricGranthamKeys` and the score lemmas). |
| `Grantham.SymmetricGranthamKeys` | Grantham_calculator.py:25-84 | The built table's keys are exactly the 20 × 20 ordered pairs of codes, and it has 400 entries. |
| `Grantham.BuildGranthamTable` | Grantham_calculator.py:79-84 | Running the loops on the published data yields `SymmetricGrantham`, with 400 entries covering all ordered pairs. |
| `Grantham.GranthamScore` | Grantham_calculator.py:86-87 | The lookup returns a distance exactly when both codes are in the alphabet, and not-found otherwise. |
| `Grantham.ScoreSymmetric` | Grantham_calculator.py:79-87 | `grantham_score(a, b) == grantham_score(b, a)` for all characters. |
| `Grantham.ScoreZeroDiagonal` | Grantham_calculator.py:83-87 | `grantham_score(a, a)` is 0 for each of the 20 codes. |
| `Grantham.ScoreMatchesHalfMatrix` | Grantham_calculator.py:25-87 | Every published half-matrix item is returned, in both orders, with its published distance. |
| `Grantham.SpotValues` | Grantham_calculator.py:25-66 | Checks three published distances in both orders: ('A','C') is 195, ('I','L') is 5 and ('W','Y') is 37. |
| `Grantham.SelectionAlwaysScored` | Grantham_calculator.py:94-111 | Any two selections from the 20 three-letter names get a score, so the "no score found" warning cannot appear from the page. |
| `Grantham.AlaCysScore` | Grantham_calculator.py:99-113 | Selecting "Ala" and "Cys" yields 195. |
| `AminoCodes.AaLookup` | Grantham_calculator.py:71-76 | The one-letter to three-letter name map (the constant itself; its properties are in `AaLookupInjective` and `AaLookupKeys`). |
| `AminoCodes.AaLookupInjective` | Grantham_calculator.py:71-76 | No two one-letter codes share a three-letter name. |
| `AminoCodes.AaLookupKeys` | Grantham_calculator.py:68-76 | The codes with a three-letter name are exactly the table's alphabet. |
| `AminoCodes.Invert` | Grantham_calculator.py:90 | The reversed dict maps each three-letter name back to its one-letter code, and its keys are exactly the names. |
| `AminoCodes.OneLetterFrom3Letter` | Grantham_calculator.py:89-91 | For any of the 20 names, the result is a one-letter code whose three-letter name is the input. |
| `AminoCodes.OneLetterRoundTrip` | Grantham_calculator.py:71-91 | Converting a code to its three-letter name and back returns the code, for example "Ala" gives 'A'. |

## Left out

- Page setup, title and text (Grantham_calculator.py:10-12): user interface only.
- The debug/environment expander (Grantham_calculator.py:15-22): it reads the interpreter version and package metadata, which are environment introspection and foreign calls.
- The selectors, columns and button (Grantham_calculator.py:94-107): widget state. The model keeps only the fact that both selections come from the 20 three-letter names (`SelectionAlwaysScored`).
- The success and warning message strings (Grantham_calculator.py:111-113): display text. The model keeps which branch is taken.
- The exception handler and traceback display (Grantham_calculator.py:114-117): an I/O boundary with no behaviour of its own.
- AminoCodes.OneLetterFrom3Letter: an unknown name raises `KeyError` in the source. The model turns this into a precondition that the name is one of the 20.
- AminoCodes.Invert: it requires the map to be injective. Python's dict comprehension would silently keep the last key for a repeated value, but the one map it is applied to is injective (`AaLookupInjective`).
- Grantham.GranthamScore: it takes two characters. A Python caller could pass any hashable value, such as a longer string, and would also get `None`. That case is not modelled.
- Non-negative distances are enforced by the `nat` type of every table value, not by a separate lemma.
- Pair order in the half matrix is character-code order. It coincides with alphabet order because the alphabet string is written in ascending order (`AscendingCodesOrdered`).
