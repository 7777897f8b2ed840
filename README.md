# Gene sequencing alignment table

A model of the dynamic-programming engine of a two-sequence aligner. The aligner
fills a table of cells with edit-distance costs using fixed Needleman-Wunsch
costs: MATCH = -3, SUB = 1 and INDEL = 5. Costs are minimised. Each cell stores
a value, the operation that produced it (insert, delete or match_sub, tagged 0,
1 and 2 in the source) and a back pointer to the cell it extends.

The model has five modules:

- `Cells` holds the cell record. A cell is a value with three fields. Its back
  pointer is an optional (row, column) coordinate into the same table.
- `Tables` holds the `Table` class. It is a `numRows` × `numCols` `array2` of
  cells. `FillBaseCases` sets up the origin, the left column (deletions) and the
  top row (insertions).
- `Costs` holds the constants and the rules a cell uses to pick among its
  candidate costs. The ordinary cell takes the cheapest of three candidates,
  with ties going to insert, then delete, then match_sub. The left edge of the
  band picks between delete and match_sub, and takes delete only when it is
  strictly cheaper. The upper edge of the band picks between insert and
  match_sub, and insert wins ties.
- `NeedlemanWunsch` holds `Score`, the textbook recurrence over a
  (|a|+1) × (|b|+1) table. The filled table is stated against it. It also holds
  the lemmas about it: lower and upper bounds, identity and symmetry.
- `Aligner` holds the `GeneSequencing` class: the three cost readers, the cell
  computation in both modes, the row-major fill of the full table, ordering of
  the inputs by length, and the sizing of the table.

In banded mode the rows past `d + 1` are stored shifted: column `j` of row `i`
stands for full-table column `j + i - d - 1`. `Aligner.Source` proves that the
shifted reads of `delete_cost` and `match_sub_cost` are the ordinary left, upper
and diagonal neighbours under that shift.

The back pointers do not follow the shift: inside the band past row `d + 1`,
delete and match_sub read their cost from the shifted cell, (i-1, j+1) or
(i-1, j), but record the unshifted neighbour, (i-1, j) or (i-1, j-1), as the
back pointer. `Aligner.PointerAgreesWithSource` states exactly where the two
differ.

As written, the full-mode table is `len(seq1)` × `len(seq2)`, and cell (i, j)
compares `seq1[i]` with `seq2[j]`. So the filled table holds the scores of the
two sequences with their first letters removed: cell (i, j) is
`Score(seq1[1..], seq2[1..], i, j)`. `ComputeCellsNonBanded` proves this. The
model follows the code here; see "## Findings".

In several places the code departs from the usual design of this algorithm.
The model follows the code each time:

- Ties go to insert first, not delete first.
- The table has `len` rows and columns, not `len + 1`.
- `align_length` is stored but does not bound the table size.
- With an empty sequence, `fill_base_cases` fails on `cells[0][0]`.

## Model

| member | source | states |
|---|---|---|
| `Tables.Table.constructor` | Table.py:7-11 | stores num_rows and num_cols and allocates a fresh grid of exactly num_rows rows of num_cols cells |
| `Tables.Table.FillBaseCases` | Table.py:13-35 | origin: value 0, no back pointer, operation untouched. Cell (i,0): value i·indel, delete, pointer to (i-1,0). Cell (0,j): value j·indel, insert, pointer to (0,j-1). Every cell with i ≥ 1 and j ≥ 1 unchanged. Needs at least one row and one column |
| `Costs.Choose3` | GeneSequencing.py:140-159 | the stored value is the minimum of the three candidate costs and is the cost of the chosen operation. Insert is chosen iff it is minimal, delete iff it is minimal and strictly below insert, match_sub iff it is strictly below both |
| `Costs.ChooseLeftEdge` | GeneSequencing.py:82-99 | never insert. The value is the minimum of delete and match_sub. Delete is chosen iff it is strictly cheaper |
| `Costs.ChooseUpperEdge` | GeneSequencing.py:103-115 | never delete. The value is the minimum of insert and match_sub. Insert is chosen iff it costs no more than match_sub |
| `Aligner.ShorterLonger` | GeneSequencing.py:189-193 | returns the two inputs as a pair, in one order or the other, with the first no longer than the second. On equal lengths the pair is (seq2, seq1) |
| `Aligner.Source` | GeneSequencing.py:162-187 | the cell each cost reads. Non-banded, it is the left, upper or diagonal neighbour. Banded past row d+1, it is (i-1,j+1) for delete and (i-1,j) for match_sub, and mapped through the band's row shift it is again that full-table neighbour |
| `Aligner.GeneSequencing.InsertCost` | GeneSequencing.py:162-164 | insert_cost: the value of the cell to the left, (i, j-1), plus INDEL, in both modes. Needs that cell inside the table |
| `Aligner.GeneSequencing.DeleteCost` | GeneSequencing.py:166-172 | delete_cost: the value of the cell (i-1, j+1) plus INDEL in banded mode past row d+1, and of the cell above, (i-1, j), plus INDEL otherwise. Needs that cell inside the table |
| `Aligner.GeneSequencing.MatchSubCost` | GeneSequencing.py:174-187 | match_sub_cost: the value of the cell (i-1, j) in banded mode past row d+1, and of the diagonal cell (i-1, j-1) otherwise, plus MATCH when the letters match and SUB when they do not (the `if match` choice, also `Costs.MatchSubPenalty`). Needs that cell inside the table |
| `Aligner.PointerAgreesWithSource` | GeneSequencing.py:74-137 | the recorded back pointer equals the cell the chosen cost was read from, iff the cell is not an upper-edge insert and not a delete or match_sub inside the band past row d+1 |
| `Aligner.GeneSequencing.constructor` | GeneSequencing.py:26-28 | starts with no table and d = 0 |
| `Aligner.GeneSequencing.ComputeCell` | GeneSequencing.py:74-159 | writes only cell (i,j); every other cell is unchanged. Full mode and the band interior: the value, operation and return value are those of the three-way choice over the costs read before the write, and the back pointer is the unshifted neighbour of that operation. Left and upper band edges: the two-way choices with the pointers those branches record. Needs every cell it reads inside the table |
| `Aligner.GeneSequencing.ChooseAmongThree` | GeneSequencing.py:140-159 | the shared three-way branch: it writes only cell (i,j), with the value and operation of the three-way choice and a back pointer to that operation's neighbour |
| `Aligner.GeneSequencing.ComputeCellsNonBanded` | GeneSequencing.py:65-72 | changes only the cells i ∈ [1,len(seq1)), j ∈ [1,len(seq2)). Afterwards each of them obeys the recurrence against its final left, upper and diagonal neighbours, comparing seq1[i] with seq2[j]. Over base cases of indel sums, every cell (i,j) equals Score(seq1[1..], seq2[1..], i, j) |
| `Aligner.GeneSequencing.ComputeRow` | GeneSequencing.py:69-72 | the inner loop for row i: changes only row i from column 1 on, leaves every cell of that row obeying the recurrence, and carries the Score values from row i-1 to row i |
| `Aligner.GeneSequencing.Align` | GeneSequencing.py:34-50 | records the mode, d = 3 and align_length. It allocates a fresh table of len(shortest) × (2d+1 = 7) cells in banded mode and len(seq1) × len(seq2) cells in full mode |
| `NeedlemanWunsch.ScoreLowerBound` | GeneSequencing.py:140-187 | every prefix score is at least min(i,j)·MATCH + abs(i−j)·INDEL |
| `NeedlemanWunsch.ScoreUpperBound` | GeneSequencing.py:140-187 | every prefix score is at most (i+j)·INDEL, the all-gaps path |
| `NeedlemanWunsch.ScoreIdentity` | GeneSequencing.py:140-187 | aligning a prefix of length i with itself scores exactly i·MATCH |
| `NeedlemanWunsch.ScoreSymmetric` | GeneSequencing.py:140-187 | swapping the two sequences leaves the score unchanged |
| `NeedlemanWunsch.AsWrittenLosesFirstMatch` | GeneSequencing.py:65-72 | for a non-empty s aligned with itself, the as-written terminal score is (len(s)−1)·MATCH. That is one MATCH above the recurrence's score |

## Left out

- PyQt imports, the PyQt version check and `random` are GUI plumbing and are not modelled.
- `MAXINDELS` is declared but never read. `align` writes `d = 3` directly, and so does the model.
- Cell.py is not part of this model. A cell is a plain record of value, operation and back pointer.
- Tables.Table.constructor: does not state what a fresh cell holds, because Cell.py, which defines the defaults, is not part of this model.
- Back pointers are coordinates, not object references. The `backpointer` vs `back_pointer` attribute mismatch is not modelled: both are one field.
- `fill_base_cases` is called in `align` with three arguments but takes one, so `align` fails as written. Aligner.GeneSequencing.Align models only the mode, `d` and the table sizing. The base-case call, the fill call and the returned record are not modelled.
- The returned score and alignments are not modelled. The source only has a `todo` for traceback, and in full mode the returned names are unbound.
- Python's negative indices wrap to the last row or column. The model never relies on this. Aligner.GeneSequencing.ComputeCell requires every cell it reads to be inside the table, so it does not cover `j - 1 = -1` at `j = 0` in the band interior.
- Banded mode is not proved total. The reads at `j + 1` can fall outside the 7 columns. The upper-edge branch `j == d + 1 + i` with d = 3 reaches j = 7 at i = 3 and j = 8 at i = 4, both outside the 7 columns. At i = 0 (j = 4) its match_sub read is `cells[-1][3]`, row -1, which Python wraps to the last row. These are preconditions of Aligner.GeneSequencing.ComputeCell. The banded fill loop does not exist in the source and is not modelled.
- Aligner.GeneSequencing.ComputeCellsNonBanded: requires non-banded mode. With `banded` set it would run the banded branches, whose reads can leave the table. The source calls it only in full mode.
- In `__init__`, `self.banded` and `MaxCharactersToAlign` are left unset. The model's constructor leaves them at unspecified values.
- Floating point, I/O and concurrency are absent from the core.

## Findings

| source | as written | input that shows it | evidently intended | confidence | as-written member | corrected member |
|---|---|---|---|---|---|---|
| GeneSequencing.py:65-72 | the full table is len(seq1) × len(seq2) and cell (i,j) compares seq1[i] with seq2[j], so the first letters of the two sequences are never compared | seq1 = seq2 = "A": the 1×1 table's only cell, the origin, holds 0 after the base cases | a (len+1) × (len+1) table comparing seq1[i-1] with seq2[j-1], where a sequence aligned with itself scores len·MATCH (-3 for "A") | not executed | `NeedlemanWunsch.AsWrittenLosesFirstMatch` | `NeedlemanWunsch.ScoreIdentity` |

For the as-written side, `ComputeCellsNonBanded` proves that cell (i,j) of the
filled table equals `Score(seq1[1..], seq2[1..], i, j)`. `AsWrittenLosesFirstMatch`
then shows that the terminal cell misses one MATCH when a sequence is aligned
with itself. The corrected definition is `Score`, the recurrence over the
(len+1)-sized table. `ScoreIdentity` proves the intended identity property for
it, and the fill's contract is stated in terms of it.
