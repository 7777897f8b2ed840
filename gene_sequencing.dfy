/** The aligner: the cost recurrence over the table, the choice each cell
    makes in full and in banded mode, the row-major fill of the full table and
    the sizing of the table. */
module Aligner {
  import opened Cells
  import opened Costs
  import opened Tables
  import opened NeedlemanWunsch

  /** The two sequences ordered by length, shorter first; on equal lengths the
      second argument comes first. */
  function ShorterLonger(seq1: string, seq2: string): (r: (string, string))
    ensures |r.0| <= |r.1|
    ensures r == (seq1, seq2) || r == (seq2, seq1)
    ensures |seq1| == |seq2| ==> r == (seq2, seq1)
  {
    if |seq1| >= |seq2| then (seq2, seq1) else (seq1, seq2)
  }

  /** In banded mode, rows past d + 1 are stored shifted: column j of row i
      stands for column j + Shift(...) of the full table. */
  function Shift(banded: bool, d: int, row: int): int {
    if banded && row > d + 1 then row - d - 1 else 0
  }

  /** The full-table position a stored position stands for. */
  function ToFull(banded: bool, d: int, c: Coord): Coord {
    Coord(c.row, c.col + Shift(banded, d, c.row))
  }

  /** The full-table cell that each operation extends: the one to the left for
      insert, the one above for delete, the diagonal one for match_sub. */
  function Neighbour(op: Op, c: Coord): Coord {
    match op
    case Insert => Coord(c.row, c.col - 1)
    case Delete => Coord(c.row - 1, c.col)
    case MatchSub => Coord(c.row - 1, c.col - 1)
  }

  /** The stored cell whose value the cost of `op` at (i, j) reads. Through the
      row shift of banded mode it is always the ordinary full-table neighbour. */
  function Source(op: Op, banded: bool, d: int, i: int, j: int): (c: Coord)
    ensures ToFull(banded, d, c) == Neighbour(op, ToFull(banded, d, Coord(i, j)))
    ensures !banded ==> c == Neighbour(op, Coord(i, j))
  {
    match op
    case Insert => Coord(i, j - 1)
    case Delete => if banded && i > d + 1 then Coord(i - 1, j + 1) else Coord(i - 1, j)
    case MatchSub => if banded && i > d + 1 then Coord(i - 1, j) else Coord(i - 1, j - 1)
  }

  /** Which branch of the cell computation a position falls in. */
  datatype Branch = Full | LeftEdge | UpperEdge | BandInterior

  function BranchOf(banded: bool, d: int, i: int, j: int): Branch {
    if !banded then Full
    else if i > d + 1 && j == 0 then LeftEdge
    else if i <= d + 1 && j == d + 1 + i then UpperEdge
    else BandInterior
  }

  /** The back pointer each branch of the cell computation records for the
      operation it takes. */
  function WrittenPointer(b: Branch, op: Op, i: int, j: int): Coord {
    match b
    case LeftEdge => if op == Delete then Coord(i - 1, j + 1) else Coord(i - 1, j)
    case UpperEdge => if op == Insert then Coord(i - 1, j) else Coord(i - 1, j - 1)
    case _ => Neighbour(op, Coord(i, j))
  }

  /** The recorded back pointer is the cell the chosen cost was read from,
      except for insert on the upper edge of the band and for delete and
      match_sub inside the band past row d + 1, where it names the unshifted
      neighbour instead. */
  lemma PointerAgreesWithSource(banded: bool, d: int, i: int, j: int, op: Op)
    requires BranchOf(banded, d, i, j) == LeftEdge ==> op != Insert
    requires BranchOf(banded, d, i, j) == UpperEdge ==> op != Delete
    ensures WrittenPointer(BranchOf(banded, d, i, j), op, i, j) == Source(op, banded, d, i, j) <==>
              !(BranchOf(banded, d, i, j) == UpperEdge && op == Insert) &&
              !(BranchOf(banded, d, i, j) == BandInterior && i > d + 1 && op != Insert)
  {
  }

  /** A full-table cell `c` is what the three-way choice makes of its left, upper
      and diagonal neighbours, with its back pointer on the chosen neighbour. */
  ghost predicate Recurrence(c: Cell, left: Cell, up: Cell, diag: Cell, isMatch: bool, i: int, j: int) {
    var ch := Choose3(left.value + INDEL, up.value + INDEL, diag.value + MatchSubPenalty(isMatch));
    c == Cell(ch.value, ch.op, Some(Neighbour(ch.op, Coord(i, j))))
  }

  class GeneSequencing {
    var banded: bool
    var d: int
    var table: Table?
    var maxCharactersToAlign: int

    constructor ()
      ensures table == null && d == 0
    {
      table := null;
      d := 0;
    }

    /** insert_cost: the cell to the left, plus INDEL, in both modes. */
    function InsertCost(i: int, j: int): (r: int)
      reads this, table.cells
      requires table != null && table.Valid() && table.InRange(Source(Insert, banded, d, i, j))
      ensures 0 <= j - 1 < table.numCols && r == table.cells[i, j - 1].value + INDEL
    {
      table.ValueAt(Source(Insert, banded, d, i, j)) + INDEL
    }

    /** delete_cost: the cell above plus INDEL; past row d + 1 in banded mode
        the cell above sits one column to the right. */
    function DeleteCost(i: int, j: int): (r: int)
      reads this, table.cells
      requires table != null && table.Valid() && table.InRange(Source(Delete, banded, d, i, j))
      ensures banded && i > d + 1 ==>
                0 < i && j + 1 < table.numCols && r == table.cells[i - 1, j + 1].value + INDEL
      ensures !(banded && i > d + 1) ==>
                0 < i && 0 <= j < table.numCols && r == table.cells[i - 1, j].value + INDEL
    {
      table.ValueAt(Source(Delete, banded, d, i, j)) + INDEL
    }

    /** match_sub_cost: the diagonal cell plus MATCH or SUB; past row d + 1 in
        banded mode the diagonal cell sits straight above. */
    function MatchSubCost(i: int, j: int, isMatch: bool): (r: int)
      reads this, table.cells
      requires table != null && table.Valid() && table.InRange(Source(MatchSub, banded, d, i, j))
      ensures banded && i > d + 1 ==>
                0 < i && 0 <= j < table.numCols &&
                r == table.cells[i - 1, j].value + (if isMatch then MATCH else SUB)
      ensures !(banded && i > d + 1) ==>
                0 < i && 0 < j && r == table.cells[i - 1, j - 1].value + (if isMatch then MATCH else SUB)
    {
      table.ValueAt(Source(MatchSub, banded, d, i, j)) + MatchSubPenalty(isMatch)
    }

    /** Cell (i, j) and every cell that the branch it falls in reads lie in the table. */
    ghost predicate CanCompute(i: int, j: int)
      reads this
    {
      && table != null && table.Valid() && table.InRange(Coord(i, j))
      && (BranchOf(banded, d, i, j) != LeftEdge ==> table.InRange(Source(Insert, banded, d, i, j)))
      && (BranchOf(banded, d, i, j) != UpperEdge ==> table.InRange(Source(Delete, banded, d, i, j)))
      && table.InRange(Source(MatchSub, banded, d, i, j))
    }

    /** Cell (i, j) of the full table obeys the recurrence, comparing seq1[i] with seq2[j]. */
    ghost predicate Settled(seq1: string, seq2: string, i: int, j: int)
      reads this, table.cells
      requires table != null && table.Valid()
      requires 1 <= i < |seq1| && 1 <= j < |seq2| && i < table.numRows && j < table.numCols
    {
      Recurrence(table.cells[i, j], table.cells[i, j - 1], table.cells[i - 1, j],
                 table.cells[i - 1, j - 1], seq1[i] == seq2[j], i, j)
    }

    /** Writes value, operation and back pointer of cell (i, j), and nothing else. */
    method ComputeCell(i: int, j: int, isMatch: bool) returns (op: Op)
      requires CanCompute(i, j)
      modifies table.cells
      ensures table.cells[i, j].operation == op
      ensures forall p, q :: 0 <= p < table.numRows && 0 <= q < table.numCols && (p != i || q != j) ==>
                table.cells[p, q] == old(table.cells[p, q])
      ensures BranchOf(banded, d, i, j) == Full || BranchOf(banded, d, i, j) == BandInterior ==>
                var ch := Choose3(old(InsertCost(i, j)), old(DeleteCost(i, j)), old(MatchSubCost(i, j, isMatch)));
                op == ch.op &&
                table.cells[i, j] == Cell(ch.value, op, Some(WrittenPointer(BranchOf(banded, d, i, j), op, i, j)))
      ensures BranchOf(banded, d, i, j) == LeftEdge ==>
                var ch := ChooseLeftEdge(old(DeleteCost(i, j)), old(MatchSubCost(i, j, isMatch)));
                op == ch.op && table.cells[i, j] == Cell(ch.value, op, Some(WrittenPointer(LeftEdge, op, i, j)))
      ensures BranchOf(banded, d, i, j) == UpperEdge ==>
                var ch := ChooseUpperEdge(old(InsertCost(i, j)), old(MatchSubCost(i, j, isMatch)));
                op == ch.op && table.cells[i, j] == Cell(ch.value, op, Some(WrittenPointer(UpperEdge, op, i, j)))
    {
      if banded {
        if i > d + 1 && j == 0 {
          var deleteCost := DeleteCost(i, j);
          var matchSubCost := MatchSubCost(i, j, isMatch);
          if deleteCost < matchSubCost {
            table.cells[i, j] := Cell(deleteCost, Delete, Some(Coord(i - 1, j + 1)));
            return Delete;
          } else {
            table.cells[i, j] := Cell(matchSubCost, MatchSub, Some(Coord(i - 1, j)));
            return MatchSub;
          }
        } else if i <= d + 1 && j == d + 1 + i {
          var matchSubCost := MatchSubCost(i, j, isMatch);
          var insertCost := InsertCost(i, j);
          if insertCost <= matchSubCost {
            table.cells[i, j] := Cell(insertCost, Insert, Some(Coord(i - 1, j)));
            return Insert;
          } else {
            table.cells[i, j] := Cell(matchSubCost, MatchSub, Some(Coord(i - 1, j - 1)));
            return MatchSub;
          }
        } else {
          op := ChooseAmongThree(i, j, isMatch);
        }
      } else {
        op := ChooseAmongThree(i, j, isMatch);
      }
    }

    /** Sweeps the interior row by row, comparing seq1[i] with seq2[j]. Afterwards
        every interior cell obeys the recurrence against its final neighbours
        (so each neighbour was final when the cell was computed), and, over
        base cases of indel sums, cell (i, j) holds the score of aligning
        seq1[1..i+1] with seq2[1..j+1]. */
    method ComputeCellsNonBanded(seq1: string, seq2: string)
      requires table != null && table.Valid() && !banded
      requires |seq1| <= 1 || |seq2| <= 1 || (|seq1| <= table.numRows && |seq2| <= table.numCols)
      modifies table.cells
      ensures forall p, q :: (0 <= p < table.numRows && 0 <= q < table.numCols &&
                               !(1 <= p < |seq1| && 1 <= q < |seq2|)) ==>
                table.cells[p, q] == old(table.cells[p, q])
      ensures forall p, q :: 1 <= p < |seq1| && 1 <= q < |seq2| ==> Settled(seq1, seq2, p, q)
      ensures 1 <= |seq1| <= table.numRows && 1 <= |seq2| <= table.numCols && old(table.BaseCasesFilled(INDEL)) ==>
                forall p, q :: 0 <= p < |seq1| && 0 <= q < |seq2| ==>
                  table.cells[p, q].value == Score(seq1[1..], seq2[1..], p, q)
    {
      ghost var based := 1 <= |seq1| <= table.numRows && 1 <= |seq2| <= table.numCols &&
                         table.BaseCasesFilled(INDEL);
      ghost var a := if |seq1| >= 1 then seq1[1..] else [];
      ghost var b := if |seq2| >= 1 then seq2[1..] else [];
      var i := 1;
      while i < |seq1|
        invariant 1 <= i <= |seq1| || i == 1
        invariant forall p, q :: (0 <= p < table.numRows && 0 <= q < table.numCols &&
                                 !(1 <= p < i && 1 <= q < |seq2|)) ==>
                    table.cells[p, q] == old(table.cells[p, q])
        invariant forall p, q :: 1 <= p < i && 1 <= q < |seq2| ==> Settled(seq1, seq2, p, q)
        invariant based ==> forall p, q {:trigger Score(a, b, p, q)} :: 0 <= p < i && 0 <= q < |seq2| ==>
                    table.cells[p, q].value == Score(a, b, p, q)
      {
        label Pre:
        ComputeRow(seq1, seq2, i, based, a, b);
        forall p, q | 1 <= p < i && 1 <= q < |seq2|
          ensures Settled(seq1, seq2, p, q)
        {
          assert old@Pre(Settled(seq1, seq2, p, q));
          assert table.cells[p, q] == old@Pre(table.cells[p, q]);
          assert table.cells[p, q - 1] == old@Pre(table.cells[p, q - 1]);
          assert table.cells[p - 1, q] == old@Pre(table.cells[p - 1, q]);
          assert table.cells[p - 1, q - 1] == old@Pre(table.cells[p - 1, q - 1]);
        }
        if based {
          forall p, q | 0 <= p < i && 0 <= q < |seq2|
            ensures table.cells[p, q].value == Score(a, b, p, q)
          {
            assert table.cells[p, q] == old@Pre(table.cells[p, q]);
          }
          assert table.cells[i, 0] == old(table.cells[i, 0]);
        }
        i := i + 1;
      }
    }

    /** One row of the full-table sweep: the inner loop of the fill. */
    method ComputeRow(seq1: string, seq2: string, i: int, ghost based: bool, ghost a: string, ghost b: string)
      requires table != null && table.Valid() && !banded
      requires 1 <= i < |seq1| && (|seq2| <= 1 || (i < table.numRows && |seq2| <= table.numCols))
      requires based ==> 1 <= |seq2| <= table.numCols && i < table.numRows && a == seq1[1..] && b == seq2[1..]
      requires based ==> forall p, q {:trigger Score(a, b, p, q)} :: 0 <= p < i && 0 <= q < |seq2| ==>
                           table.cells[p, q].value == Score(a, b, p, q)
      requires based ==> table.cells[i, 0].value == Score(a, b, i, 0)
      modifies table.cells
      ensures forall p, q :: (0 <= p < table.numRows && 0 <= q < table.numCols &&
                               !(p == i && 1 <= q < |seq2|)) ==>
                table.cells[p, q] == old(table.cells[p, q])
      ensures forall q :: 1 <= q < |seq2| ==> Settled(seq1, seq2, i, q)
      ensures based ==> forall q {:trigger Score(a, b, i, q)} :: 0 <= q < |seq2| ==>
                          table.cells[i, q].value == Score(a, b, i, q)
    {
      var seq1Letter := seq1[i];
      var j := 1;
      while j < |seq2|
        invariant 1 <= j <= |seq2| || j == 1
        invariant forall p, q :: (0 <= p < table.numRows && 0 <= q < table.numCols &&
                                 !(p == i && 1 <= q < j)) ==>
                    table.cells[p, q] == old(table.cells[p, q])
        invariant forall q :: 1 <= q < j ==> Settled(seq1, seq2, i, q)
        invariant based ==> forall q {:trigger Score(a, b, i, q)} :: 0 <= q < j ==>
                              table.cells[i, q].value == Score(a, b, i, q)
      {
        var seq2Letter := seq2[j];
        var isMatch := seq1Letter == seq2Letter;
        label Pre:
        var _ := ComputeCell(i, j, isMatch);
        forall q | 1 <= q < j
          ensures Settled(seq1, seq2, i, q)
        {
          assert old@Pre(Settled(seq1, seq2, i, q));
          assert table.cells[i, q] == old@Pre(table.cells[i, q]);
          assert table.cells[i, q - 1] == old@Pre(table.cells[i, q - 1]);
          assert table.cells[i - 1, q] == old@Pre(table.cells[i - 1, q]);
          assert table.cells[i - 1, q - 1] == old@Pre(table.cells[i - 1, q - 1]);
        }
        assert Settled(seq1, seq2, i, j);
        if based {
          ScoreStep(a, b, i, j);
          assert a[i - 1] == seq1Letter && b[j - 1] == seq2Letter;
          assert table.cells[i, j - 1].value == Score(a, b, i, j - 1);
          assert table.cells[i - 1, j].value == Score(a, b, i - 1, j);
          assert table.cells[i - 1, j - 1].value == Score(a, b, i - 1, j - 1);
          forall q | 0 <= q < j
            ensures table.cells[i, q].value == Score(a, b, i, q)
          {
            assert table.cells[i, q] == old@Pre(table.cells[i, q]);
          }
        }
        j := j + 1;
      }
    }

    /** The three-way branch shared by full mode and the inside of the band. */
    method ChooseAmongThree(i: int, j: int, isMatch: bool) returns (op: Op)
      requires table != null && table.Valid() && table.InRange(Coord(i, j))
      requires table.InRange(Source(Insert, banded, d, i, j))
      requires table.InRange(Source(Delete, banded, d, i, j))
      requires table.InRange(Source(MatchSub, banded, d, i, j))
      modifies table.cells
      ensures forall p, q :: 0 <= p < table.numRows && 0 <= q < table.numCols && (p != i || q != j) ==>
                table.cells[p, q] == old(table.cells[p, q])
      ensures var ch := Choose3(old(InsertCost(i, j)), old(DeleteCost(i, j)), old(MatchSubCost(i, j, isMatch)));
              op == ch.op && table.cells[i, j] == Cell(ch.value, op, Some(Neighbour(op, Coord(i, j))))
    {
      var insertCost := InsertCost(i, j);
      var deleteCost := DeleteCost(i, j);
      var matchSubCost := MatchSubCost(i, j, isMatch);
      if insertCost <= deleteCost && insertCost <= matchSubCost {
        table.cells[i, j] := Cell(insertCost, Insert, Some(Coord(i, j - 1)));
        op := Insert;
      } else if deleteCost <= insertCost && deleteCost <= matchSubCost {
        table.cells[i, j] := Cell(deleteCost, Delete, Some(Coord(i - 1, j)));
        op := Delete;
      } else if matchSubCost <= insertCost && matchSubCost <= deleteCost {
        table.cells[i, j] := Cell(matchSubCost, MatchSub, Some(Coord(i - 1, j - 1)));
        op := MatchSub;
      } else {
        assert false;
      }
    }

    /** Records the mode and sizes the table: len(shortest) rows by 2d + 1 = 7
        columns in banded mode, len(seq1) by len(seq2) in full mode. */
    method Align(seq1: string, seq2: string, banded: bool, alignLength: int)
      modifies this
      ensures this.banded == banded && d == 3 && maxCharactersToAlign == alignLength
      ensures table != null && fresh(table) && fresh(table.cells) && table.Valid()
      ensures banded ==> table.numRows == |ShorterLonger(seq1, seq2).0| && table.numCols == 2 * d + 1 == 7
      ensures !banded ==> table.numRows == |seq1| && table.numCols == |seq2|
    {
      this.banded := banded;
      maxCharactersToAlign := alignLength;
      d := 3;
      table := null;
      var k := d * 2 + 1;
      var (shortest, longest) := ShorterLonger(seq1, seq2);
      if banded {
        table := new Table(|shortest|, k);
      } else {
        table := new Table(|seq1|, |seq2|);
      }
    }
  }
}
