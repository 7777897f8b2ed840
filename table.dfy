/** The alignment table: a rectangular grid of cells with its base cases. */
module Tables {
  import opened Cells

  class Table {
    const numRows: nat
    const numCols: nat
    const cells: array2<Cell>

    ghost predicate Valid() {
      cells.Length0 == numRows && cells.Length1 == numCols
    }

    predicate InRange(c: Coord) {
      0 <= c.row < numRows && 0 <= c.col < numCols
    }

    function ValueAt(c: Coord): int
      reads cells
      requires Valid() && InRange(c)
    {
      cells[c.row, c.col].value
    }

    /** The left column and the top row hold the sums of `indelCost` along the edge. */
    ghost predicate BaseCasesFilled(indelCost: int)
      reads cells
      requires Valid()
    {
      (forall i :: 0 <= i < numRows && numCols > 0 ==> cells[i, 0].value == i * indelCost) &&
      (forall j :: 0 <= j < numCols && numRows > 0 ==> cells[0, j].value == j * indelCost)
    }

    /** A grid of `numRows` rows of `numCols` fresh cells each; what a fresh
        cell holds is not specified. */
    constructor (numRows: nat, numCols: nat)
      ensures Valid() && fresh(cells)
      ensures this.numRows == numRows && this.numCols == numCols
    {
      this.numRows := numRows;
      this.numCols := numCols;
      cells := new Cell[numRows, numCols];
    }

    /** The origin gets value 0 and no predecessor, the left column deletions
        and the top row insertions, each cell extending its neighbour on the edge. */
    method FillBaseCases(indelCost: int)
      requires Valid() && numRows >= 1 && numCols >= 1
      modifies cells
      ensures cells[0, 0] == old(cells[0, 0]).(value := 0, backPointer := None)
      ensures forall i :: 1 <= i < numRows ==>
                cells[i, 0] == Cell(i * indelCost, Delete, Some(Coord(i - 1, 0)))
      ensures forall j :: 1 <= j < numCols ==>
                cells[0, j] == Cell(j * indelCost, Insert, Some(Coord(0, j - 1)))
      ensures forall i, j :: 1 <= i < numRows && 1 <= j < numCols ==> cells[i, j] == old(cells[i, j])
      ensures BaseCasesFilled(indelCost)
    {
      cells[0, 0] := cells[0, 0].(value := 0, backPointer := None);
      var i := 1;
      while i < numRows
        invariant 1 <= i <= numRows
        invariant cells[0, 0] == old(cells[0, 0]).(value := 0, backPointer := None)
        invariant forall k :: 1 <= k < i ==>
                    cells[k, 0] == Cell(k * indelCost, Delete, Some(Coord(k - 1, 0)))
        invariant forall p, q :: 0 <= p < numRows && 0 <= q < numCols && (q != 0 || p >= i) ==>
                    cells[p, q] == old(cells[p, q])
      {
        cells[i, 0] := Cell(cells[i - 1, 0].value + indelCost, Delete, Some(Coord(i - 1, 0)));
        i := i + 1;
      }
      var j := 1;
      while j < numCols
        invariant 1 <= j <= numCols
        invariant cells[0, 0] == old(cells[0, 0]).(value := 0, backPointer := None)
        invariant forall k :: 1 <= k < numRows ==>
                    cells[k, 0] == Cell(k * indelCost, Delete, Some(Coord(k - 1, 0)))
        invariant forall k :: 1 <= k < j ==>
                    cells[0, k] == Cell(k * indelCost, Insert, Some(Coord(0, k - 1)))
        invariant forall p, q :: 1 <= p < numRows && 1 <= q < numCols ==> cells[p, q] == old(cells[p, q])
      {
        cells[0, j] := Cell(cells[0, j - 1].value + indelCost, Insert, Some(Coord(0, j - 1)));
        j := j + 1;
      }
    }
  }
}
