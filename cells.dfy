/** The record stored in every cell of the alignment table.

    A cell is modelled as a plain value of the three fields that the table and
    the aligner write: the accumulated cost, the operation that produced it and
    the coordinate of the predecessor cell (the source keeps an object
    reference there; a coordinate names the same cell of the same table). */
module Cells {

  datatype Option<+T> = None | Some(value: T)

  /** The operation tags of the source: insert = 0, delete = 1, match_sub = 2. */
  datatype Op = Insert | Delete | MatchSub

  /** A (row, column) position in a table. */
  datatype Coord = Coord(row: int, col: int)

  datatype Cell = Cell(value: int, operation: Op, backPointer: Option<Coord>)
}
