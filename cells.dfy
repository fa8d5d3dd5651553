/** Cell states, grids and the JavaScript lookup idioms the rule evaluator is built on. */
module Cells {

  datatype Option<T> = None | Some(value: T)

  /** The two states a cell can take; numerically Alive is 1 and Dead is 0. */
  datatype CellState = Alive | Dead

  /** A grid is a sequence of columns: `g[x][y]` is the cell in column x, row y.
      Columns are not required to have equal length. */
  type Grid = seq<seq<CellState>>

  predicate InRange(g: Grid, x: int, y: int)
  {
    0 <= x < |g| && 0 <= y < |g[x]|
  }

  predicate IsAliveAt(g: Grid, x: int, y: int)
  {
    InRange(g, x, y) && g[x][y] == Alive
  }

  /** Two grids have the same number of columns and each column the same length. */
  predicate SameShape(a: Grid, b: Grid)
  {
    |a| == |b| && forall x :: 0 <= x < |a| ==> |a[x]| == |b[x]|
  }

  /** `(state[x] || [])[y]`: a missing column reads as the empty array, and a
      missing row in any column reads as `undefined` (None). */
  function Lookup(g: Grid, x: int, y: int): Option<CellState>
  {
    if InRange(g, x, y) then Some(g[x][y]) else None
  }

  /** `cell || 0`: the numeric value a looked-up cell adds to the sum. */
  function Weight(cell: Option<CellState>): nat
  {
    match cell
    case Some(Alive) => 1
    case Some(Dead) => 0
    case None => 0
  }

  /** `cells.reduce((acc, cell) => acc + (cell || 0), acc)`, a left fold. */
  function SumFrom(acc: nat, cells: seq<Option<CellState>>): (total: nat)
    ensures acc <= total <= acc + |cells|
    decreases |cells|
  {
    if cells == [] then acc else SumFrom(acc + Weight(cells[0]), cells[1..])
  }
}
