/** The stand-alone simulation loop of src/index.tsx: its own copy of the rule
    evaluator and a generation stream folded from a frame counter. */
module LifeStream {
  import opened Cells
  import GameRules
  import Controller

  /** `CELL_SIZE` of src/index.tsx. */
  const CELL_SIZE: nat := 10

  /** This file's `getNextCellState`, with the neighbour array written out. */
  function NextCellState(lifeState: Grid, x: int, y: int): (next: CellState)
    requires InRange(lifeState, x, y)
    ensures next == GameRules.NextCellState(lifeState, x, y)
  {
    var prev := lifeState[x][y];
    var n := SumFrom(0, [
      Lookup(lifeState, x - 1, y - 1),
      Lookup(lifeState, x, y - 1),
      Lookup(lifeState, x + 1, y - 1),
      Lookup(lifeState, x - 1, y),
      Lookup(lifeState, x + 1, y),
      Lookup(lifeState, x - 1, y + 1),
      Lookup(lifeState, x, y + 1),
      Lookup(lifeState, x + 1, y + 1)]);
    assert n == GameRules.AliveNeighbours(lifeState, x, y) by {
      assert GameRules.LookupAll(lifeState, GameRules.MooreNeighbourhood(x, y)) == [
        Lookup(lifeState, x - 1, y - 1),
        Lookup(lifeState, x, y - 1),
        Lookup(lifeState, x + 1, y - 1),
        Lookup(lifeState, x - 1, y),
        Lookup(lifeState, x + 1, y),
        Lookup(lifeState, x - 1, y + 1),
        Lookup(lifeState, x, y + 1),
        Lookup(lifeState, x + 1, y + 1)];
    }
    if prev == Dead && n == 3 then Alive
    else if prev == Dead && n != 3 then Dead
    else if n == 2 || n == 3 then Alive
    else Dead
  }

  /** One step of the `scan`: the first frame passes the seed through, every
      later frame maps each cell through the rule against the previous grid. */
  function Step(prevLife: Grid, i: nat): (next: Grid)
    ensures i == 0 ==> next == prevLife
    ensures i > 0 ==> next == GameRules.Advance(prevLife)
  {
    if i == 0 then prevLife
    else
      var next := seq(|prevLife|, x requires 0 <= x < |prevLife| =>
        seq(|prevLife[x]|, y requires 0 <= y < |prevLife[x]| => NextCellState(prevLife, x, y)));
      assert next == GameRules.Advance(prevLife) by {
        var adv := GameRules.Advance(prevLife);
        forall x | 0 <= x < |prevLife| ensures next[x] == adv[x] {}
      }
      next
  }

  /** The first `n` values of `getLifeState$`. */
  function Emissions(initialState: Grid, n: nat): (out: seq<Grid>)
    ensures |out| == n
  {
    if n == 0 then []
    else
      var earlier := Emissions(initialState, n - 1);
      earlier + [Step(if n == 1 then initialState else earlier[n - 2], n - 1)]
  }

  /** The stream opens with the initial grid and each later value is one
      generation on from the one before: value i is generation i. */
  lemma {:induction false} EmissionsAreGenerations(initialState: Grid, n: nat)
    ensures forall i :: 0 <= i < n ==> Emissions(initialState, n)[i] == GameRules.Generation(initialState, i)
  {
    if n > 0 {
      EmissionsAreGenerations(initialState, n - 1);
      var out := Emissions(initialState, n);
      assert out[..n - 1] == Emissions(initialState, n - 1);
    }
  }

  lemma FirstEmissionIsInitial(initialState: Grid, n: nat)
    requires n > 0
    ensures Emissions(initialState, n)[0] == initialState
  {
    EmissionsAreGenerations(initialState, n);
  }

  /** Every value of the stream has the shape of the initial grid. */
  lemma EmissionsKeepShape(initialState: Grid, n: nat, i: nat)
    requires i < n
    ensures SameShape(Emissions(initialState, n)[i], initialState)
  {
    EmissionsAreGenerations(initialState, n);
    GameRules.GenerationKeepsShape(initialState, i);
  }

  /** The grid size computed in `main` from the target's pixel size. */
  function MainGridSize(width: nat, height: nat): (size: (nat, int))
    ensures size.0 == width / 10 && size.1 == height / 10 - 10
  {
    (Controller.ColumnsCount(width, CELL_SIZE), Controller.RowsCount(height, CELL_SIZE))
  }
}
