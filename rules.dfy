/** The rule evaluator and the whole-grid advance of `Game` (src/core/Game.ts). */
module GameRules {
  import opened Cells

  /** The eight neighbour positions of (x, y), in the order the source lists them. */
  function MooreNeighbourhood(x: int, y: int): seq<(int, int)>
  {
    [(x - 1, y - 1), (x, y - 1), (x + 1, y - 1),
     (x - 1, y),                 (x + 1, y),
     (x - 1, y + 1), (x, y + 1), (x + 1, y + 1)]
  }

  /** The looked-up values at a list of positions (the array literal of the source). */
  function LookupAll(g: Grid, ps: seq<(int, int)>): (cells: seq<Option<CellState>>)
    ensures |cells| == |ps|
    ensures forall k :: 0 <= k < |ps| ==> cells[k] == Lookup(g, ps[k].0, ps[k].1)
  {
    seq(|ps|, k requires 0 <= k < |ps| => Lookup(g, ps[k].0, ps[k].1))
  }

  /** The number of Alive cells among the eight neighbours of (x, y); positions
      off the grid contribute 0. */
  function AliveNeighbours(g: Grid, x: int, y: int): (n: nat)
    ensures n <= 8
  {
    SumFrom(0, LookupAll(g, MooreNeighbourhood(x, y)))
  }

  /** `Game.getNextCellState`: Conway's rule applied to the cell (x, y) of `g`. */
  function NextCellState(g: Grid, x: int, y: int): (next: CellState)
    requires InRange(g, x, y)
    ensures g[x][y] == Dead ==> (next == Alive <==> AliveNeighbours(g, x, y) == 3)
    ensures g[x][y] == Alive ==> (next == Alive <==> AliveNeighbours(g, x, y) in {2, 3})
  {
    var prev := g[x][y];
    var n := AliveNeighbours(g, x, y);
    if prev == Dead && n == 3 then Alive
    else if prev == Dead && n != 3 then Dead
    else if n == 2 || n == 3 then Alive
    else Dead
  }

  /** One generation: every cell is recomputed from the same snapshot `g`. */
  function Advance(g: Grid): (next: Grid)
    ensures SameShape(next, g)
    ensures forall x, y :: InRange(g, x, y) ==> next[x][y] == NextCellState(g, x, y)
  {
    seq(|g|, x requires 0 <= x < |g| =>
      seq(|g[x]|, y requires 0 <= y < |g[x]| => NextCellState(g, x, y)))
  }

  /** `n` generations from `g`: Advance applied n times. */
  function Generation(g: Grid, n: nat): Grid
  {
    if n == 0 then g else Advance(Generation(g, n - 1))
  }

  // ---------------------------------------------------------------------------
  // The neighbour count, against an independent definition

  /** The positions at Chebyshev distance 1 from (x, y) that hold an Alive cell. */
  ghost function AliveNeighbourSet(g: Grid, x: int, y: int): set<(int, int)>
  {
    set i, j | x - 1 <= i <= x + 1 && y - 1 <= j <= y + 1 && (i != x || j != y) && IsAliveAt(g, i, j)
      :: (i, j)
  }

  ghost function AliveAmong(g: Grid, ps: seq<(int, int)>): set<(int, int)>
  {
    set p | p in ps && IsAliveAt(g, p.0, p.1)
  }

  ghost predicate Distinct<T>(s: seq<T>)
  {
    forall i, j :: 0 <= i < j < |s| ==> s[i] != s[j]
  }

  lemma AliveAmongCons(g: Grid, ps: seq<(int, int)>)
    requires ps != []
    ensures AliveAmong(g, ps) ==
      AliveAmong(g, ps[1..]) + if IsAliveAt(g, ps[0].0, ps[0].1) then {ps[0]} else {}
  {
    assert forall p :: p in ps <==> p == ps[0] || p in ps[1..];
  }

  lemma DistinctTail(ps: seq<(int, int)>)
    requires ps != [] && Distinct(ps)
    ensures Distinct(ps[1..]) && ps[0] !in ps[1..]
  {
    var rest := ps[1..];
    forall i, j | 0 <= i < j < |rest| ensures rest[i] != rest[j] {
      assert rest[i] == ps[i + 1] && rest[j] == ps[j + 1];
    }
    forall k | 0 <= k < |rest| ensures rest[k] != ps[0] {
      assert rest[k] == ps[k + 1];
    }
  }

  lemma LookupAllTail(g: Grid, ps: seq<(int, int)>)
    requires ps != []
    ensures LookupAll(g, ps)[1..] == LookupAll(g, ps[1..])
  {
  }

  lemma WeightOfLookup(g: Grid, x: int, y: int)
    ensures Weight(Lookup(g, x, y)) == if IsAliveAt(g, x, y) then 1 else 0
  {
  }

  /** Summing the weights of distinct positions counts the Alive ones among them. */
  lemma {:induction false} SumCountsAlive(g: Grid, acc: nat, ps: seq<(int, int)>)
    requires Distinct(ps)
    ensures SumFrom(acc, LookupAll(g, ps)) == acc + |AliveAmong(g, ps)|
    decreases |ps|
  {
    if ps != [] {
      var cells := LookupAll(g, ps);
      var p, rest := ps[0], ps[1..];
      var w := Weight(cells[0]);
      LookupAllTail(g, ps);
      DistinctTail(ps);
      WeightOfLookup(g, p.0, p.1);
      assert SumFrom(acc, cells) == SumFrom(acc + w, LookupAll(g, rest));
      SumCountsAlive(g, acc + w, rest);
      AliveAmongCons(g, ps);
      var whole, tail := AliveAmong(g, ps), AliveAmong(g, rest);
      if IsAliveAt(g, p.0, p.1) {
        assert whole == tail + {p};
        assert p !in tail;
        assert |whole| == |tail| + 1;
      } else {
        assert whole == tail;
      }
    }
  }

  /** The neighbour count is exactly the number of in-range Alive neighbours:
      cells off the grid never count and the centre cell is never counted. */
  lemma AliveNeighboursIsCardinality(g: Grid, x: int, y: int)
    ensures AliveNeighbours(g, x, y) == |AliveNeighbourSet(g, x, y)|
  {
    var ps := MooreNeighbourhood(x, y);
    SumCountsAlive(g, 0, ps);
    forall p | p in AliveNeighbourSet(g, x, y)
      ensures p in AliveAmong(g, ps)
    {
      assert p in ps;
    }
    assert AliveNeighbourSet(g, x, y) == AliveAmong(g, ps);
  }

  /** A cell's next state depends only on the 3 by 3 block of the snapshot
      around it, never on any other cell nor on the order cells are computed. */
  lemma AdvanceIsLocal(g1: Grid, g2: Grid, x: int, y: int)
    requires InRange(g1, x, y) && InRange(g2, x, y)
    requires forall i, j :: x - 1 <= i <= x + 1 && y - 1 <= j <= y + 1 ==> Lookup(g1, i, j) == Lookup(g2, i, j)
    ensures Advance(g1)[x][y] == Advance(g2)[x][y]
  {
    var ps := MooreNeighbourhood(x, y);
    assert LookupAll(g1, ps) == LookupAll(g2, ps);
    assert Lookup(g1, x, y) == Lookup(g2, x, y);
  }

  /** Every generation keeps the shape of the starting grid. */
  lemma {:induction false} GenerationKeepsShape(g: Grid, n: nat)
    ensures SameShape(Generation(g, n), g)
  {
    if n > 0 {
      GenerationKeepsShape(g, n - 1);
    }
  }

  // ---------------------------------------------------------------------------
  // A worked example: the blinker oscillates with period 2

  const Row: Grid := [[Dead, Alive, Dead], [Dead, Alive, Dead], [Dead, Alive, Dead]]
  const Column: Grid := [[Dead, Dead, Dead], [Alive, Alive, Alive], [Dead, Dead, Dead]]

  lemma SumFromStep(acc: nat, cells: seq<Option<CellState>>, k: nat)
    requires k < |cells|
    ensures SumFrom(acc, cells[k..]) == SumFrom(acc + Weight(cells[k]), cells[k + 1..])
  {
    assert cells[k..][1..] == cells[k + 1..];
  }

  /** The fold written out as the sum of its eight terms. */
  lemma AliveNeighboursUnrolled(g: Grid, x: int, y: int)
    ensures AliveNeighbours(g, x, y) ==
      Weight(Lookup(g, x - 1, y - 1)) + Weight(Lookup(g, x, y - 1)) + Weight(Lookup(g, x + 1, y - 1)) +
      Weight(Lookup(g, x - 1, y)) + Weight(Lookup(g, x + 1, y)) +
      Weight(Lookup(g, x - 1, y + 1)) + Weight(Lookup(g, x, y + 1)) + Weight(Lookup(g, x + 1, y + 1))
  {
    var c := LookupAll(g, MooreNeighbourhood(x, y));
    assert c[0..] == c;
    SumFromStep(0, c, 0);
    var a1 := Weight(c[0]);
    SumFromStep(a1, c, 1);
    var a2 := a1 + Weight(c[1]);
    SumFromStep(a2, c, 2);
    var a3 := a2 + Weight(c[2]);
    SumFromStep(a3, c, 3);
    var a4 := a3 + Weight(c[3]);
    SumFromStep(a4, c, 4);
    var a5 := a4 + Weight(c[4]);
    SumFromStep(a5, c, 5);
    var a6 := a5 + Weight(c[5]);
    SumFromStep(a6, c, 6);
    var a7 := a6 + Weight(c[6]);
    SumFromStep(a7, c, 7);
    assert c[8..] == [];
  }

  lemma RowStep(x: int, y: int)
    requires 0 <= x < 3 && 0 <= y < 3
    ensures NextCellState(Row, x, y) == Column[x][y]
  {
    AliveNeighboursUnrolled(Row, x, y);
    if x == 0 {
      if y == 0 {} else if y == 1 {} else {}
    } else if x == 1 {
      if y == 0 {} else if y == 1 {} else {}
    } else {
      if y == 0 {} else if y == 1 {} else {}
    }
  }

  lemma ColumnStep(x: int, y: int)
    requires 0 <= x < 3 && 0 <= y < 3
    ensures NextCellState(Column, x, y) == Row[x][y]
  {
    AliveNeighboursUnrolled(Column, x, y);
    if x == 0 {
      if y == 0 {} else if y == 1 {} else {}
    } else if x == 1 {
      if y == 0 {} else if y == 1 {} else {}
    } else {
      if y == 0 {} else if y == 1 {} else {}
    }
  }

  /** The horizontal blinker turns vertical and back again. */
  lemma BlinkerOscillates()
    ensures Advance(Row) == Column
    ensures Advance(Column) == Row
    ensures Generation(Row, 2) == Row
  {
    forall x, y | InRange(Row, x, y) ensures Advance(Row)[x][y] == Column[x][y] {
      RowStep(x, y);
    }
    var next := Advance(Row);
    assert next[0] == Column[0] && next[1] == Column[1] && next[2] == Column[2];
    forall x, y | InRange(Column, x, y) ensures Advance(Column)[x][y] == Row[x][y] {
      ColumnStep(x, y);
    }
    var back := Advance(Column);
    assert back[0] == Row[0] && back[1] == Row[1] && back[2] == Row[2];
  }
}
