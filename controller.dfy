/** `MainController` (src/controllers/MainController.ts): sizes the grid from the
    scene's pixel size and creates the one `Game` the renderer is given. */
module Controller {
  import opened Cells
  import opened GameStore
  import Controls

  /** `(width - (width % CELL_SIZE)) / CELL_SIZE`: the columns that fit entirely. */
  function ColumnsCount(width: nat, cellSize: nat): (columns: nat)
    requires cellSize > 0
    ensures columns * cellSize <= width < (columns + 1) * cellSize
  {
    DivisionIsExact(width / cellSize, cellSize);
    (width - width % cellSize) / cellSize
  }

  /** `(height - (height % CELL_SIZE) - CELL_SIZE * 10) / CELL_SIZE`: the rows that
      fit, less ten rows kept for the controls. Nothing stops it going negative. */
  function RowsCount(height: nat, cellSize: nat): (rows: int)
    requires cellSize > 0
    ensures rows == height / cellSize - 10
    ensures rows < 0 <==> height < 10 * cellSize
  {
    DivisionIsExact(height / cellSize - 10, cellSize);
    (height - height % cellSize - cellSize * 10) / cellSize
  }

  /** The dividend in both counts is a whole multiple of the cell size, so the
      division is exact and Dafny's Euclidean `/` agrees with JavaScript's. */
  lemma DivisionIsExact(q: int, cellSize: nat)
    requires cellSize > 0
    ensures (q * cellSize) / cellSize == q
  {
    var d, r := (q * cellSize) / cellSize, (q * cellSize) % cellSize;
    assert (q - d) * cellSize == r by {
      assert q * cellSize == d * cellSize + r;
    }
    MultipleAwayFromZero(q - d, cellSize);
  }

  lemma MultipleAwayFromZero(k: int, c: nat)
    requires c > 0
    ensures k >= 1 ==> k * c >= c
    ensures k <= -1 ==> k * c + c <= 0
  {
  }

  /** The state the game starts in: paused, with the default speed's interval. */
  function InitialLife(grid: Grid, speedRangeDefault: int, speedInterval: nat): Life
  {
    Life(grid, false, speedRangeDefault * speedInterval)
  }

  /** The starting interval is the one the speed slider produces at level
      `SPEED_RANGE_MAX_VALUE - SPEED_RANGE_DEFAULT_VALUE`, for a non-negative default. */
  lemma InitialIntervalOnSliderScale(grid: Grid, speedRangeDefault: nat, speedRangeMax: int, speedInterval: nat)
    ensures InitialLife(grid, speedRangeDefault, speedInterval).interval ==
      Controls.SpeedLevelToInterval(speedRangeMax - speedRangeDefault, speedRangeMax, speedInterval)
    ensures !InitialLife(grid, speedRangeDefault, speedInterval).isRunning
  {
  }

  /** What the renderer is handed besides the game (LifeRendererProps). */
  datatype RendererProps = RendererProps(columnsCount: nat, rowsCount: int)

  class MainController {
    const game: Game
    const columnsCount: nat
    const rowsCount: int
    var rendererProps: RendererProps

    /** `width` and `height` are the scene's bounding box; the constants of the
        application and the random grid generator are parameters. */
    constructor (width: nat, height: nat, cellSize: nat, speedRangeDefault: int, speedInterval: nat,
                 randomLifeState: (nat, int) -> Grid)
      requires cellSize > 0
      ensures columnsCount == ColumnsCount(width, cellSize) && rowsCount == RowsCount(height, cellSize)
      ensures fresh(game) && game.Valid()
      ensures game.Current() == InitialLife(randomLifeState(columnsCount, rowsCount), speedRangeDefault, speedInterval)
      ensures !game.isRunning
      ensures rendererProps.columnsCount == columnsCount && rendererProps.rowsCount == rowsCount
    {
      var columns := ColumnsCount(width, cellSize);
      var rows := RowsCount(height, cellSize);
      columnsCount := columns;
      rowsCount := rows;
      game := new Game(InitialLife(randomLifeState(columns, rows), speedRangeDefault, speedInterval));
      rendererProps := RendererProps(columns, rows);
    }
  }
}
