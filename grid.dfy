/**
 * The cell map shared by both revisions of the game-data service: a list of
 * rows of 0/1 cells, the Conway rule both revisions apply, the single-cell
 * toggle, and the four resize operations as functions on cell maps.
 */
module Grid {

  /** `type Cell = 1 | 0` */
  type Cell = x: int | x == 0 || x == 1

  /** `Cell[][]`, outer list = rows */
  type CellMap = seq<seq<Cell>>

  /** `{ r, c }` pairs naming one cell */
  datatype Coordinates = Coordinates(r: int, c: int)

  /** Every row is as long as the first: the grid is not jagged. */
  predicate Rectangular(g: CellMap)
  {
    forall r :: 0 <= r < |g| ==> |g[r]| == |g[0]|
  }

  /** The number of columns, read off the first row as the source does. */
  function Width(g: CellMap): nat
  {
    if |g| == 0 then 0 else |g[0]|
  }

  predicate InBounds(g: CellMap, row: int, col: int)
  {
    0 <= row < |g| && 0 <= col < |g[row]|
  }

  /** `Array(n).fill(0)` */
  function ZeroRow(n: nat): seq<Cell>
  {
    seq(n, _ => 0)
  }

  /** A `rows` by `cols` map of dead cells. */
  function Zeros(rows: nat, cols: nat): (z: CellMap)
    ensures |z| == rows && Rectangular(z) && (rows > 0 ==> Width(z) == cols)
    ensures forall r, c :: 0 <= r < rows && 0 <= c < |z[r]| ==> z[r][c] == 0
  {
    seq(rows, _ => ZeroRow(cols))
  }

  /**
   * Conway's rule for one cell given its live-neighbour count: a live cell
   * survives with 2 or 3 neighbours, a dead cell is born with exactly 3,
   * every other cell ends dead.
   */
  function Rule(cell: Cell, neighbors: int): (next: Cell)
    ensures next == 1 <==> neighbors == 3 || (cell == 1 && neighbors == 2)
  {
    if cell == 1 then
      if neighbors == 2 || neighbors == 3 then 1 else 0
    else
      if neighbors == 3 then 1 else 0
  }

  /** `cellMap[row][col] = v` */
  function SetCell(g: CellMap, row: int, col: int, v: Cell): CellMap
    requires InBounds(g, row, col)
  {
    var updated: seq<Cell> := g[row][col := v];
    g[row := updated]
  }

  /** A row being filled left to right: the first `col` cells of `done`, then dead cells. */
  function Filled(done: seq<Cell>, col: nat): seq<Cell>
    requires col <= |done|
  {
    done[..col] + ZeroRow(|done| - col)
  }

  /** Writing a cell's own value back leaves the map as it was. */
  lemma SetCellSame(g: CellMap, row: int, col: int)
    requires InBounds(g, row, col)
    ensures SetCell(g, row, col, g[row][col]) == g
  {
    assert g[row][col := g[row][col]] == g[row];
  }

  /**
   * Writing the next cell of `done` into the first dead position extends
   * the finished prefix by one; a finished row is `done` itself.
   */
  lemma FillStep(done: seq<Cell>, col: nat)
    requires col < |done|
    ensures |Filled(done, col)| == |done| && Filled(done, col)[col] == 0
    ensures Filled(done, col)[col := done[col]] == Filled(done, col + 1)
    ensures done[col] == 0 ==> Filled(done, col) == Filled(done, col + 1)
  {
    var a, b := Filled(done, col)[col := done[col]], Filled(done, col + 1);
    assert forall k :: 0 <= k < |done| ==> a[k] == b[k];
    if done[col] == 0 {
      var c := Filled(done, col);
      assert forall k :: 0 <= k < |done| ==> c[k] == b[k];
    }
  }

  /** A row not yet started is all dead; a finished one is `done`. */
  lemma FilledEnds(done: seq<Cell>)
    ensures Filled(done, 0) == ZeroRow(|done|) && Filled(done, |done|) == done
  {
    assert done[..|done|] + ZeroRow(0) == done;
  }

  /** `FillStep` on one row of a whole map. */
  lemma FillCell(base: CellMap, row: int, done: seq<Cell>, col: nat)
    requires 0 <= row < |base| && col < |done|
    ensures SetCell(base[row := Filled(done, col)], row, col, done[col]) == base[row := Filled(done, col + 1)]
  {
    FillStep(done, col);
    var g, h := base[row := Filled(done, col)], base[row := Filled(done, col + 1)];
    assert forall r :: 0 <= r < |base| ==> SetCell(g, row, col, done[col])[r] == h[r];
  }

  /** `cellMap[row][col] = cellMap[row][col] ? 0 : 1` */
  function Flip(g: CellMap, row: int, col: int): (h: CellMap)
    requires InBounds(g, row, col)
    ensures |h| == |g| && forall r :: 0 <= r < |g| ==> |h[r]| == |g[r]|
    ensures h[row][col] != g[row][col]
    ensures forall r, c :: InBounds(g, r, c) && (r != row || c != col) ==> h[r][c] == g[r][c]
  {
    g[row := g[row][col := if g[row][col] == 1 then 0 else 1]]
  }

  /** Toggling the same cell twice gives back the original map. */
  lemma FlipTwice(g: CellMap, row: int, col: int)
    requires InBounds(g, row, col)
    ensures Flip(Flip(g, row, col), row, col) == g
  {
    var h := Flip(Flip(g, row, col), row, col);
    assert h[row] == g[row];
  }

  /** Appends a dead row of the given width. */
  function WithZeroRow(g: CellMap, width: nat): (h: CellMap)
    ensures |h| == |g| + 1 && h[..|g|] == g
    ensures h[|g|] == ZeroRow(width) && |h[|g|]| == width
  {
    g + [ZeroRow(width)]
  }

  /** `pop()` on the row list: drops the last row, nothing on an empty map. */
  function WithoutLastRow(g: CellMap): (h: CellMap)
    ensures |h| == if |g| == 0 then 0 else |g| - 1
    ensures h == g[..|h|]
  {
    if |g| == 0 then g else g[..|g| - 1]
  }

  /** `push(0)` on every row. */
  function WithZeroColumn(g: CellMap): (h: CellMap)
    ensures |h| == |g|
    ensures forall r :: 0 <= r < |g| ==> |h[r]| == |g[r]| + 1 && h[r][..|g[r]|] == g[r] && h[r][|g[r]|] == 0
  {
    seq(|g|, r requires 0 <= r < |g| => g[r] + [0])
  }

  /** `pop()` on every row; popping an empty row leaves it empty. */
  function WithoutLastColumn(g: CellMap): (h: CellMap)
    ensures |h| == |g|
    ensures forall r :: 0 <= r < |g| ==>
      |h[r]| == (if |g[r]| == 0 then 0 else |g[r]| - 1) && h[r] == g[r][..|h[r]|]
  {
    seq(|g|, r requires 0 <= r < |g| => if |g[r]| == 0 then g[r] else g[r][..|g[r]| - 1])
  }

  /** Adding a row and removing it again restores the map. */
  lemma {:induction false} RowRoundTrip(g: CellMap, width: nat)
    ensures WithoutLastRow(WithZeroRow(g, width)) == g
  {
    assert (g + [ZeroRow(width)])[..|g|] == g;
  }

  /** Adding a column and removing it again restores the map. */
  lemma {:induction false} ColumnRoundTrip(g: CellMap)
    ensures WithoutLastColumn(WithZeroColumn(g)) == g
  {
    var h := WithoutLastColumn(WithZeroColumn(g));
    forall r | 0 <= r < |g|
      ensures h[r] == g[r]
    {
      assert (g[r] + [0])[..|g[r]|] == g[r];
    }
  }

  /**
   * Each resize keeps a rectangular map rectangular, with the expected
   * number of rows and columns.
   */
  lemma ResizeKeepsRectangular(g: CellMap)
    requires Rectangular(g)
    ensures var h := WithZeroRow(g, Width(g));
      Rectangular(h) && |h| == |g| + 1 && Width(h) == Width(g)
    ensures var h := WithoutLastRow(g);
      Rectangular(h) && |h| == if |g| == 0 then 0 else |g| - 1
    ensures var h := WithZeroColumn(g);
      Rectangular(h) && |h| == |g| && (|g| > 0 ==> Width(h) == Width(g) + 1)
    ensures var h := WithoutLastColumn(g);
      Rectangular(h) && |h| == |g| && (|g| > 0 ==> Width(h) == if Width(g) == 0 then 0 else Width(g) - 1)
  {
  }
}
