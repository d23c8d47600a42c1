/**
 * Conway's rule in action on the current engine: a 2 by 2 block is still and
 * a blinker oscillates with period 2, on every torus large enough to hold
 * them. All three are maps whose live cells form one rectangle, so the
 * count of a cell is the number of probed columns inside the rectangle,
 * once for each probed row inside it.
 */
module Evolution {
  import opened Grid
  import opened Generation

  /** A `rows` by `cols` map whose live cells are the rectangle `[r0, r1) x [c0, c1)`. */
  function Rect(rows: nat, cols: nat, r0: int, r1: int, c0: int, c1: int): (g: CellMap)
    ensures |g| == rows && Rectangular(g) && (rows > 0 ==> Width(g) == cols)
    ensures forall x, y :: 0 <= x < rows && 0 <= y < cols ==>
      (g[x][y] == 1 <==> r0 <= x < r1 && c0 <= y < c1)
  {
    seq(rows, x requires 0 <= x < rows =>
      seq(cols, y requires 0 <= y < cols => if r0 <= x < r1 && c0 <= y < c1 then 1 else 0))
  }

  /** How many of three probed indices fall in `[lo, hi)`. */
  function Among(s: seq<int>, lo: int, hi: int): (n: nat)
    requires |s| == 3
    ensures n <= 3
  {
    (if lo <= s[0] < hi then 1 else 0) + (if lo <= s[1] < hi then 1 else 0) + (if lo <= s[2] < hi then 1 else 0)
  }

  /** One probe of a rectangle map: live inside the rectangle, not counting the centre. */
  lemma RectHit(rows: nat, cols: nat, r0: int, r1: int, c0: int, c1: int, x: int, y: int, row: int, col: int)
    requires 0 <= x < rows && 0 <= y < cols
    ensures Hit(Rect(rows, cols, r0, r1, c0, c1), x, y, row, col)
         == if r0 <= x < r1 && c0 <= y < c1 && !(x == row && y == col) then 1 else 0
  {
  }

  /** What one probed row contributes: the probed columns inside the rectangle, when the row is inside it. */
  function RowShare(r: int, r0: int, r1: int, inCols: nat): nat
  {
    if r0 <= r < r1 then inCols else 0
  }

  /** The three probes along one row of a rectangle map. */
  lemma RectRow(rows: nat, cols: nat, r0: int, r1: int, c0: int, c1: int, x: int, row: int, col: int)
    requires cols >= 3 && 0 <= x < rows && 0 <= col < cols
    ensures var cs := Around(col, cols);
      Hit(Rect(rows, cols, r0, r1, c0, c1), x, cs[0], row, col)
        + Hit(Rect(rows, cols, r0, r1, c0, c1), x, cs[1], row, col)
        + Hit(Rect(rows, cols, r0, r1, c0, c1), x, cs[2], row, col)
      == RowShare(x, r0, r1, Among(cs, c0, c1)) - (if x == row && r0 <= x < r1 && c0 <= col < c1 then 1 else 0)
  {
    var cs := Around(col, cols);
    AroundValues(col, cols);
    RectHit(rows, cols, r0, r1, c0, c1, x, cs[0], row, col);
    RectHit(rows, cols, r0, r1, c0, c1, x, cs[1], row, col);
    RectHit(rows, cols, r0, r1, c0, c1, x, cs[2], row, col);
  }

  /**
   * On a torus of at least 3 by 3 the count of a cell of a rectangle map is,
   * over the three probed rows inside the rectangle, the number of probed
   * columns inside it, less the cell itself when it is live.
   */
  lemma RectCount(rows: nat, cols: nat, r0: int, r1: int, c0: int, c1: int, row: int, col: int)
    requires rows >= 3 && cols >= 3 && 0 <= row < rows && 0 <= col < cols
    ensures var rs, n := Around(row, rows), Among(Around(col, cols), c0, c1);
      ProbeCount(Rect(rows, cols, r0, r1, c0, c1), row, col)
        == RowShare(rs[0], r0, r1, n) + RowShare(rs[1], r0, r1, n) + RowShare(rs[2], r0, r1, n)
           - (if r0 <= row < r1 && c0 <= col < c1 then 1 else 0)
  {
    var g := Rect(rows, cols, r0, r1, c0, c1);
    var rs := Around(row, rows);
    ProbeCountUnrolled(g, row, col);
    AroundValues(row, rows);
    RectRow(rows, cols, r0, r1, c0, c1, rs[0], row, col);
    RectRow(rows, cols, r0, r1, c0, c1, rs[1], row, col);
    RectRow(rows, cols, r0, r1, c0, c1, rs[2], row, col);
  }

  // ----- the block -----

  /** A 2 by 2 block of live cells at rows 1-2, columns 1-2. */
  function Block(rows: nat, cols: nat): CellMap
  {
    Rect(rows, cols, 1, 3, 1, 3)
  }

  /** Along an axis of at least 4 cells, the probes see two of `[1, 3)` inside it and at most one outside. */
  lemma AmongPair(x: int, n: int)
    requires n >= 4 && 0 <= x < n
    ensures 1 <= x < 3 ==> Among(Around(x, n), 1, 3) == 2
    ensures !(1 <= x < 3) ==> Among(Around(x, n), 1, 3) <= 1
  {
    AroundValues(x, n);
  }

  lemma BlockCell(rows: nat, cols: nat, r: int, c: int)
    requires rows >= 4 && cols >= 4 && 0 <= r < rows && 0 <= c < cols
    ensures NextGeneration(Block(rows, cols))[r][c] == Block(rows, cols)[r][c]
  {
    var g := Block(rows, cols);
    RectCount(rows, cols, 1, 3, 1, 3, r, c);
    NextGenerationAt(g, r, c);
    AroundValues(r, rows);
    AmongPair(c, cols);
  }

  /** The block is a still life on every torus of at least 4 by 4. */
  lemma BlockIsStill(rows: nat, cols: nat)
    requires rows >= 4 && cols >= 4
    ensures NextGeneration(Block(rows, cols)) == Block(rows, cols)
  {
    var g, h := Block(rows, cols), NextGeneration(Block(rows, cols));
    NextGenerationShape(g);
    forall r | 0 <= r < rows
      ensures h[r] == g[r]
    {
      forall c | 0 <= c < cols
        ensures h[r][c] == g[r][c]
      {
        BlockCell(rows, cols, r, c);
      }
    }
  }

  // ----- the blinker -----

  /** Three live cells across: row 2, columns 1-3. */
  function Across(rows: nat, cols: nat): CellMap
  {
    Rect(rows, cols, 2, 3, 1, 4)
  }

  /** Three live cells down: rows 1-3, column 2. */
  function Down(rows: nat, cols: nat): CellMap
  {
    Rect(rows, cols, 1, 4, 2, 3)
  }

  /** Along an axis of at least 5 cells, how many probes fall on index 2. */
  lemma AmongMiddle(x: int, n: int)
    requires n >= 5 && 0 <= x < n
    ensures Among(Around(x, n), 2, 3) == if 1 <= x < 4 then 1 else 0
  {
    AroundValues(x, n);
  }

  /** Along an axis of at least 5 cells, how many probes fall in `[1, 4)`. */
  lemma AmongTriple(x: int, n: int)
    requires n >= 5 && 0 <= x < n
    ensures Among(Around(x, n), 1, 4)
         == if x == 2 then 3 else if x == 1 || x == 3 then 2 else if x == 0 || x == 4 then 1 else 0
  {
    AroundValues(x, n);
  }

  lemma AcrossCell(rows: nat, cols: nat, r: int, c: int)
    requires rows >= 5 && cols >= 5 && 0 <= r < rows && 0 <= c < cols
    ensures NextGeneration(Across(rows, cols))[r][c] == Down(rows, cols)[r][c]
  {
    var g := Across(rows, cols);
    RectCount(rows, cols, 2, 3, 1, 4, r, c);
    NextGenerationAt(g, r, c);
    AroundValues(r, rows);
    AmongTriple(c, cols);
  }

  lemma DownCell(rows: nat, cols: nat, r: int, c: int)
    requires rows >= 5 && cols >= 5 && 0 <= r < rows && 0 <= c < cols
    ensures NextGeneration(Down(rows, cols))[r][c] == Across(rows, cols)[r][c]
  {
    var g := Down(rows, cols);
    RectCount(rows, cols, 1, 4, 2, 3, r, c);
    NextGenerationAt(g, r, c);
    AroundValues(r, rows);
    AmongMiddle(c, cols);
  }

  /** One tick turns the horizontal blinker into the vertical one. */
  lemma AcrossTurnsDown(rows: nat, cols: nat)
    requires rows >= 5 && cols >= 5
    ensures NextGeneration(Across(rows, cols)) == Down(rows, cols)
  {
    var g, h, d := Across(rows, cols), NextGeneration(Across(rows, cols)), Down(rows, cols);
    NextGenerationShape(g);
    forall r | 0 <= r < rows
      ensures h[r] == d[r]
    {
      forall c | 0 <= c < cols
        ensures h[r][c] == d[r][c]
      {
        AcrossCell(rows, cols, r, c);
      }
    }
  }

  /** One tick turns the vertical blinker into the horizontal one. */
  lemma DownTurnsAcross(rows: nat, cols: nat)
    requires rows >= 5 && cols >= 5
    ensures NextGeneration(Down(rows, cols)) == Across(rows, cols)
  {
    var g, h, a := Down(rows, cols), NextGeneration(Down(rows, cols)), Across(rows, cols);
    NextGenerationShape(g);
    forall r | 0 <= r < rows
      ensures h[r] == a[r]
    {
      forall c | 0 <= c < cols
        ensures h[r][c] == a[r][c]
      {
        DownCell(rows, cols, r, c);
      }
    }
  }

  /** The blinker has period exactly 2 on every torus of at least 5 by 5. */
  lemma BlinkerPeriodTwo(rows: nat, cols: nat)
    requires rows >= 5 && cols >= 5
    ensures NextGeneration(Across(rows, cols)) != Across(rows, cols)
    ensures NextGeneration(NextGeneration(Across(rows, cols))) == Across(rows, cols)
  {
    AcrossTurnsDown(rows, cols);
    DownTurnsAcross(rows, cols);
    assert Down(rows, cols)[1][2] != Across(rows, cols)[1][2];
  }
}
