/**
 * The older game-data service. Same engine, but its neighbour lookup probes
 * eight fixed directions, each wrapped by a single step, and does not skip
 * the centre: on a grid with one row or one column a cell sees itself.
 */
module LegacyGameData {
  import opened Grid
  import opened Generation

  /** `(i - 1 < 0) ? iMax : i - 1` */
  function StepBack(i: int, iMax: int): (r: int)
    ensures 0 <= i <= iMax ==> 0 <= r <= iMax
    ensures 0 <= i <= iMax ==> r == i - 1 || (i == 0 && r == iMax)
  {
    if i - 1 < 0 then iMax else i - 1
  }

  /** `(i + 1 > iMax) ? 0 : i + 1` */
  function StepForward(i: int, iMax: int): (r: int)
    ensures 0 <= i <= iMax ==> 0 <= r <= iMax
    ensures 0 <= i <= iMax ==> r == i + 1 || (i == iMax && r == 0)
  {
    if i + 1 > iMax then 0 else i + 1
  }

  /** The eight probed positions, in the source's order NW, N, NE, W, E, SW, S, SE. */
  function LegacyProbes(i: int, j: int, iMax: int, jMax: int): seq<Coordinates>
  {
    [ Coordinates(StepBack(i, iMax), StepBack(j, jMax)),
      Coordinates(StepBack(i, iMax), j),
      Coordinates(StepBack(i, iMax), StepForward(j, jMax)),
      Coordinates(i, StepBack(j, jMax)),
      Coordinates(i, StepForward(j, jMax)),
      Coordinates(StepForward(i, iMax), StepBack(j, jMax)),
      Coordinates(StepForward(i, iMax), j),
      Coordinates(StepForward(i, iMax), StepForward(j, jMax)) ]
  }

  function LiveAt(g: CellMap, p: Coordinates): nat
    requires InBounds(g, p.r, p.c)
  {
    Live(g, p.r, p.c)
  }

  function Live(g: CellMap, r: int, c: int): nat
    requires InBounds(g, r, c)
  {
    if g[r][c] == 1 then 1 else 0
  }

  /** `countNeighbors(i, j)` of the older service: live probes, counted with repetition. */
  function LegacyCount(g: CellMap, i: int, j: int): (count: nat)
    requires Rectangular(g) && 0 <= i < |g| && 0 <= j < Width(g)
    ensures count <= 8
  {
    var n, s := StepBack(i, |g| - 1), StepForward(i, |g| - 1);
    var w, e := StepBack(j, |g[i]| - 1), StepForward(j, |g[i]| - 1);
    Live(g, n, w) + Live(g, n, j) + Live(g, n, e) + Live(g, i, w)
      + Live(g, i, e) + Live(g, s, w) + Live(g, s, j) + Live(g, s, e)
  }

  /** `LegacyCount` with its four wrapped indices named. */
  lemma LegacyCountAt(g: CellMap, i: int, j: int, n: int, s: int, w: int, e: int)
    requires Rectangular(g) && 0 <= i < |g| && 0 <= j < Width(g)
    requires n == StepBack(i, |g| - 1) && s == StepForward(i, |g| - 1)
    requires w == StepBack(j, |g[i]| - 1) && e == StepForward(j, |g[i]| - 1)
    ensures InBounds(g, n, w) && InBounds(g, n, j) && InBounds(g, n, e) && InBounds(g, i, w)
    ensures InBounds(g, i, e) && InBounds(g, s, w) && InBounds(g, s, j) && InBounds(g, s, e)
    ensures LegacyCount(g, i, j) == Live(g, n, w) + Live(g, n, j) + Live(g, n, e) + Live(g, i, w)
                                  + Live(g, i, e) + Live(g, s, w) + Live(g, s, j) + Live(g, s, e)
  {
  }

  /** The older count is the number of live cells among the eight probes, repeats included. */
  lemma LegacyCountSumsProbes(g: CellMap, i: int, j: int)
    requires Rectangular(g) && 0 <= i < |g| && 0 <= j < Width(g)
    ensures var ps := LegacyProbes(i, j, |g| - 1, |g[i]| - 1);
            forall k :: 0 <= k < 8 ==> InBounds(g, ps[k].r, ps[k].c)
    ensures var ps := LegacyProbes(i, j, |g| - 1, |g[i]| - 1);
            LegacyCount(g, i, j) == LiveAt(g, ps[0]) + LiveAt(g, ps[1]) + LiveAt(g, ps[2]) + LiveAt(g, ps[3])
              + LiveAt(g, ps[4]) + LiveAt(g, ps[5]) + LiveAt(g, ps[6]) + LiveAt(g, ps[7])
  {
  }

  /** `developUniverse()`: Conway's rule on every cell with the older count. */
  function LegacyNextGeneration(g: CellMap): CellMap
    requires Rectangular(g)
  {
    seq(|g|, i requires 0 <= i < |g| =>
      seq(|g[i]|, j requires 0 <= j < |g[i]| => Rule(g[i][j], LegacyCount(g, i, j))))
  }

  /** One cell of the older next generation: the rule applied to the cell and its older count. */
  lemma LegacyNextGenerationAt(g: CellMap, i: int, j: int)
    requires Rectangular(g) && InBounds(g, i, j)
    ensures |LegacyNextGeneration(g)| == |g| && |LegacyNextGeneration(g)[i]| == |g[i]|
    ensures LegacyNextGeneration(g)[i][j] == Rule(g[i][j], LegacyCount(g, i, j))
  {
  }

  /** Every probe is a single-step wrap and stays inside the grid. */
  lemma LegacyProbesInBounds(g: CellMap, i: int, j: int)
    requires Rectangular(g) && 0 <= i < |g| && 0 <= j < Width(g)
    ensures |LegacyProbes(i, j, |g| - 1, |g[i]| - 1)| == 8
    ensures forall p :: p in LegacyProbes(i, j, |g| - 1, |g[i]| - 1) ==> InBounds(g, p.r, p.c)
  {
  }

  /** With at least two rows and two columns no probe lands on the centre. */
  lemma LegacyProbesAvoidCentre(i: int, j: int, rows: int, cols: int)
    requires 0 <= i < rows && 0 <= j < cols && rows >= 2 && cols >= 2
    ensures Coordinates(i, j) !in LegacyProbes(i, j, rows - 1, cols - 1)
  {
  }

  /** With a single row the N and S probes both land on the centre. */
  lemma SingleRowProbesHitCentre(j: int, cols: int)
    requires 0 <= j < cols
    ensures LegacyProbes(0, j, 0, cols - 1)[1] == Coordinates(0, j)
    ensures LegacyProbes(0, j, 0, cols - 1)[6] == Coordinates(0, j)
  {
  }

  /** The two revisions' single-step wraps are the current revision's confined indices. */
  lemma StepsAreAround(x: int, n: int)
    requires 0 <= x < n
    ensures Around(x, n)[0] == StepBack(x, n - 1) && Around(x, n)[2] == StepForward(x, n - 1)
  {
    AroundValues(x, n);
  }

  /** On grids of at least 2 by 2 the two revisions count the same number of neighbours. */
  lemma CountsAgree(g: CellMap, i: int, j: int)
    requires Rectangular(g) && 0 <= i < |g| && 0 <= j < Width(g)
    requires |g| >= 2 && Width(g) >= 2
    ensures LegacyCount(g, i, j) == ProbeCount(g, i, j)
  {
    assert |g[i]| == Width(g);
    var n, s := StepBack(i, |g| - 1), StepForward(i, |g| - 1);
    var w, e := StepBack(j, |g[i]| - 1), StepForward(j, |g[i]| - 1);
    LegacyCountAt(g, i, j, n, s, w, e);
    ProbeCountUnrolled(g, i, j);
    StepsAreAround(i, |g|);
    StepsAreAround(j, Width(g));
    assert n != i && s != i && w != j && e != j;
  }

  /**
   * With one row and at least two columns the older count is the current one
   * plus twice the cell itself: its N and S probes see the centre.
   */
  lemma SingleRowSelfCount(g: CellMap, j: int)
    requires Rectangular(g) && |g| == 1 && 0 <= j < Width(g) && Width(g) >= 2
    ensures LegacyCount(g, 0, j) == ProbeCount(g, 0, j) + 2 * (g[0][j] as int)
  {
    ProbeCountUnrolled(g, 0, j);
    StepsAreAround(0, 1);
    StepsAreAround(j, Width(g));
  }

  /** On grids of at least 2 by 2 one tick of either revision gives the same map. */
  lemma GenerationsAgree(g: CellMap)
    requires Rectangular(g) && |g| >= 2 && Width(g) >= 2
    ensures LegacyNextGeneration(g) == NextGeneration(g)
  {
    var a, b := LegacyNextGeneration(g), NextGeneration(g);
    forall i | 0 <= i < |g|
      ensures a[i] == b[i]
    {
      forall j | 0 <= j < |g[i]|
        ensures a[i][j] == b[i][j]
      {
        CountsAgree(g, i, j);
      }
    }
  }

  /**
   * On the one-row map 1 1 0 the revisions disagree: the current one keeps the
   * first cell alive (3 neighbours), the older one kills it (5, itself twice).
   */
  lemma GenerationsDifferOnOneRow()
    ensures Rectangular([[1, 1, 0]])
    ensures NextGeneration([[1, 1, 0]])[0][0] == 1
    ensures LegacyNextGeneration([[1, 1, 0]])[0][0] == 0
  {
    var g: CellMap := [[1, 1, 0]];
    ProbeCountUnrolled(g, 0, 0);
    AroundValues(0, 1);
    AroundValues(0, 3);
    assert ProbeCount(g, 0, 0) == 3;
    assert LegacyCount(g, 0, 0) == 5;
  }

  class GameDataService {
    var cellMap: CellMap
    var nextCellMap: CellMap
    var tickRate: int

    constructor ()
      ensures cellMap == [] && nextCellMap == [] && tickRate == 100
    {
      cellMap := [];
      nextCellMap := [];
      tickRate := 100;
    }

    /** `initMap(rows, cols)`: pushes `rows` rows, each built by pushing `cols` dead cells. */
    method InitMap(rows: nat, cols: nat)
      modifies this`cellMap
      ensures cellMap == Zeros(rows, cols)
    {
      cellMap := [];
      var i := 0;
      while i < rows
        invariant 0 <= i <= rows
        invariant cellMap == Zeros(i, cols)
      {
        var row: seq<Cell> := [];
        var j := 0;
        while j < cols
          invariant 0 <= j <= cols
          invariant row == ZeroRow(j)
        {
          row := row + [0];
          j := j + 1;
        }
        cellMap := cellMap + [row];
        i := i + 1;
      }
    }

    /** `initNextMap()`: a dead buffer with the shape of the current map, row by row. */
    method InitNextMap()
      modifies this`nextCellMap
      ensures |nextCellMap| == |cellMap|
      ensures forall i :: 0 <= i < |cellMap| ==> nextCellMap[i] == ZeroRow(|cellMap[i]|)
    {
      nextCellMap := [];
      var i := 0;
      while i < |cellMap|
        invariant 0 <= i <= |cellMap| && |nextCellMap| == i
        invariant forall k :: 0 <= k < i ==> nextCellMap[k] == ZeroRow(|cellMap[k]|)
      {
        var row: seq<Cell> := [];
        var j := 0;
        while j < |cellMap[i]|
          invariant 0 <= j <= |cellMap[i]|
          invariant row == ZeroRow(j)
        {
          row := row + [0];
          j := j + 1;
        }
        nextCellMap := nextCellMap + [row];
        i := i + 1;
      }
    }

    /** `countNeighbors(i, j)`: eight single-step-wrapped probes, no centre check. */
    method CountNeighbors(i: int, j: int) returns (neighbors: nat)
      requires Rectangular(cellMap) && 0 <= i < |cellMap| && 0 <= j < Width(cellMap)
      ensures neighbors == LegacyCount(cellMap, i, j)
      ensures neighbors <= 8
      ensures |cellMap| >= 2 && Width(cellMap) >= 2 ==> neighbors == ProbeCount(cellMap, i, j)
    {
      var g := cellMap;
      var iMax := |g| - 1;
      var jMax := |g[i]| - 1;
      var iDynamic, jDynamic := 0, 0;
      neighbors := 0;
      ghost var n, s, w, e := StepBack(i, iMax), StepForward(i, iMax), StepBack(j, jMax), StepForward(j, jMax);
      LegacyCountAt(g, i, j, n, s, w, e);
      // NW
      iDynamic := StepBack(i, iMax);
      jDynamic := StepBack(j, jMax);
      neighbors := neighbors + (if g[iDynamic][jDynamic] == 1 then 1 else 0);
      assert neighbors == Live(g, n, w);
      // N
      iDynamic := StepBack(i, iMax);
      jDynamic := j;
      neighbors := neighbors + (if g[iDynamic][jDynamic] == 1 then 1 else 0);
      assert neighbors == Live(g, n, w) + Live(g, n, j);
      // NE
      iDynamic := StepBack(i, iMax);
      jDynamic := StepForward(j, jMax);
      neighbors := neighbors + (if g[iDynamic][jDynamic] == 1 then 1 else 0);
      assert neighbors == Live(g, n, w) + Live(g, n, j) + Live(g, n, e);
      // W
      iDynamic := i;
      jDynamic := StepBack(j, jMax);
      neighbors := neighbors + (if g[iDynamic][jDynamic] == 1 then 1 else 0);
      assert neighbors == Live(g, n, w) + Live(g, n, j) + Live(g, n, e) + Live(g, i, w);
      // E
      iDynamic := i;
      jDynamic := StepForward(j, jMax);
      neighbors := neighbors + (if g[iDynamic][jDynamic] == 1 then 1 else 0);
      assert neighbors == Live(g, n, w) + Live(g, n, j) + Live(g, n, e) + Live(g, i, w) + Live(g, i, e);
      // SW
      iDynamic := StepForward(i, iMax);
      jDynamic := StepBack(j, jMax);
      neighbors := neighbors + (if g[iDynamic][jDynamic] == 1 then 1 else 0);
      assert neighbors == Live(g, n, w) + Live(g, n, j) + Live(g, n, e) + Live(g, i, w) + Live(g, i, e) + Live(g, s, w);
      // S
      iDynamic := StepForward(i, iMax);
      jDynamic := j;
      neighbors := neighbors + (if g[iDynamic][jDynamic] == 1 then 1 else 0);
      assert neighbors == Live(g, n, w) + Live(g, n, j) + Live(g, n, e) + Live(g, i, w) + Live(g, i, e) + Live(g, s, w) + Live(g, s, j);
      // SE
      iDynamic := StepForward(i, iMax);
      jDynamic := StepForward(j, jMax);
      neighbors := neighbors + (if g[iDynamic][jDynamic] == 1 then 1 else 0);
      assert neighbors == Live(g, n, w) + Live(g, n, j) + Live(g, n, e) + Live(g, i, w) + Live(g, i, e) + Live(g, s, w) + Live(g, s, j) + Live(g, s, e);
      if |cellMap| >= 2 && Width(cellMap) >= 2 {
        CountsAgree(cellMap, i, j);
      }
    }

    /** `computeNextGen(i, j, neighbors)`: three independent tests on a live cell, one on a dead cell. */
    method ComputeNextGen(i: int, j: int, neighbors: int)
      requires InBounds(cellMap, i, j) && InBounds(nextCellMap, i, j)
      modifies this`nextCellMap
      ensures cellMap[i][j] == 1 || neighbors == 3 ==>
        nextCellMap == SetCell(old(nextCellMap), i, j, Rule(cellMap[i][j], neighbors))
      ensures cellMap[i][j] == 0 && neighbors != 3 ==> nextCellMap == old(nextCellMap)
      ensures old(nextCellMap)[i][j] == 0 ==>
        nextCellMap == SetCell(old(nextCellMap), i, j, Rule(cellMap[i][j], neighbors))
    {
      SetCellSame(nextCellMap, i, j);
      if cellMap[i][j] == 1 {
        if neighbors < 2 {
          nextCellMap := SetCell(nextCellMap, i, j, 0);
        }
        if neighbors == 2 || neighbors == 3 {
          nextCellMap := SetCell(nextCellMap, i, j, 1);
        }
        if neighbors > 3 {
          nextCellMap := SetCell(nextCellMap, i, j, 0);
        }
      } else {
        if neighbors == 3 {
          nextCellMap := SetCell(nextCellMap, i, j, 1);
        }
      }
    }

    /**
     * The inner loop of `developUniverse()` on one row: every count is taken
     * from the map, and the row's next states are written into the dead
     * buffer row.
     */
    method DevelopRow(i: int)
      requires Rectangular(cellMap) && 0 <= i < |cellMap| == |nextCellMap|
      requires nextCellMap[i] == ZeroRow(|cellMap[i]|)
      modifies this`nextCellMap
      ensures |LegacyNextGeneration(cellMap)| == |cellMap|
      ensures nextCellMap == old(nextCellMap)[i := LegacyNextGeneration(cellMap)[i]]
    {
      ghost var base, done := nextCellMap, LegacyNextGeneration(cellMap)[i];
      FilledEnds(done);
      var j := 0;
      while j < |cellMap[i]|
        invariant 0 <= j <= |cellMap[i]| == |done|
        invariant nextCellMap == base[i := Filled(done, j)]
      {
        var neighbors := CountNeighbors(i, j);
        LegacyNextGenerationAt(cellMap, i, j);
        FillStep(done, j);
        FillCell(base, i, done, j);
        ComputeNextGen(i, j, neighbors);
        j := j + 1;
      }
    }

    /** The loop of `developUniverse()`: every row of the buffer from the unchanged map. */
    method DevelopRows()
      requires Rectangular(cellMap) && |nextCellMap| == |cellMap|
      requires forall r :: 0 <= r < |cellMap| ==> nextCellMap[r] == ZeroRow(|cellMap[r]|)
      modifies this`nextCellMap
      ensures nextCellMap == LegacyNextGeneration(cellMap)
    {
      ghost var next := LegacyNextGeneration(cellMap);
      var i := 0;
      while i < |cellMap|
        invariant 0 <= i <= |cellMap| == |nextCellMap| == |next|
        invariant forall r :: 0 <= r < i ==> nextCellMap[r] == next[r]
        invariant forall r :: i <= r < |cellMap| ==> nextCellMap[r] == ZeroRow(|cellMap[r]|)
      {
        DevelopRow(i);
        i := i + 1;
      }
    }

    /** `developUniverse()`: fresh buffer, every count from the pre-tick map, then the swap. */
    method DevelopUniverse()
      requires Rectangular(cellMap)
      modifies this`cellMap, this`nextCellMap
      ensures cellMap == LegacyNextGeneration(old(cellMap))
      ensures nextCellMap == cellMap
    {
      InitNextMap();
      DevelopRows();
      cellMap := nextCellMap;
    }

    /** `clearMap()`: dead cells, with the current number of rows and row 0's width. */
    method ClearMap()
      requires |cellMap| >= 1
      modifies this`cellMap
      ensures cellMap == Zeros(|old(cellMap)|, |old(cellMap)[0]|)
    {
      InitMap(|cellMap|, |cellMap[0]|);
    }

    /** `stepFwd()`: one synchronous generation. */
    method StepFwd()
      requires Rectangular(cellMap)
      modifies this`cellMap, this`nextCellMap
      ensures cellMap == LegacyNextGeneration(old(cellMap))
    {
      DevelopUniverse();
    }

    /** `flipCell(row, col)`: toggles exactly that cell. */
    method FlipCell(row: int, col: int)
      requires InBounds(cellMap, row, col)
      modifies this`cellMap
      ensures cellMap == Flip(old(cellMap), row, col)
    {
      cellMap := cellMap[row := cellMap[row][col := if cellMap[row][col] == 1 then 0 else 1]];
    }

    /** `onTickRateChange(tickRate)`: unlike the current revision, the rate is stored as given. */
    method OnTickRateChange(rate: int)
      modifies this`tickRate
      ensures tickRate == rate
    {
      tickRate := rate;
    }

    /** `addRow()`: pushes an empty row, then as many dead cells as row 0 holds. */
    method AddRow()
      modifies this`cellMap
      ensures cellMap == WithZeroRow(old(cellMap), if |old(cellMap)| == 0 then 0 else |old(cellMap)[0]|)
    {
      cellMap := cellMap + [[]];
      assert ZeroRow(0) == [];
      var lastRow := |cellMap| - 1;
      var cols := |cellMap[0]|;
      var j := 0;
      while j < cols
        invariant 0 <= j <= cols
        invariant cellMap == old(cellMap) + [ZeroRow(j)]
      {
        assert ZeroRow(j) + [0] == ZeroRow(j + 1);
        cellMap := cellMap[lastRow := cellMap[lastRow] + [0]];
        j := j + 1;
      }
    }

    /** `remRow()`: pops the last row, if any. */
    method RemRow()
      modifies this`cellMap
      ensures cellMap == WithoutLastRow(old(cellMap))
    {
      if |cellMap| > 0 {
        cellMap := cellMap[..|cellMap| - 1];
      }
    }

    /** `addColumn()`: pushes a dead cell onto every row. */
    method AddColumn()
      modifies this`cellMap
      ensures cellMap == WithZeroColumn(old(cellMap))
    {
      var rows := |cellMap|;
      var i := 0;
      while i < rows
        invariant 0 <= i <= rows == |cellMap|
        invariant forall k :: 0 <= k < i ==> cellMap[k] == old(cellMap)[k] + [0]
        invariant forall k :: i <= k < rows ==> cellMap[k] == old(cellMap)[k]
      {
        cellMap := cellMap[i := cellMap[i] + [0]];
        i := i + 1;
      }
    }

    /** `remColumn()`: pops one cell off every row. */
    method RemColumn()
      modifies this`cellMap
      ensures cellMap == WithoutLastColumn(old(cellMap))
    {
      var rows := |cellMap|;
      var i := 0;
      while i < rows
        invariant 0 <= i <= rows == |cellMap|
        invariant forall k :: 0 <= k < i ==> cellMap[k] == WithoutLastColumn(old(cellMap))[k]
        invariant forall k :: i <= k < rows ==> cellMap[k] == old(cellMap)[k]
      {
        if |cellMap[i]| > 0 {
          cellMap := cellMap[i := cellMap[i][..|cellMap[i]| - 1]];
        }
        i := i + 1;
      }
    }
  }
}
