/**
 * The current game-data service: the cell map and its double buffer, the
 * selected coordinates, the tick rate and the status message, with the
 * operations that update them in place. Timers and local storage are not
 * part of this model.
 */
module GameData {
  import opened Wrappers
  import opened Grid
  import opened ToolFunctions
  import opened Generation

  const MaxTickRate: int := 2500
  const MinTickRate: int := 0

  /** `{ content, origin }` of the status message */
  datatype Message = Message(content: string, origin: string)

  class GameDataService {
    var cellMap: CellMap
    var nextCellMap: CellMap
    var tickRate: int
    var selectedRow: int
    var selectedCol: int
    var message: Option<Message>

    constructor ()
      ensures cellMap == [] && nextCellMap == []
      ensures tickRate == MinTickRate && selectedRow == 0 && selectedCol == 0
      ensures message == Some(Message("game of life", "game-data-service"))
    {
      cellMap := [];
      nextCellMap := [];
      tickRate := MinTickRate;
      selectedRow := 0;
      selectedCol := 0;
      message := Some(Message("game of life", "game-data-service"));
    }

    /** `newMap(rows, cols)`: exactly `rows` rows of `cols` dead cells. */
    static method NewMap(rows: nat, cols: nat) returns (m: CellMap)
      ensures m == Zeros(rows, cols)
    {
      m := [];
      var row := 0;
      while row < rows
        invariant 0 <= row <= rows
        invariant m == Zeros(row, cols)
      {
        m := m + [ZeroRow(cols)];
        row := row + 1;
      }
    }

    method InitMap(rows: nat, cols: nat)
      modifies this`cellMap
      ensures cellMap == Zeros(rows, cols)
    {
      cellMap := NewMap(rows, cols);
    }

    /** Kills every cell and keeps the dimensions. */
    method ClearMap()
      requires Rectangular(cellMap) && |cellMap| >= 1
      modifies this`cellMap
      ensures cellMap == Zeros(|old(cellMap)|, |old(cellMap)[0]|)
    {
      cellMap := NewMap(|cellMap|, |cellMap[0]|);
    }

    /**
     * The inner `forEach` callback of `countNeighbors`: adds the probes of row
     * `rowItem` against every column index to the running count.
     */
    static method AddRowProbes(g: CellMap, rowItem: int, cols: seq<int>, row: int, col: int, start: nat)
      returns (neighbors: nat)
      requires Rectangular(g) && 0 <= rowItem < |g| && ColsIn(g, cols)
      ensures neighbors == start + RowHits(g, rowItem, cols, row, col)
    {
      neighbors := start;
      var j := 0;
      while j < |cols|
        invariant 0 <= j <= |cols|
        invariant neighbors == start + RowHits(g, rowItem, cols[..j], row, col)
      {
        var colItem := cols[j];
        RowHitsStep(g, rowItem, cols, j, row, col);
        if g[rowItem][colItem] == 1 && !(rowItem == row && colItem == col) {
          neighbors := neighbors + 1;
        }
        j := j + 1;
      }
      assert cols[..j] == cols;
    }

    /** `countNeighbors(row, col)`: the nine probes around the cell, the centre skipped. */
    method CountNeighbors(row: int, col: int) returns (neighbors: nat)
      requires Rectangular(cellMap) && 0 <= row < |cellMap| && 0 <= col < Width(cellMap)
      ensures neighbors == ProbeCount(cellMap, row, col)
      ensures neighbors <= 8
      ensures |cellMap| >= 3 && Width(cellMap) >= 3 ==> neighbors == |LiveNeighbours(cellMap, row, col)|
    {
      neighbors := 0;
      var g := cellMap;
      var rowLen := |g|;
      var colLen := |g[0]|;
      var neighboringRowIndices := [Confine(row - 1, rowLen), row, Confine(row + 1, rowLen)];
      var neighboringColIndices := [Confine(col - 1, colLen), col, Confine(col + 1, colLen)];
      assert RowsIn(g, neighboringRowIndices) && ColsIn(g, neighboringColIndices);
      var i := 0;
      while i < 3
        invariant 0 <= i <= 3
        invariant neighbors == GridHits(g, neighboringRowIndices[..i], neighboringColIndices, row, col)
      {
        GridHitsStep(g, neighboringRowIndices, neighboringColIndices, i, row, col);
        neighbors := AddRowProbes(g, neighboringRowIndices[i], neighboringColIndices, row, col, neighbors);
        i := i + 1;
      }
      assert neighboringRowIndices[..3] == neighboringRowIndices;
      ProbeCountAtMostEight(g, row, col);
      if |g| >= 3 && Width(g) >= 3 {
        ProbeCountCountsNeighbours(g, row, col);
      }
    }

    /**
     * `computeNextGen(row, col, neighbors)`: reads the pre-tick cell and writes
     * the buffer; a dead cell without exactly 3 neighbours is left as it is.
     */
    method ComputeNextGen(row: int, col: int, neighbors: int)
      requires InBounds(cellMap, row, col) && InBounds(nextCellMap, row, col)
      modifies this`nextCellMap
      ensures cellMap[row][col] == 1 || neighbors == 3 ==>
        nextCellMap == SetCell(old(nextCellMap), row, col, Rule(cellMap[row][col], neighbors))
      ensures cellMap[row][col] == 0 && neighbors != 3 ==> nextCellMap == old(nextCellMap)
      ensures old(nextCellMap)[row][col] == 0 ==>
        nextCellMap == SetCell(old(nextCellMap), row, col, Rule(cellMap[row][col], neighbors))
    {
      SetCellSame(nextCellMap, row, col);
      if cellMap[row][col] == 1 {
        if neighbors < 2 {
          nextCellMap := SetCell(nextCellMap, row, col, 0);
        } else if neighbors == 2 || neighbors == 3 {
          nextCellMap := SetCell(nextCellMap, row, col, 1);
        } else {
          nextCellMap := SetCell(nextCellMap, row, col, 0);
        }
      } else if neighbors == 3 {
        nextCellMap := SetCell(nextCellMap, row, col, 1);
      }
    }

    /**
     * The inner loop of `tick()` on one row: every count is taken from the
     * map, and the row's next states are written into the dead buffer row.
     */
    method TickRow(row: int)
      requires Rectangular(cellMap) && 0 <= row < |cellMap| == |nextCellMap|
      requires nextCellMap[row] == ZeroRow(|cellMap[row]|)
      modifies this`nextCellMap
      ensures |NextGeneration(cellMap)| == |cellMap|
      ensures nextCellMap == old(nextCellMap)[row := NextGeneration(cellMap)[row]]
    {
      NextGenerationShape(cellMap);
      ghost var base, done := nextCellMap, NextGeneration(cellMap)[row];
      FilledEnds(done);
      var col := 0;
      while col < |cellMap[row]|
        invariant 0 <= col <= |cellMap[row]| == |done|
        invariant nextCellMap == base[row := Filled(done, col)]
      {
        var neighbors := CountNeighbors(row, col);
        NextGenerationAt(cellMap, row, col);
        FillStep(done, col);
        FillCell(base, row, done, col);
        ComputeNextGen(row, col, neighbors);
        col := col + 1;
      }
    }

    /**
     * `tick()`: every count is taken from the pre-tick map, every write goes to
     * a fresh buffer, and the buffer then becomes the map.
     */
    method Tick()
      requires Rectangular(cellMap) && |cellMap| >= 1
      modifies this`cellMap, this`nextCellMap
      ensures cellMap == NextGeneration(old(cellMap))
      ensures nextCellMap == cellMap
    {
      nextCellMap := NewMap(|cellMap|, |cellMap[0]|);
      ghost var next := NextGeneration(cellMap);
      var row := 0;
      while row < |cellMap|
        invariant cellMap == old(cellMap)
        invariant 0 <= row <= |cellMap| == |nextCellMap| == |next|
        invariant forall r :: 0 <= r < row ==> nextCellMap[r] == next[r]
        invariant forall r :: row <= r < |cellMap| ==> nextCellMap[r] == ZeroRow(|cellMap[r]|)
      {
        TickRow(row);
        row := row + 1;
      }
      assert nextCellMap == next;
      cellMap := nextCellMap;
    }

    /** `stepFwd()`: one synchronous tick. */
    method StepFwd()
      requires Rectangular(cellMap) && |cellMap| >= 1
      modifies this`cellMap, this`nextCellMap
      ensures cellMap == NextGeneration(old(cellMap))
    {
      Tick();
    }

    /** `flipCell()`: toggles the selected cell and nothing else. */
    method FlipCell()
      requires InBounds(cellMap, selectedRow, selectedCol)
      modifies this`cellMap
      ensures cellMap == Flip(old(cellMap), selectedRow, selectedCol)
    {
      cellMap := cellMap[selectedRow := cellMap[selectedRow][selectedCol := if cellMap[selectedRow][selectedCol] == 1 then 0 else 1]];
    }

    /** `onTickRateChange(v)`: the slider value is inverted against the slowest rate. */
    method OnTickRateChange(value: int)
      modifies this`tickRate
      ensures tickRate == MaxTickRate - value
    {
      tickRate := MaxTickRate - value;
    }

    /** `addRow()`: appends a dead row as wide as the first row. */
    method AddRow()
      requires |cellMap| >= 1
      modifies this`cellMap, this`message
      ensures cellMap == WithZeroRow(old(cellMap), |old(cellMap)[0]|)
      ensures message == Some(Message("[+] Added row", "game-data-service"))
    {
      cellMap := cellMap + [ZeroRow(|cellMap[0]|)];
      message := Some(Message("[+] Added row", "game-data-service"));
    }

    /** `remRow()`: drops the last row; nothing happens to an empty map. */
    method RemRow()
      modifies this`cellMap, this`message
      ensures cellMap == WithoutLastRow(old(cellMap))
      ensures message == Some(Message("[-] Removed row", "game-data-service"))
    {
      var rows := cellMap;
      if |rows| > 0 {
        rows := rows[..|rows| - 1];
      }
      cellMap := rows;
      message := Some(Message("[-] Removed row", "game-data-service"));
    }

    /** `addColumn()`: pushes a dead cell onto every row. */
    method AddColumn()
      modifies this`cellMap, this`message
      ensures cellMap == WithZeroColumn(old(cellMap))
      ensures message == Some(Message("[+] Added column", "game-data-service"))
    {
      var r := 0;
      while r < |cellMap|
        invariant 0 <= r <= |cellMap| == |old(cellMap)|
        invariant forall k :: 0 <= k < r ==> cellMap[k] == old(cellMap)[k] + [0]
        invariant forall k :: r <= k < |cellMap| ==> cellMap[k] == old(cellMap)[k]
      {
        cellMap := cellMap[r := cellMap[r] + [0]];
        r := r + 1;
      }
      message := Some(Message("[+] Added column", "game-data-service"));
    }

    /** `remColumn()`: pops one cell off every row; an empty row stays empty. */
    method RemColumn()
      modifies this`cellMap, this`message
      ensures cellMap == WithoutLastColumn(old(cellMap))
      ensures message == Some(Message("[-] Removed column", "game-data-service"))
    {
      var r := 0;
      while r < |cellMap|
        invariant 0 <= r <= |cellMap| == |old(cellMap)|
        invariant forall k :: 0 <= k < r ==> cellMap[k] == WithoutLastColumn(old(cellMap))[k]
        invariant forall k :: r <= k < |cellMap| ==> cellMap[k] == old(cellMap)[k]
      {
        if |cellMap[r]| > 0 {
          cellMap := cellMap[r := cellMap[r][..|cellMap[r]| - 1]];
        }
        r := r + 1;
      }
      message := Some(Message("[-] Removed column", "game-data-service"));
    }

    /** `setCoordinates(row, col)` */
    method SetCoordinates(row: int, col: int)
      modifies this`selectedRow, this`selectedCol
      ensures selectedRow == row && selectedCol == col
    {
      selectedRow := row;
      selectedCol := col;
    }
  }

  /** Adding a row then removing it, or a column then removing it, restores the service's map. */
  method ResizeRoundTrip(s: GameDataService)
    requires Rectangular(s.cellMap) && |s.cellMap| >= 1
    modifies s
    ensures s.cellMap == old(s.cellMap)
  {
    s.AddRow();
    s.RemRow();
    RowRoundTrip(old(s.cellMap), |old(s.cellMap)[0]|);
    s.AddColumn();
    s.RemColumn();
    ColumnRoundTrip(old(s.cellMap));
  }
}
