/**
 * What one tick of the current game-data service computes, as functions of
 * the pre-tick cell map: the toroidal neighbour count (nine probes, the
 * centre skipped by coordinate) and the next generation built from it.
 */
module Generation {
  import opened Grid
  import opened ToolFunctions

  /** `[confine(x - 1, n), x, confine(x + 1, n)]`: the indices probed along one axis. */
  function Around(x: int, n: int): seq<int>
    requires n > 0
  {
    [Confine(x - 1, n), x, Confine(x + 1, n)]
  }

  predicate RowsIn(g: CellMap, rs: seq<int>)
  {
    forall k :: 0 <= k < |rs| ==> 0 <= rs[k] < |g|
  }

  predicate ColsIn(g: CellMap, cs: seq<int>)
  {
    forall k :: 0 <= k < |cs| ==> 0 <= cs[k] < Width(g)
  }

  predicate Distinct(s: seq<int>)
  {
    forall i, j :: 0 <= i < j < |s| ==> s[i] != s[j]
  }

  /** One probe: 1 when the probed cell is live and is not the centre. */
  function Hit(g: CellMap, r: int, c: int, row: int, col: int): nat
    requires Rectangular(g) && 0 <= r < |g| && 0 <= c < Width(g)
  {
    if g[r][c] == 1 && !(r == row && c == col) then 1 else 0
  }

  /** The probes of row `r` against the column indices `cs`, in order. */
  function RowHits(g: CellMap, r: int, cs: seq<int>, row: int, col: int): nat
    requires Rectangular(g) && 0 <= r < |g| && ColsIn(g, cs)
    decreases |cs|
  {
    if cs == [] then 0
    else
      RowHits(g, r, cs[..|cs| - 1], row, col) + Hit(g, r, cs[|cs| - 1], row, col)
  }

  /** The probes of every row index in `rs` against every column index in `cs`. */
  function GridHits(g: CellMap, rs: seq<int>, cs: seq<int>, row: int, col: int): nat
    requires Rectangular(g) && RowsIn(g, rs) && ColsIn(g, cs)
    decreases |rs|
  {
    if rs == [] then 0
    else
      GridHits(g, rs[..|rs| - 1], cs, row, col) + RowHits(g, rs[|rs| - 1], cs, row, col)
  }

  /** `countNeighbors(row, col)` of the current service, on the map `g`. */
  function ProbeCount(g: CellMap, row: int, col: int): nat
    requires Rectangular(g) && 0 <= row < |g| && 0 <= col < Width(g)
  {
    GridHits(g, Around(row, |g|), Around(col, Width(g)), row, col)
  }

  /** Conway's rule applied to every cell, every count taken from `g` itself. */
  function NextGeneration(g: CellMap): CellMap
    requires Rectangular(g)
  {
    seq(|g|, r requires 0 <= r < |g| =>
      seq(|g[r]|, c requires 0 <= c < |g[r]| => Rule(g[r][c], ProbeCount(g, r, c))))
  }

  // ----- the nine probes written out -----

  lemma RowHitsOfThree(g: CellMap, r: int, cs: seq<int>, row: int, col: int)
    requires Rectangular(g) && 0 <= r < |g| && ColsIn(g, cs) && |cs| == 3
    ensures RowHits(g, r, cs, row, col)
         == Hit(g, r, cs[0], row, col) + Hit(g, r, cs[1], row, col) + Hit(g, r, cs[2], row, col)
  {
    var two, one := cs[..2], cs[..1];
    assert two[..1] == one && one[..0] == [];
    assert RowHits(g, r, one, row, col) == Hit(g, r, cs[0], row, col);
    assert RowHits(g, r, two, row, col) == RowHits(g, r, one, row, col) + Hit(g, r, cs[1], row, col);
  }

  lemma GridHitsOfThree(g: CellMap, rs: seq<int>, cs: seq<int>, row: int, col: int)
    requires Rectangular(g) && RowsIn(g, rs) && ColsIn(g, cs) && |rs| == 3
    ensures GridHits(g, rs, cs, row, col)
         == RowHits(g, rs[0], cs, row, col) + RowHits(g, rs[1], cs, row, col) + RowHits(g, rs[2], cs, row, col)
  {
    var two, one := rs[..2], rs[..1];
    assert two[..1] == one && one[..0] == [];
    assert GridHits(g, one, cs, row, col) == RowHits(g, rs[0], cs, row, col);
    assert GridHits(g, two, cs, row, col) == GridHits(g, one, cs, row, col) + RowHits(g, rs[1], cs, row, col);
  }

  /** One more column index adds that probe to the row's hits. */
  lemma RowHitsStep(g: CellMap, r: int, cs: seq<int>, j: int, row: int, col: int)
    requires Rectangular(g) && 0 <= r < |g| && ColsIn(g, cs) && 0 <= j < |cs|
    ensures RowHits(g, r, cs[..j + 1], row, col) == RowHits(g, r, cs[..j], row, col) + Hit(g, r, cs[j], row, col)
  {
    assert cs[..j + 1][..j] == cs[..j];
  }

  /** One more row index adds that row's hits. */
  lemma GridHitsStep(g: CellMap, rs: seq<int>, cs: seq<int>, i: int, row: int, col: int)
    requires Rectangular(g) && RowsIn(g, rs) && ColsIn(g, cs) && 0 <= i < |rs|
    ensures GridHits(g, rs[..i + 1], cs, row, col) == GridHits(g, rs[..i], cs, row, col) + RowHits(g, rs[i], cs, row, col)
  {
    assert rs[..i + 1][..i] == rs[..i];
  }

  /** The count is the sum of the nine probes of the 3x3 block around the centre. */
  lemma ProbeCountUnrolled(g: CellMap, row: int, col: int)
    requires Rectangular(g) && 0 <= row < |g| && 0 <= col < Width(g)
    ensures var rs, cs := Around(row, |g|), Around(col, Width(g));
      ProbeCount(g, row, col)
        == Hit(g, rs[0], cs[0], row, col) + Hit(g, rs[0], cs[1], row, col) + Hit(g, rs[0], cs[2], row, col)
         + Hit(g, rs[1], cs[0], row, col) + Hit(g, rs[1], cs[1], row, col) + Hit(g, rs[1], cs[2], row, col)
         + Hit(g, rs[2], cs[0], row, col) + Hit(g, rs[2], cs[1], row, col) + Hit(g, rs[2], cs[2], row, col)
  {
    var rs, cs := Around(row, |g|), Around(col, Width(g));
    GridHitsOfThree(g, rs, cs, row, col);
    RowHitsOfThree(g, rs[0], cs, row, col);
    RowHitsOfThree(g, rs[1], cs, row, col);
    RowHitsOfThree(g, rs[2], cs, row, col);
  }

  /** The centre probe never scores, so at most the other eight do. */
  lemma ProbeCountAtMostEight(g: CellMap, row: int, col: int)
    requires Rectangular(g) && 0 <= row < |g| && 0 <= col < Width(g)
    ensures ProbeCount(g, row, col) <= 8
  {
    ProbeCountUnrolled(g, row, col);
  }

  /**
   * The centre is skipped by coordinate: two maps of the same shape that agree
   * everywhere except possibly at (row, col) give the same count there, on a
   * grid of any size.
   */
  lemma ProbeCountIgnoresCentre(g: CellMap, h: CellMap, row: int, col: int)
    requires Rectangular(g) && 0 <= row < |g| && 0 <= col < Width(g)
    requires |h| == |g| && forall r :: 0 <= r < |g| ==> |h[r]| == |g[r]|
    requires forall r, c :: InBounds(g, r, c) && !(r == row && c == col) ==> h[r][c] == g[r][c]
    ensures Rectangular(h) && ProbeCount(h, row, col) == ProbeCount(g, row, col)
  {
    ProbeCountUnrolled(g, row, col);
    ProbeCountUnrolled(h, row, col);
  }

  /** Flipping a cell does not change that cell's own count. */
  lemma ProbeCountIgnoresFlip(g: CellMap, row: int, col: int)
    requires Rectangular(g) && 0 <= row < |g| && 0 <= col < Width(g)
    ensures Rectangular(Flip(g, row, col))
    ensures ProbeCount(Flip(g, row, col), row, col) == ProbeCount(g, row, col)
  {
    ProbeCountIgnoresCentre(g, Flip(g, row, col), row, col);
  }

  // ----- the reference: live cells among the distinct torus neighbours -----

  /** `a` is `b`, or one step from `b` either way around a cycle of length `n`. */
  predicate Adjacent(a: int, b: int, n: int)
    requires n > 0
  {
    a == b || a == (b + 1) % n || b == (a + 1) % n
  }

  /** The live cells other than (row, col) that are adjacent to it on both axes of the torus. */
  ghost function LiveNeighbours(g: CellMap, row: int, col: int): set<Coordinates>
    requires Rectangular(g)
  {
    set r, c | 0 <= r < |g| && 0 <= c < Width(g) && Adjacent(r, row, |g|) && Adjacent(c, col, Width(g))
               && !(r == row && c == col) && g[r][c] == 1 :: Coordinates(r, c)
  }

  ghost function RowLive(g: CellMap, r: int, cs: seq<int>, row: int, col: int): set<Coordinates>
    requires Rectangular(g) && 0 <= r < |g| && ColsIn(g, cs)
  {
    set c | c in cs && g[r][c] == 1 && !(r == row && c == col) :: Coordinates(r, c)
  }

  ghost function LiveAmong(g: CellMap, rs: seq<int>, cs: seq<int>, row: int, col: int): set<Coordinates>
    requires Rectangular(g) && RowsIn(g, rs) && ColsIn(g, cs)
  {
    set r, c | r in rs && c in cs && g[r][c] == 1 && !(r == row && c == col) :: Coordinates(r, c)
  }

  lemma LastNotInPrefix(s: seq<int>)
    requires Distinct(s) && |s| > 0
    ensures Distinct(s[..|s| - 1]) && s[|s| - 1] !in s[..|s| - 1]
  {
    assert forall i :: 0 <= i < |s| - 1 ==> s[..|s| - 1][i] == s[i];
  }

  /** The live cells of a row probed at `cs` are those probed at all but the last index, plus the last probe's cell if it scores. */
  lemma RowLiveSnoc(g: CellMap, r: int, cs: seq<int>, row: int, col: int)
    requires Rectangular(g) && 0 <= r < |g| && ColsIn(g, cs) && |cs| > 0
    ensures var front, y := cs[..|cs| - 1], cs[|cs| - 1];
      RowLive(g, r, cs, row, col)
        == RowLive(g, r, front, row, col) + (if Hit(g, r, y, row, col) == 1 then {Coordinates(r, y)} else {})
  {
    var front, y := cs[..|cs| - 1], cs[|cs| - 1];
    assert cs == front + [y];
    assert forall c :: c in cs <==> c in front || c == y;
  }

  /** Over distinct column indices, the probes of a row count distinct live cells. */
  lemma {:induction false} RowHitsCountsCells(g: CellMap, r: int, cs: seq<int>, row: int, col: int)
    requires Rectangular(g) && 0 <= r < |g| && ColsIn(g, cs) && Distinct(cs)
    ensures RowHits(g, r, cs, row, col) == |RowLive(g, r, cs, row, col)|
    decreases |cs|
  {
    if cs == [] {
      assert RowLive(g, r, cs, row, col) == {};
    } else {
      var front, y := cs[..|cs| - 1], cs[|cs| - 1];
      LastNotInPrefix(cs);
      RowHitsCountsCells(g, r, front, row, col);
      RowLiveSnoc(g, r, cs, row, col);
      assert Coordinates(r, y) !in RowLive(g, r, front, row, col);
    }
  }

  /** The live cells probed by rows `rs` are those probed by all but the last row, plus the last row's. */
  lemma LiveAmongSnoc(g: CellMap, rs: seq<int>, cs: seq<int>, row: int, col: int)
    requires Rectangular(g) && RowsIn(g, rs) && ColsIn(g, cs) && |rs| > 0
    ensures var front, x := rs[..|rs| - 1], rs[|rs| - 1];
      LiveAmong(g, rs, cs, row, col) == LiveAmong(g, front, cs, row, col) + RowLive(g, x, cs, row, col)
  {
    var front, x := rs[..|rs| - 1], rs[|rs| - 1];
    assert rs == front + [x];
    assert forall r :: r in rs <==> r in front || r == x;
  }

  /** A row index not among `rs` contributes cells none of which `rs` already covers. */
  lemma RowLiveIsNew(g: CellMap, rs: seq<int>, x: int, cs: seq<int>, row: int, col: int)
    requires Rectangular(g) && RowsIn(g, rs) && ColsIn(g, cs) && 0 <= x < |g| && x !in rs
    ensures LiveAmong(g, rs, cs, row, col) * RowLive(g, x, cs, row, col) == {}
  {
    forall p | p in RowLive(g, x, cs, row, col)
      ensures p !in LiveAmong(g, rs, cs, row, col)
    {
      assert p.r == x;
    }
  }

  /** Over distinct row and column indices, the probes count distinct live cells. */
  lemma {:induction false} GridHitsCountsCells(g: CellMap, rs: seq<int>, cs: seq<int>, row: int, col: int)
    requires Rectangular(g) && RowsIn(g, rs) && ColsIn(g, cs) && Distinct(rs) && Distinct(cs)
    ensures GridHits(g, rs, cs, row, col) == |LiveAmong(g, rs, cs, row, col)|
    decreases |rs|
  {
    if rs == [] {
      assert LiveAmong(g, rs, cs, row, col) == {};
    } else {
      var front, x := rs[..|rs| - 1], rs[|rs| - 1];
      LastNotInPrefix(rs);
      GridHitsCountsCells(g, front, cs, row, col);
      RowHitsCountsCells(g, x, cs, row, col);
      LiveAmongSnoc(g, rs, cs, row, col);
      RowLiveIsNew(g, front, x, cs, row, col);
    }
  }

  /** Away from the ends of an axis, and across the seam, the probed indices are the cyclic neighbours. */
  lemma AroundValues(x: int, n: int)
    requires 0 <= x < n
    ensures Around(x, n)[0] == if x == 0 then n - 1 else x - 1
    ensures Around(x, n)[2] == if x == n - 1 then 0 else x + 1
  {
    ConfineIsWrap(x - 1, n);
    ConfineIsWrap(x + 1, n);
  }

  lemma SuccessorMod(x: int, n: int)
    requires 0 <= x < n
    ensures (x + 1) % n == if x == n - 1 then 0 else x + 1
  {
    WrapIsModulo(x + 1, n);
  }

  /** An index is probed along an axis exactly when it is cyclically adjacent to the centre. */
  lemma AroundIsAdjacent(x: int, n: int, y: int)
    requires 0 <= x < n
    ensures y in Around(x, n) <==> 0 <= y < n && Adjacent(y, x, n)
  {
    AroundValues(x, n);
    SuccessorMod(x, n);
    if 0 <= y < n { SuccessorMod(y, n); }
  }

  lemma AroundDistinct(x: int, n: int)
    requires 0 <= x < n && n >= 3
    ensures Distinct(Around(x, n))
  {
    AroundValues(x, n);
  }

  /**
   * On a torus at least 3 by 3 the nine probes hit nine distinct cells, and the
   * count is exactly the number of live cells among the eight torus neighbours.
   */
  lemma ProbeCountCountsNeighbours(g: CellMap, row: int, col: int)
    requires Rectangular(g) && 0 <= row < |g| && 0 <= col < Width(g)
    requires |g| >= 3 && Width(g) >= 3
    ensures ProbeCount(g, row, col) == |LiveNeighbours(g, row, col)|
  {
    var rs, cs := Around(row, |g|), Around(col, Width(g));
    AroundDistinct(row, |g|);
    AroundDistinct(col, Width(g));
    GridHitsCountsCells(g, rs, cs, row, col);
    var a, b := LiveAmong(g, rs, cs, row, col), LiveNeighbours(g, row, col);
    forall p | p in a ensures p in b {
      AroundIsAdjacent(row, |g|, p.r);
      AroundIsAdjacent(col, Width(g), p.c);
    }
    forall p | p in b ensures p in a {
      AroundIsAdjacent(row, |g|, p.r);
      AroundIsAdjacent(col, Width(g), p.c);
    }
    assert a == b;
  }

  // ----- the next generation -----

  /** One cell of the next generation: the rule applied to the cell and its count. */
  lemma NextGenerationAt(g: CellMap, r: int, c: int)
    requires Rectangular(g) && InBounds(g, r, c)
    ensures |NextGeneration(g)| == |g| && |NextGeneration(g)[r]| == |g[r]|
    ensures NextGeneration(g)[r][c] == Rule(g[r][c], ProbeCount(g, r, c))
  {
  }

  /** A tick keeps the shape of the map. */
  lemma NextGenerationShape(g: CellMap)
    requires Rectangular(g)
    ensures |NextGeneration(g)| == |g| && Rectangular(NextGeneration(g))
    ensures Width(NextGeneration(g)) == Width(g)
  {
  }

  /** A map with no live cell stays empty. */
  lemma EmptyMapIsStill(rows: nat, cols: nat)
    ensures Rectangular(Zeros(rows, cols))
    ensures NextGeneration(Zeros(rows, cols)) == Zeros(rows, cols)
  {
    var g := Zeros(rows, cols);
    var h := NextGeneration(g);
    forall r | 0 <= r < rows
      ensures h[r] == g[r]
    {
      forall c | 0 <= c < cols
        ensures h[r][c] == 0
      {
        ProbeCountUnrolled(g, r, c);
      }
    }
  }
}
