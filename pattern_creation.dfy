/**
 * The pattern-creation service: which pattern is armed, the last one that
 * was armed, and the stamping of a glider or a lightweight spaceship onto
 * the cell map at the selected cell. Each pattern cycles through four
 * orientations, one quarter turn apart, on successive stamps.
 */
module PatternCreation {
  import opened Wrappers
  import opened Grid
  import opened ToolFunctions
  import opened GameData

  /** `"glider" | "lwSpaceship"` */
  datatype ActivePattern = Glider | LwSpaceship

  /** The pattern's name as the status message spells it. */
  function Name(p: ActivePattern): string
  {
    match p
    case Glider => "glider"
    case LwSpaceship => "lwSpaceship"
  }

  /**
   * One point of a pattern relative to the selected cell. A zero component
   * is used as the selected row or column itself; any other is confined.
   */
  datatype Offset = Offset(dr: int, dc: int)

  /** The four glider orientations, in the order they are stamped. */
  const GliderShapes: seq<seq<Offset>> := [
    [Offset(0, 0), Offset(1, 0), Offset(2, 0), Offset(2, 1), Offset(1, 2)],
    [Offset(0, 0), Offset(0, -1), Offset(0, -2), Offset(1, -2), Offset(2, -1)],
    [Offset(0, 0), Offset(-1, 0), Offset(-2, 0), Offset(-2, -1), Offset(-1, -2)],
    [Offset(0, 0), Offset(0, 1), Offset(0, 2), Offset(-1, 2), Offset(-2, 1)]
  ]

  /** The four lightweight-spaceship orientations, in the order they are stamped. */
  const LwSpaceshipShapes: seq<seq<Offset>> := [
    [Offset(0, 0), Offset(1, 0), Offset(2, 0), Offset(3, 0), Offset(0, 1),
     Offset(4, 1), Offset(0, 2), Offset(1, 3), Offset(4, 3)],
    [Offset(0, 0), Offset(0, -1), Offset(0, -2), Offset(0, -3), Offset(1, 0),
     Offset(1, -4), Offset(2, 0), Offset(3, -1), Offset(3, -4)],
    [Offset(0, 0), Offset(-1, 0), Offset(-2, 0), Offset(-3, 0), Offset(0, -1),
     Offset(-4, -1), Offset(0, -2), Offset(-1, -3), Offset(-4, -3)],
    [Offset(0, 0), Offset(0, 1), Offset(0, 2), Offset(0, 3), Offset(-1, 0),
     Offset(-1, 4), Offset(-2, 0), Offset(-3, 1), Offset(-3, 4)]
  ]

  function Shapes(p: ActivePattern): seq<seq<Offset>>
  {
    match p
    case Glider => GliderShapes
    case LwSpaceship => LwSpaceshipShapes
  }

  /** A quarter turn: down becomes left, right becomes down. */
  function Turn(o: Offset): Offset
  {
    Offset(o.dc, -o.dr)
  }

  function TurnAll(shape: seq<Offset>): (turned: seq<Offset>)
    ensures |turned| == |shape|
    ensures forall k :: 0 <= k < |shape| ==> turned[k] == Turn(shape[k])
  {
    seq(|shape|, k requires 0 <= k < |shape| => Turn(shape[k]))
  }

  /**
   * The hard-coded tables are quarter turns: each orientation is the
   * previous one turned, and turning the last gives back the first.
   */
  lemma QuarterTurn(p: ActivePattern, k: int)
    requires 0 <= k < 4
    ensures |Shapes(p)| == 4
    ensures k < 3 ==> Shapes(p)[k + 1] == TurnAll(Shapes(p)[k])
    ensures k == 3 ==> Shapes(p)[0] == TurnAll(Shapes(p)[3])
  {
    var s := Shapes(p);
    if k == 0 {
      assert s[1] == TurnAll(s[0]);
    } else if k == 1 {
      assert s[2] == TurnAll(s[1]);
    } else if k == 2 {
      assert s[3] == TurnAll(s[2]);
    } else {
      assert s[0] == TurnAll(s[3]);
    }
  }

  /** Four quarter turns give back the shape, so the orientation cycle closes after four stamps. */
  lemma TurnFourTimes(shape: seq<Offset>)
    ensures TurnAll(TurnAll(TurnAll(TurnAll(shape)))) == shape
  {
    var t := TurnAll(TurnAll(TurnAll(TurnAll(shape))));
    forall k | 0 <= k < |shape|
      ensures t[k] == shape[k]
    {
      assert t[k] == Turn(Turn(Turn(Turn(shape[k]))));
    }
  }

  /** Each table holds four orientations. */
  lemma FourOrientations(p: ActivePattern)
    ensures |Shapes(p)| == 4
  {
  }

  /** Every glider orientation lists 5 cells, every spaceship orientation 9. */
  lemma OrientationSizes(p: ActivePattern, k: int)
    requires 0 <= k < 4
    ensures |Shapes(p)| == 4
    ensures |Shapes(p)[k]| == if p == Glider then 5 else 9
  {
  }

  /** No point of the shape is listed twice. */
  predicate NoRepeatedPoints(shape: seq<Offset>)
  {
    forall i, j :: 0 <= i < j < |shape| ==> shape[i] != shape[j]
  }

  function Abs(x: int): nat
  {
    if x < 0 then -x else x
  }

  /** Any two points of the shape are at most `n` rows and at most `n` columns apart. */
  predicate SpanAtMost(shape: seq<Offset>, n: nat)
  {
    forall i, j :: 0 <= i < |shape| && 0 <= j < |shape| ==>
      Abs(shape[i].dr - shape[j].dr) <= n && Abs(shape[i].dc - shape[j].dc) <= n
  }

  /** Every point lies in the `n + 1` by `n + 1` square below and right of the selected cell. */
  predicate InSquare(shape: seq<Offset>, n: nat)
  {
    forall k :: 0 <= k < |shape| ==> 0 <= shape[k].dr <= n && 0 <= shape[k].dc <= n
  }

  /** A quarter turn keeps the points of a shape apart. */
  lemma TurnKeepsDistinct(shape: seq<Offset>)
    requires NoRepeatedPoints(shape)
    ensures NoRepeatedPoints(TurnAll(shape))
  {
    var t := TurnAll(shape);
    forall i, j | 0 <= i < j < |t|
      ensures t[i] != t[j]
    {
      assert shape[i] != shape[j];
    }
  }

  /** A quarter turn swaps the row and column spans, so a shape within `n` stays within `n`. */
  lemma TurnKeepsSpan(shape: seq<Offset>, n: nat)
    requires SpanAtMost(shape, n)
    ensures SpanAtMost(TurnAll(shape), n)
  {
    var t := TurnAll(shape);
    forall i, j | 0 <= i < |t| && 0 <= j < |t|
      ensures Abs(t[i].dr - t[j].dr) <= n && Abs(t[i].dc - t[j].dc) <= n
    {
      assert t[i].dr - t[j].dr == shape[i].dc - shape[j].dc;
      assert t[i].dc - t[j].dc == -(shape[i].dr - shape[j].dr);
      assert Abs(shape[i].dr - shape[j].dr) <= n && Abs(shape[i].dc - shape[j].dc) <= n;
    }
  }

  /** Points inside one `n + 1` square are at most `n` apart. */
  lemma SquareSpan(shape: seq<Offset>, n: nat)
    requires InSquare(shape, n)
    ensures SpanAtMost(shape, n)
  {
  }

  /** The side of the square a pattern's first orientation fits in, less one. */
  function Reach(p: ActivePattern): nat
  {
    match p
    case Glider => 2
    case LwSpaceship => 4
  }

  /** The first orientation of each table starts at the selected cell and fits its square. */
  lemma FirstOrientation(p: ActivePattern)
    ensures |Shapes(p)| == 4 && |Shapes(p)[0]| > 0 && Shapes(p)[0][0] == Offset(0, 0)
    ensures NoRepeatedPoints(Shapes(p)[0]) && InSquare(Shapes(p)[0], Reach(p))
  {
    match p
    case Glider =>
      assert NoRepeatedPoints(GliderShapes[0]);
    case LwSpaceship =>
      assert NoRepeatedPoints(LwSpaceshipShapes[0]);
  }

  /**
   * Every orientation starts at the selected cell, lists no point twice, and
   * spans at most `Reach(p)` rows and columns (2 for the glider, 4 for the
   * spaceship).
   */
  lemma {:induction false} OrientationIsCompact(p: ActivePattern, k: int)
    requires 0 <= k < 4
    ensures |Shapes(p)| == 4 && |Shapes(p)[k]| > 0 && Shapes(p)[k][0] == Offset(0, 0)
    ensures NoRepeatedPoints(Shapes(p)[k]) && SpanAtMost(Shapes(p)[k], Reach(p))
  {
    var s := Shapes(p);
    if k == 0 {
      FirstOrientation(p);
      SquareSpan(s[0], Reach(p));
    } else {
      OrientationIsCompact(p, k - 1);
      QuarterTurn(p, k - 1);
      TurnKeepsDistinct(s[k - 1]);
      TurnKeepsSpan(s[k - 1], Reach(p));
    }
  }

  /** `confine(row + dr, rowLen)`, or `row` itself when `dr` is 0; the same for columns. */
  function Absolute(o: Offset, row: int, col: int, rowLen: int, colLen: int): (p: Coordinates)
    requires 0 <= row < rowLen && 0 <= col < colLen
    ensures 0 <= p.r < rowLen && 0 <= p.c < colLen
  {
    Coordinates(if o.dr == 0 then row else Confine(row + o.dr, rowLen),
                if o.dc == 0 then col else Confine(col + o.dc, colLen))
  }

  /** Within one grid-length past either edge, a point lands where `Wrap` puts it. */
  lemma AbsoluteIsWrap(o: Offset, row: int, col: int, rowLen: int, colLen: int)
    requires 0 <= row < rowLen && 0 <= col < colLen
    requires -rowLen <= row + o.dr < 2 * rowLen && -colLen <= col + o.dc < 2 * colLen
    ensures Absolute(o, row, col, rowLen, colLen) == Coordinates(Wrap(row + o.dr, rowLen), Wrap(col + o.dc, colLen))
  {
    ConfineIsWrap(row + o.dr, rowLen);
    ConfineIsWrap(col + o.dc, colLen);
  }

  /**
   * When no point reaches more than one grid-length past either edge, a
   * point lands at its true position on the torus.
   */
  lemma AbsoluteIsToroidal(o: Offset, row: int, col: int, rowLen: int, colLen: int)
    requires 0 <= row < rowLen && 0 <= col < colLen
    requires -rowLen <= row + o.dr < 2 * rowLen && -colLen <= col + o.dc < 2 * colLen
    ensures Absolute(o, row, col, rowLen, colLen) == Coordinates((row + o.dr) % rowLen, (col + o.dc) % colLen)
  {
    AbsoluteIsWrap(o, row, col, rowLen, colLen);
    WrapIsModulo(row + o.dr, rowLen);
    WrapIsModulo(col + o.dc, colLen);
  }

  /** Two distinct positions less than a lap apart stay distinct on the ring. */
  lemma WrapSeparates(a: int, b: int, n: int)
    requires n > 0 && -n <= a < 2 * n && -n <= b < 2 * n && a != b && Abs(a - b) < n
    ensures Wrap(a, n) != Wrap(b, n)
  {
  }

  /** The orientation placed at the selected cell: the coordinates the source lists. */
  function Placed(shape: seq<Offset>, row: int, col: int, rowLen: int, colLen: int): (pts: seq<Coordinates>)
    requires 0 <= row < rowLen && 0 <= col < colLen
    ensures |pts| == |shape|
    ensures forall k :: 0 <= k < |pts| ==> 0 <= pts[k].r < rowLen && 0 <= pts[k].c < colLen
  {
    seq(|shape|, k requires 0 <= k < |shape| => Absolute(shape[k], row, col, rowLen, colLen))
  }

  /** All four orientations of a pattern placed at the selected cell. */
  function Orientations(shapes: seq<seq<Offset>>, row: int, col: int, rowLen: int, colLen: int): (os: seq<seq<Coordinates>>)
    requires 0 <= row < rowLen && 0 <= col < colLen
    ensures |os| == |shapes|
    ensures forall k :: 0 <= k < |shapes| ==> os[k] == Placed(shapes[k], row, col, rowLen, colLen)
  {
    seq(|shapes|, k requires 0 <= k < |shapes| => Placed(shapes[k], row, col, rowLen, colLen))
  }

  /** Two different offsets within `n` of the selected cell and of each other land on different cells. */
  lemma AbsoluteSeparates(a: Offset, b: Offset, n: nat, row: int, col: int, rowLen: int, colLen: int)
    requires 0 <= row < rowLen && 0 <= col < colLen && n < rowLen && n < colLen
    requires Abs(a.dr) <= n && Abs(a.dc) <= n && Abs(b.dr) <= n && Abs(b.dc) <= n
    requires Abs(a.dr - b.dr) <= n && Abs(a.dc - b.dc) <= n && a != b
    ensures Absolute(a, row, col, rowLen, colLen) != Absolute(b, row, col, rowLen, colLen)
  {
    AbsoluteIsWrap(a, row, col, rowLen, colLen);
    AbsoluteIsWrap(b, row, col, rowLen, colLen);
    if a.dr != b.dr {
      WrapSeparates(row + a.dr, row + b.dr, rowLen);
    } else {
      WrapSeparates(col + a.dc, col + b.dc, colLen);
    }
  }

  /**
   * On a grid more than `n` cells tall and wide, a shape spanning at most
   * `n` whose first point is the selected cell lands on as many distinct
   * cells as it has points.
   */
  lemma PlacedIsDistinct(shape: seq<Offset>, n: nat, row: int, col: int, rowLen: int, colLen: int)
    requires 0 <= row < rowLen && 0 <= col < colLen && n < rowLen && n < colLen
    requires |shape| > 0 && shape[0] == Offset(0, 0) && NoRepeatedPoints(shape) && SpanAtMost(shape, n)
    ensures forall i, j :: 0 <= i < j < |shape| ==>
      Placed(shape, row, col, rowLen, colLen)[i] != Placed(shape, row, col, rowLen, colLen)[j]
  {
    var pts := Placed(shape, row, col, rowLen, colLen);
    forall i, j | 0 <= i < j < |shape|
      ensures pts[i] != pts[j]
    {
      var a, b := shape[i], shape[j];
      assert Abs(a.dr - shape[0].dr) <= n && Abs(a.dc - shape[0].dc) <= n;
      assert Abs(b.dr - shape[0].dr) <= n && Abs(b.dc - shape[0].dc) <= n;
      assert Abs(a.dr - b.dr) <= n && Abs(a.dc - b.dc) <= n;
      AbsoluteSeparates(a, b, n, row, col, rowLen, colLen);
    }
  }

  /**
   * On a grid of at least 3 by 3 for the glider and 5 by 5 for the
   * spaceship, every orientation marks exactly as many cells as it lists.
   */
  lemma PatternCellsAreDistinct(p: ActivePattern, k: int, row: int, col: int, rowLen: int, colLen: int)
    requires 0 <= k < 4 && 0 <= row < rowLen && 0 <= col < colLen
    requires Reach(p) < rowLen && Reach(p) < colLen
    ensures forall i, j :: 0 <= i < j < |Shapes(p)[k]| ==>
      Placed(Shapes(p)[k], row, col, rowLen, colLen)[i] != Placed(Shapes(p)[k], row, col, rowLen, colLen)[j]
  {
    OrientationIsCompact(p, k);
    PlacedIsDistinct(Shapes(p)[k], Reach(p), row, col, rowLen, colLen);
  }

  /**
   * On a grid more than `Reach(p)` cells tall and wide, every point of every
   * orientation lands at its true position on the torus.
   */
  lemma PlacedIsToroidal(p: ActivePattern, k: int, row: int, col: int, rowLen: int, colLen: int)
    requires 0 <= k < 4 && 0 <= row < rowLen && 0 <= col < colLen
    requires Reach(p) < rowLen && Reach(p) < colLen
    ensures forall i :: 0 <= i < |Shapes(p)[k]| ==>
      Placed(Shapes(p)[k], row, col, rowLen, colLen)[i]
        == Coordinates((row + Shapes(p)[k][i].dr) % rowLen, (col + Shapes(p)[k][i].dc) % colLen)
  {
    OrientationIsCompact(p, k);
    var shape := Shapes(p)[k];
    forall i | 0 <= i < |shape|
      ensures Placed(shape, row, col, rowLen, colLen)[i]
        == Coordinates((row + shape[i].dr) % rowLen, (col + shape[i].dc) % colLen)
    {
      assert Abs(shape[i].dr - shape[0].dr) <= Reach(p) && Abs(shape[i].dc - shape[0].dc) <= Reach(p);
      AbsoluteIsToroidal(shape[i], row, col, rowLen, colLen);
    }
  }

  /** Every listed point is live; every other cell is as it was. */
  function Stamp(g: CellMap, pts: seq<Coordinates>): (h: CellMap)
    requires forall k :: 0 <= k < |pts| ==> InBounds(g, pts[k].r, pts[k].c)
    ensures |h| == |g| && forall r :: 0 <= r < |g| ==> |h[r]| == |g[r]|
    ensures forall r, c :: InBounds(g, r, c) ==> h[r][c] == if Coordinates(r, c) in pts then 1 else g[r][c]
    decreases |pts|
  {
    if |pts| == 0 then g
    else
      var p, before := pts[|pts| - 1], pts[..|pts| - 1];
      assert pts == before + [p];
      SetCell(Stamp(g, before), p.r, p.c, 1)
  }

  /** Stamping the same points twice is stamping them once. */
  lemma StampIdempotent(g: CellMap, pts: seq<Coordinates>)
    requires forall k :: 0 <= k < |pts| ==> InBounds(g, pts[k].r, pts[k].c)
    ensures Stamp(Stamp(g, pts), pts) == Stamp(g, pts)
  {
    var h := Stamp(g, pts);
    var hh := Stamp(h, pts);
    forall r | 0 <= r < |g|
      ensures hh[r] == h[r]
    {
      assert forall c :: 0 <= c < |g[r]| ==> hh[r][c] == h[r][c];
    }
  }

  /** The `{ value }` object that remembers which orientation comes next. */
  class OrientationSelector {
    var value: int

    constructor ()
      ensures value == 0
    {
      value := 0;
    }
  }

  /** The armed pattern and the last armed one. */
  datatype Session = Session(active: Option<ActivePattern>, last: Option<ActivePattern>)

  /** `startPatternCreate(p)` on the session. */
  function Started(s: Session, p: ActivePattern): (t: Session)
    ensures t.active == Some(p) && t.last == s.last
  {
    s.(active := Some(p))
  }

  /** `cancelPatternCreate()` on the session. */
  function Cancelled(s: Session): (t: Session)
    ensures t.active == None && t.last == s.active
  {
    Session(None, s.active)
  }

  /** Starting then cancelling disarms and remembers the pattern; starting again re-arms it. */
  lemma StartCancelRestart(s: Session, p: ActivePattern)
    ensures Cancelled(Started(s, p)) == Session(None, Some(p))
    ensures Started(Cancelled(Started(s, p)), p) == Session(Some(p), Some(p))
    ensures Cancelled(Cancelled(s)) == Session(None, None)
  {
  }

  class PatternCreationService {
    const gameData: GameDataService
    const gliderSelector: OrientationSelector
    const lwSpaceshipSelector: OrientationSelector
    var activePattern: Option<ActivePattern>
    var lastActivePattern: Option<ActivePattern>

    /** The two orientation cursors are separate objects, each on one of four orientations. */
    predicate Valid()
      reads this, gliderSelector, lwSpaceshipSelector
    {
      gliderSelector != lwSpaceshipSelector
      && 0 <= gliderSelector.value < 4 && 0 <= lwSpaceshipSelector.value < 4
    }

    /** The map is rectangular and the selected cell lies on it. */
    predicate Ready()
      reads this, gameData
    {
      Rectangular(gameData.cellMap) && InBounds(gameData.cellMap, gameData.selectedRow, gameData.selectedCol)
    }

    function CurrentSession(): Session
      reads this
    {
      Session(activePattern, lastActivePattern)
    }

    function SelectorOf(p: ActivePattern): OrientationSelector
      reads this
    {
      match p
      case Glider => gliderSelector
      case LwSpaceship => lwSpaceshipSelector
    }

    /** `isPatternCreateInProgress`: some pattern is armed. */
    function IsPatternCreateInProgress(): bool
      reads this
    {
      activePattern != None
    }

    constructor (gameData: GameDataService)
      ensures this.gameData == gameData && Valid()
      ensures activePattern == None && lastActivePattern == None
      ensures fresh(gliderSelector) && fresh(lwSpaceshipSelector)
      ensures gliderSelector.value == 0 && lwSpaceshipSelector.value == 0
    {
      this.gameData := gameData;
      gliderSelector := new OrientationSelector();
      lwSpaceshipSelector := new OrientationSelector();
      activePattern := None;
      lastActivePattern := None;
    }

    /**
     * `generatePattern(orientations, selector)`: makes every point of the
     * current orientation live, then moves the cursor on, wrapping to 0.
     */
    method GeneratePattern(orientations: seq<seq<Coordinates>>, selector: OrientationSelector)
      requires 0 <= selector.value < |orientations|
      requires forall k :: 0 <= k < |orientations[selector.value]| ==>
        InBounds(gameData.cellMap, orientations[selector.value][k].r, orientations[selector.value][k].c)
      modifies gameData`cellMap, selector`value
      ensures gameData.cellMap == Stamp(old(gameData.cellMap), orientations[old(selector.value)])
      ensures selector.value == (old(selector.value) + 1) % |orientations|
      ensures selector.value == Wrap(old(selector.value) + 1, |orientations|)
      ensures 0 <= selector.value < |orientations|
    {
      var pattern := orientations[selector.value];
      var i := 0;
      while i < |pattern|
        invariant 0 <= i <= |pattern| && selector.value == old(selector.value)
        invariant gameData.cellMap == Stamp(old(gameData.cellMap), pattern[..i])
      {
        var point := pattern[i];
        assert pattern[..i + 1][..i] == pattern[..i];
        gameData.cellMap := SetCell(gameData.cellMap, point.r, point.c, 1);
        i := i + 1;
      }
      assert pattern[..i] == pattern;
      WrapIsModulo(selector.value + 1, |orientations|);
      selector.value := selector.value + 1;
      if selector.value >= |orientations| {
        selector.value := 0;
      }
    }

    /** `generateGlider()`: the glider's current orientation at the selected cell. */
    method GenerateGlider()
      requires Valid() && Ready()
      modifies gameData`cellMap, gliderSelector`value
      ensures Valid()
      ensures gameData.cellMap == Stamp(old(gameData.cellMap),
        Placed(Shapes(Glider)[old(gliderSelector.value)], gameData.selectedRow, gameData.selectedCol,
               |old(gameData.cellMap)|, |old(gameData.cellMap)[0]|))
      ensures gliderSelector.value == Wrap(old(gliderSelector.value) + 1, 4)
    {
      var row := gameData.selectedRow;
      var col := gameData.selectedCol;
      var rowLen := |gameData.cellMap|;
      var colLen := |gameData.cellMap[0]|;
      FourOrientations(Glider);
      var orientations := Orientations(Shapes(Glider), row, col, rowLen, colLen);
      GeneratePattern(orientations, gliderSelector);
    }

    /** `generateLwSpaceShip()`: the spaceship's current orientation at the selected cell. */
    method GenerateLwSpaceShip()
      requires Valid() && Ready()
      modifies gameData`cellMap, lwSpaceshipSelector`value
      ensures Valid()
      ensures gameData.cellMap == Stamp(old(gameData.cellMap),
        Placed(Shapes(LwSpaceship)[old(lwSpaceshipSelector.value)], gameData.selectedRow, gameData.selectedCol,
               |old(gameData.cellMap)|, |old(gameData.cellMap)[0]|))
      ensures lwSpaceshipSelector.value == Wrap(old(lwSpaceshipSelector.value) + 1, 4)
    {
      var row := gameData.selectedRow;
      var col := gameData.selectedCol;
      var rowLen := |gameData.cellMap|;
      var colLen := |gameData.cellMap[0]|;
      FourOrientations(LwSpaceship);
      var orientations := Orientations(Shapes(LwSpaceship), row, col, rowLen, colLen);
      GeneratePattern(orientations, lwSpaceshipSelector);
    }

    /** `startPatternCreate(p)`: arms `p` and announces it. */
    method StartPatternCreate(p: ActivePattern)
      modifies this`activePattern, gameData`message
      ensures CurrentSession() == Started(old(CurrentSession()), p)
      ensures gameData.message == Some(Message("Generating " + Name(p), "pattern-creation-service"))
    {
      activePattern := Some(p);
      gameData.message := Some(Message("Generating " + Name(p), "pattern-creation-service"));
    }

    /** `cancelPatternCreate()`: remembers the armed pattern, disarms, clears the message. */
    method CancelPatternCreate()
      modifies this`activePattern, this`lastActivePattern, gameData`message
      ensures CurrentSession() == Cancelled(old(CurrentSession()))
      ensures gameData.message == None
    {
      lastActivePattern := activePattern;
      activePattern := None;
      gameData.message := None;
    }

    /**
     * `finishPatternCreate()`: stamps the armed pattern at the selected cell;
     * with nothing armed the map is left alone. The pattern stays armed.
     */
    method FinishPatternCreate()
      requires Valid() && Ready()
      modifies gameData`cellMap, gliderSelector`value, lwSpaceshipSelector`value
      ensures Valid()
      ensures old(activePattern) == None ==> gameData.cellMap == old(gameData.cellMap)
      ensures old(activePattern) == None ==> unchanged(gliderSelector, lwSpaceshipSelector)
      ensures activePattern == Some(Glider) ==> lwSpaceshipSelector.value == old(lwSpaceshipSelector.value)
      ensures activePattern == Some(LwSpaceship) ==> gliderSelector.value == old(gliderSelector.value)
      ensures activePattern.Some? ==>
        var p := activePattern.value;
        gameData.cellMap == Stamp(old(gameData.cellMap),
          Placed(Shapes(p)[old(SelectorOf(p).value)], gameData.selectedRow, gameData.selectedCol,
                 |old(gameData.cellMap)|, |old(gameData.cellMap)[0]|))
        && SelectorOf(p).value == Wrap(old(SelectorOf(p).value) + 1, 4)
    {
      match activePattern
      case Some(Glider) => GenerateGlider();
      case Some(LwSpaceship) => GenerateLwSpaceShip();
      case None =>
    }
  }

  /**
   * The clicked cell is always among the stamped points, so it is live after
   * any stamp, whichever pattern and orientation.
   */
  lemma StampMarksSelectedCell(g: CellMap, p: ActivePattern, k: int, row: int, col: int)
    requires Rectangular(g) && InBounds(g, row, col) && 0 <= k < 4
    ensures Stamp(g, Placed(Shapes(p)[k], row, col, |g|, |g[0]|))[row][col] == 1
  {
    OrientationIsCompact(p, k);
    var pts := Placed(Shapes(p)[k], row, col, |g|, |g[0]|);
    assert pts[0] == Coordinates(row, col);
  }
}
