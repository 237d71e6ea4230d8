/**
 * The grid walk `tilesIntersect` of packages/render/src/shared/tiles.ts: the integer
 * cells met on the way from `a` to `b`, stepping one cell at a time along one axis,
 * as in the traversal of Amanatides and Woo.
 */
module TileWalk {
  import opened Geometry

  /** A grid cell `[x, y]`. */
  datatype Cell = Cell(x: int, y: int)

  /** `Math.sign`. */
  function Sign(v: real): int
  {
    if v > 0.0 then 1 else if v < 0.0 then -1 else 0
  }

  function Abs(v: real): real
  {
    if v < 0.0 then -v else v
  }

  /** `Math.max(0, step)`. */
  function Max0(step: int): real
  {
    if step > 0 then 1.0 else 0.0
  }

  /** What `tilesIntersect` fixes before its loop. */
  datatype Setup = Setup(
    endX: int, endY: int,
    stepX: int, stepY: int,
    toX: real, toY: real,
    vX: real, vY: real)

  function SetupOf(a: Pos, b: Pos): (c: Setup)
    ensures c.toX >= 0.0 && c.toY >= 0.0 && c.vX >= 0.0 && c.vY >= 0.0
  {
    var stepX := Sign(b.x - a.x);
    var stepY := Sign(b.y - a.y);
    Setup(
      b.x.Floor, b.y.Floor,
      stepX, stepY,
      Abs(a.x - a.x.Floor as real - Max0(stepX)), Abs(a.y - a.y.Floor as real - Max0(stepY)),
      Abs(a.x - b.x), Abs(a.y - b.y))
  }

  predicate AtEnd(c: Setup, x: int, y: int)
  {
    x == c.endX && y == c.endY
  }

  // ---------------------------------------------------------------------------
  // The walk as written, over IEEE-style numbers

  /** The non-negative IEEE doubles the loop computes with: finite, `Infinity` or `NaN`. */
  datatype Num = Fin(v: real) | Infinity | NaN

  /** `n / d` for `n, d >= 0`: `n / 0` is `Infinity`, `0 / 0` is `NaN`. */
  function Divide(n: real, d: real): Num
    requires n >= 0.0 && d >= 0.0
  {
    if d > 0.0 then Fin(n / d) else if n > 0.0 then Infinity else NaN
  }

  function Plus(a: Num, b: Num): Num
  {
    if a.NaN? || b.NaN? then NaN
    else if a.Infinity? || b.Infinity? then Infinity
    else Fin(a.v + b.v)
  }

  /** `a < b`: false whenever `NaN` is involved. */
  predicate Less(a: Num, b: Num)
  {
    a.Fin? && (b.Infinity? || (b.Fin? && a.v < b.v))
  }

  datatype RawState = RawState(x: int, y: int, tMaxX: Num, tMaxY: Num)

  function StartAsWritten(a: Pos, b: Pos): RawState
  {
    var c := SetupOf(a, b);
    RawState(a.x.Floor, a.y.Floor, Divide(c.toX, c.vX), Divide(c.toY, c.vY))
  }

  /** One turn of the `while` loop of `tilesIntersect` as written. */
  function StepAsWritten(c: Setup, s: RawState): RawState
    requires c.vX >= 0.0 && c.vY >= 0.0
  {
    if Less(s.tMaxX, s.tMaxY) then
      RawState(s.x + c.stepX, s.y, Plus(s.tMaxX, Divide(1.0, c.vX)), s.tMaxY)
    else
      RawState(s.x, s.y + c.stepY, s.tMaxX, Plus(s.tMaxY, Divide(1.0, c.vY)))
  }

  /** The state after `n` turns of the loop. */
  function IterateAsWritten(c: Setup, s: RawState, n: nat): RawState
    requires c.vX >= 0.0 && c.vY >= 0.0
    decreases n
  {
    if n == 0 then s else IterateAsWritten(c, StepAsWritten(c, s), n - 1)
  }

  /**
   * A horizontal edge on an integer row: `tMaxY` is `0 / 0`, so every turn steps `y`
   * by `0` and the loop, which starts away from its end, never stops.
   */
  lemma HorizontalEdgeNeverEnds()
    ensures var a, b := Pos(0.5, 0.0), Pos(1.5, 0.0);
      forall n: nat :: !AtEnd(SetupOf(a, b), IterateAsWritten(SetupOf(a, b), StartAsWritten(a, b), n).x,
                                             IterateAsWritten(SetupOf(a, b), StartAsWritten(a, b), n).y)
  {
    forall n: nat
      ensures IterateAsWritten(SetupOf(Pos(0.5, 0.0), Pos(1.5, 0.0)), StartAsWritten(Pos(0.5, 0.0), Pos(1.5, 0.0)), n)
        == RawState(0, 0, Fin(0.5), NaN)
    {
      HorizontalEdgeStuck(n);
    }
    HorizontalEdgeSetup();
  }

  lemma HorizontalEdgeStuck(n: nat)
    ensures IterateAsWritten(SetupOf(Pos(0.5, 0.0), Pos(1.5, 0.0)), StartAsWritten(Pos(0.5, 0.0), Pos(1.5, 0.0)), n)
      == RawState(0, 0, Fin(0.5), NaN)
  {
    HorizontalEdgeSetup();
    var c := Setup(1, 0, 1, 0, 0.5, 0.0, 1.0, 0.0);
    var s := RawState(0, 0, Fin(0.5), NaN);
    assert StepAsWritten(c, s) == s;
    FixpointIterates(c, s, n);
  }

  lemma HorizontalEdgeSetup()
    ensures SetupOf(Pos(0.5, 0.0), Pos(1.5, 0.0)) == Setup(1, 0, 1, 0, 0.5, 0.0, 1.0, 0.0)
    ensures StartAsWritten(Pos(0.5, 0.0), Pos(1.5, 0.0)) == RawState(0, 0, Fin(0.5), NaN)
  {
    assert (0.5).Floor == 0 && (0.0).Floor == 0 && (1.5).Floor == 1;
  }

  lemma {:induction false} FixpointIterates(c: Setup, s: RawState, n: nat)
    requires c.vX >= 0.0 && c.vY >= 0.0
    requires StepAsWritten(c, s) == s
    ensures IterateAsWritten(c, s, n) == s
  {
    if n > 0 {
      FixpointIterates(c, s, n - 1);
    }
  }

  /** The states of the corner example: `y` stays below its end row once the first tie sends it down. */
  predicate CornerInvariant(s: RawState)
  {
    s.y <= 0 && s.tMaxX.Fin? && s.tMaxY.Fin?
    && (s.tMaxY.v == s.tMaxX.v || s.tMaxY.v == s.tMaxX.v + 2.0)
  }

  lemma {:induction false} CornerIterates(c: Setup, s: RawState, n: nat)
    requires c == SetupOf(Pos(0.5, 1.5), Pos(1.0, 1.0))
    requires CornerInvariant(s)
    ensures CornerInvariant(IterateAsWritten(c, s, n))
    decreases n
  {
    assert c.stepX == 1 && c.stepY == -1 && c.vX == 0.5 && c.vY == 0.5;
    if n > 0 {
      CornerIterates(c, StepAsWritten(c, s), n - 1);
    }
  }

  /**
   * An edge that ends exactly on a grid corner, going right and up the rows: the tie
   * `tMaxX == tMaxY` steps `y` past its end row, after which the loop never stops.
   */
  lemma CornerEndNeverEnds()
    ensures var a, b := Pos(0.5, 1.5), Pos(1.0, 1.0);
      forall n: nat :: !AtEnd(SetupOf(a, b), IterateAsWritten(SetupOf(a, b), StartAsWritten(a, b), n).x,
                                             IterateAsWritten(SetupOf(a, b), StartAsWritten(a, b), n).y)
  {
    var a, b := Pos(0.5, 1.5), Pos(1.0, 1.0);
    var c := SetupOf(a, b);
    var s := StartAsWritten(a, b);
    assert a.x.Floor == 0 && a.y.Floor == 1 && b.x.Floor == 1 && b.y.Floor == 1;
    assert c.endX == 1 && c.endY == 1 && c.stepX == 1 && c.stepY == -1;
    assert c.toX == 0.5 && c.toY == 0.5 && c.vX == 0.5 && c.vY == 0.5;
    assert s == RawState(0, 1, Fin(1.0), Fin(1.0));
    assert StepAsWritten(c, s) == RawState(0, 0, Fin(1.0), Fin(3.0));
    forall n: nat
      ensures !AtEnd(c, IterateAsWritten(c, s, n).x, IterateAsWritten(c, s, n).y)
    {
      if n > 0 {
        CornerIterates(c, StepAsWritten(c, s), n - 1);
      }
    }
  }

  // ---------------------------------------------------------------------------
  // The corrected walk

  /**
   * The loop state over the reals. An axis with no extent (`v == 0`) never steps, so its
   * `tMax` is never compared and is kept at 0.
   */
  datatype WalkState = WalkState(x: int, y: int, tMaxX: real, tMaxY: real)

  function Start(a: Pos, b: Pos): WalkState
  {
    var c := SetupOf(a, b);
    WalkState(a.x.Floor, a.y.Floor,
      if c.vX > 0.0 then c.toX / c.vX else 0.0,
      if c.vY > 0.0 then c.toY / c.vY else 0.0)
  }

  function DeltaX(c: Setup): real
  {
    if c.vX > 0.0 then 1.0 / c.vX else 0.0
  }

  function DeltaY(c: Setup): real
  {
    if c.vY > 0.0 then 1.0 / c.vY else 0.0
  }

  /**
   * One step: only the axis that has not reached its end may move, and while both may,
   * the smaller `tMax` decides as in the source (a tie goes to `y`).
   */
  function Step(c: Setup, s: WalkState): WalkState
  {
    if s.x == c.endX || (s.y != c.endY && !(s.tMaxX < s.tMaxY)) then
      WalkState(s.x, s.y + c.stepY, s.tMaxX, s.tMaxY + DeltaY(c))
    else
      WalkState(s.x + c.stepX, s.y, s.tMaxX + DeltaX(c), s.tMaxY)
  }

  /** Each step direction points at the end cell on its axis, or the axis is done. */
  predicate Heading(c: Setup, s: WalkState)
  {
    && (s.x == c.endX || c.stepX == (if c.endX > s.x then 1 else -1))
    && (s.y == c.endY || c.stepY == (if c.endY > s.y then 1 else -1))
  }

  function Distance(c: Setup, s: WalkState): nat
  {
    (if c.endX >= s.x then c.endX - s.x else s.x - c.endX)
    + (if c.endY >= s.y then c.endY - s.y else s.y - c.endY)
  }

  lemma FloorMonotone(u: real, v: real)
    requires u <= v
    ensures u.Floor <= v.Floor
  {
  }

  lemma StartHeading(a: Pos, b: Pos)
    ensures Heading(SetupOf(a, b), Start(a, b))
  {
    if a.x <= b.x { FloorMonotone(a.x, b.x); } else { FloorMonotone(b.x, a.x); }
    if a.y <= b.y { FloorMonotone(a.y, b.y); } else { FloorMonotone(b.y, a.y); }
  }

  /** The cells after `s`, up to and including the end cell. */
  function WalkFrom(c: Setup, s: WalkState): seq<Cell>
    requires Heading(c, s)
    decreases Distance(c, s)
  {
    if AtEnd(c, s.x, s.y) then []
    else
      var n := Step(c, s);
      [Cell(n.x, n.y)] + WalkFrom(c, n)
  }

  /** The cells of the corrected `tilesIntersect([a, b])`. */
  function Walk(a: Pos, b: Pos): seq<Cell>
  {
    StartHeading(a, b);
    var s := Start(a, b);
    [Cell(s.x, s.y)] + WalkFrom(SetupOf(a, b), s)
  }

  /** Every step moves by `step` on exactly one axis. */
  predicate UnitSteps(cells: seq<Cell>, stepX: int, stepY: int)
  {
    forall i :: 0 <= i < |cells| - 1 ==>
      || (stepX != 0 && cells[i + 1] == Cell(cells[i].x + stepX, cells[i].y))
      || (stepY != 0 && cells[i + 1] == Cell(cells[i].x, cells[i].y + stepY))
  }

  lemma {:induction false} WalkFromProperties(c: Setup, s: WalkState)
    requires Heading(c, s)
    decreases Distance(c, s)
    ensures |WalkFrom(c, s)| == Distance(c, s)
    ensures WalkFrom(c, s) != [] ==> WalkFrom(c, s)[|WalkFrom(c, s)| - 1] == Cell(c.endX, c.endY)
    ensures UnitSteps([Cell(s.x, s.y)] + WalkFrom(c, s), c.stepX, c.stepY)
  {
    if !AtEnd(c, s.x, s.y) {
      var n := Step(c, s);
      WalkFromProperties(c, n);
      var cells := [Cell(s.x, s.y)] + WalkFrom(c, s);
      var rest := [Cell(n.x, n.y)] + WalkFrom(c, n);
      assert cells == [Cell(s.x, s.y)] + rest;
      forall i | 0 <= i < |cells| - 1
        ensures || (c.stepX != 0 && cells[i + 1] == Cell(cells[i].x + c.stepX, cells[i].y))
                || (c.stepY != 0 && cells[i + 1] == Cell(cells[i].x, cells[i].y + c.stepY))
      {
        if i > 0 {
          assert cells[i] == rest[i - 1] && cells[i + 1] == rest[i];
        }
      }
    }
  }

  /**
   * The walk starts in the cell of `a`, ends in the cell of `b`, takes one unit step
   * per cell boundary crossed, each on one axis in the direction of `b - a`.
   */
  lemma WalkProperties(a: Pos, b: Pos)
    ensures var w := Walk(a, b);
      && w[0] == Cell(a.x.Floor, a.y.Floor)
      && w[|w| - 1] == Cell(b.x.Floor, b.y.Floor)
      && |w| == 1 + Distance(SetupOf(a, b), Start(a, b))
      && UnitSteps(w, Sign(b.x - a.x), Sign(b.y - a.y))
      && (Cell(a.x.Floor, a.y.Floor) == Cell(b.x.Floor, b.y.Floor) ==> w == [Cell(a.x.Floor, a.y.Floor)])
  {
    StartHeading(a, b);
    WalkFromProperties(SetupOf(a, b), Start(a, b));
  }

  /** Away from the end rows and columns, and with both extents positive, the corrected step is the source's. */
  lemma StepAgreesWithSource(c: Setup, s: WalkState)
    requires c.vX > 0.0 && c.vY > 0.0
    requires s.x != c.endX && s.y != c.endY
    ensures var raw := StepAsWritten(c, RawState(s.x, s.y, Fin(s.tMaxX), Fin(s.tMaxY)));
      var n := Step(c, s);
      raw == RawState(n.x, n.y, Fin(n.tMaxX), Fin(n.tMaxY))
  {
  }

  /** With both extents positive the corrected walk starts in the source's state. */
  lemma StartAgreesWithSource(a: Pos, b: Pos)
    requires SetupOf(a, b).vX > 0.0 && SetupOf(a, b).vY > 0.0
    ensures var s := Start(a, b);
      StartAsWritten(a, b) == RawState(s.x, s.y, Fin(s.tMaxX), Fin(s.tMaxY))
  {
  }

  /** The cells the source's loop has pushed after `n` turns from `s`: the start cell and one per turn. */
  function CellsAsWritten(c: Setup, s: RawState, n: nat): (r: seq<Cell>)
    requires c.vX >= 0.0 && c.vY >= 0.0
    decreases n
    ensures |r| == n + 1 && r[0] == Cell(s.x, s.y)
  {
    [Cell(s.x, s.y)] + (if n == 0 then [] else CellsAsWritten(c, StepAsWritten(c, s), n - 1))
  }

  /** The source's loop, run from `s`, stops after exactly `n` turns: `n` is the first turn at the end cell. */
  predicate StopsAfter(c: Setup, s: RawState, n: nat)
  {
    && c.vX >= 0.0 && c.vY >= 0.0
    && AtEnd(c, IterateAsWritten(c, s, n).x, IterateAsWritten(c, s, n).y)
    && forall m :: 0 <= m < n ==> !AtEnd(c, IterateAsWritten(c, s, m).x, IterateAsWritten(c, s, m).y)
  }

  /** `v` has passed `end` in the direction of `step`, so stepping on can never come back to it. */
  predicate Beyond(step: int, v: int, end: int)
  {
    (step > 0 && v > end) || (step < 0 && v < end)
  }

  /** Once an axis has overshot its end the source's loop never reaches the end cell. */
  lemma {:induction false} OvershotNeverEnds(c: Setup, s: RawState, n: nat)
    requires c.vX >= 0.0 && c.vY >= 0.0
    requires Beyond(c.stepX, s.x, c.endX) || Beyond(c.stepY, s.y, c.endY)
    ensures !AtEnd(c, IterateAsWritten(c, s, n).x, IterateAsWritten(c, s, n).y)
    decreases n
  {
    if n > 0 {
      OvershotNeverEnds(c, StepAsWritten(c, s), n - 1);
    }
  }

  /**
   * A state of the source's loop that matches a corrected state: the same cell, the same
   * finite `tMax` on an axis with extent, and `Infinity` or `NaN` on an axis without, which
   * then has no step and sits at its end.
   */
  predicate Matches(c: Setup, raw: RawState, s: WalkState)
  {
    && raw.x == s.x && raw.y == s.y
    && c.vX >= 0.0 && c.vY >= 0.0
    && (c.vX == 0.0 ==> c.stepX == 0 && s.x == c.endX && !raw.tMaxX.Fin?)
    && (c.vY == 0.0 ==> c.stepY == 0 && s.y == c.endY && !raw.tMaxY.Fin?)
    && (c.vX > 0.0 ==> c.stepX != 0 && raw.tMaxX == Fin(s.tMaxX))
    && (c.vY > 0.0 ==> c.stepY != 0 && raw.tMaxY == Fin(s.tMaxY))
  }

  /** A loop that stops after `n` turns from `s` stops after `n - 1` turns from the next state. */
  lemma StopsAfterStep(c: Setup, s: RawState, n: nat)
    requires StopsAfter(c, s, n) && n > 0
    ensures !AtEnd(c, s.x, s.y) && StopsAfter(c, StepAsWritten(c, s), n - 1)
  {
    assert IterateAsWritten(c, s, 0) == s;
    forall m | 0 <= m < n - 1
      ensures !AtEnd(c, IterateAsWritten(c, StepAsWritten(c, s), m).x, IterateAsWritten(c, StepAsWritten(c, s), m).y)
    {
      assert IterateAsWritten(c, s, m + 1) == IterateAsWritten(c, StepAsWritten(c, s), m);
    }
  }

  /**
   * From matching states, a source loop that stops pushes exactly the corrected cells: where
   * the two steps would differ, the source overshoots an axis or stands still, and then
   * never stops.
   */
  lemma {:induction false} MatchingWalksAgree(c: Setup, raw: RawState, s: WalkState, n: nat)
    requires Matches(c, raw, s) && Heading(c, s) && StopsAfter(c, raw, n)
    ensures CellsAsWritten(c, raw, n) == [Cell(s.x, s.y)] + WalkFrom(c, s)
    decreases n
  {
    if n == 0 {
      assert IterateAsWritten(c, raw, 0) == raw;
    } else {
      StopsAfterStep(c, raw, n);
      var raw', s' := StepAsWritten(c, raw), Step(c, s);
      if raw' == raw {
        // standing still, the state after `n` turns is the one after `n - 1`, not at the end
        assert false;
      } else if Beyond(c.stepX, raw'.x, c.endX) || Beyond(c.stepY, raw'.y, c.endY) {
        OvershotNeverEnds(c, raw', n - 1);
      } else {
        assert Matches(c, raw', s');
        MatchingWalksAgree(c, raw', s', n - 1);
      }
    }
  }

  /**
   * The correction changes only the inputs the source loops on: whenever the source's loop
   * stops, the cells it has pushed are the corrected walk's.
   */
  lemma AsWrittenStopsOnWalk(a: Pos, b: Pos, n: nat)
    requires StopsAfter(SetupOf(a, b), StartAsWritten(a, b), n)
    ensures CellsAsWritten(SetupOf(a, b), StartAsWritten(a, b), n) == Walk(a, b)
  {
    StartHeading(a, b);
    var c := SetupOf(a, b);
    assert Matches(c, StartAsWritten(a, b), Start(a, b));
    MatchingWalksAgree(c, StartAsWritten(a, b), Start(a, b), n);
  }

  /** The two inputs the source loops on are walked to their end cells. */
  lemma CorrectedExamples()
    ensures Walk(Pos(0.5, 0.0), Pos(1.5, 0.0)) == [Cell(0, 0), Cell(1, 0)]
    ensures Walk(Pos(0.5, 1.5), Pos(1.0, 1.0)) == [Cell(0, 1), Cell(1, 1)]
  {
    var a, b := Pos(0.5, 0.0), Pos(1.5, 0.0);
    assert a.x.Floor == 0 && a.y.Floor == 0 && b.x.Floor == 1 && b.y.Floor == 0;
    StartHeading(a, b);
    var c, s := SetupOf(a, b), Start(a, b);
    assert Step(c, s) == WalkState(1, 0, 1.5, 0.0);
    var a2, b2 := Pos(0.5, 1.5), Pos(1.0, 1.0);
    assert a2.x.Floor == 0 && a2.y.Floor == 1 && b2.x.Floor == 1 && b2.y.Floor == 1;
    StartHeading(a2, b2);
    var c2, s2 := SetupOf(a2, b2), Start(a2, b2);
    assert Step(c2, s2) == WalkState(1, 1, 3.0, 1.0);
  }

  /** `tilesIntersect([a, b])`, corrected: the loop of the source with the end of each axis respected. */
  method TilesIntersect(a: Pos, b: Pos) returns (points: seq<Cell>)
    ensures points == Walk(a, b)
    ensures points[0] == Cell(a.x.Floor, a.y.Floor) && points[|points| - 1] == Cell(b.x.Floor, b.y.Floor)
    ensures UnitSteps(points, Sign(b.x - a.x), Sign(b.y - a.y))
    ensures Cell(a.x.Floor, a.y.Floor) == Cell(b.x.Floor, b.y.Floor) ==> points == [Cell(a.x.Floor, a.y.Floor)]
  {
    points := WalkCells(a, b);
    WalkProperties(a, b);
  }

  /** The loop of `tilesIntersect`, stepping one cell at a time towards the end cell. */
  method WalkCells(a: Pos, b: Pos) returns (points: seq<Cell>)
    ensures points == Walk(a, b)
  {
    StartHeading(a, b);
    var c := SetupOf(a, b);
    var x, y := a.x.Floor, a.y.Floor;
    points := [Cell(x, y)];
    if x == c.endX && y == c.endY {
      WalkProperties(a, b);
      return;
    }
    var tMaxX := if c.vX > 0.0 then c.toX / c.vX else 0.0;
    var tMaxY := if c.vY > 0.0 then c.toY / c.vY else 0.0;
    var tDeltaX := DeltaX(c);
    var tDeltaY := DeltaY(c);
    while !(x == c.endX && y == c.endY)
      invariant Heading(c, WalkState(x, y, tMaxX, tMaxY))
      invariant points + WalkFrom(c, WalkState(x, y, tMaxX, tMaxY)) == Walk(a, b)
      decreases Distance(c, WalkState(x, y, tMaxX, tMaxY))
    {
      if x == c.endX || (y != c.endY && !(tMaxX < tMaxY)) {
        tMaxY := tMaxY + tDeltaY;
        y := y + c.stepY;
      } else {
        tMaxX := tMaxX + tDeltaX;
        x := x + c.stepX;
      }
      points := points + [Cell(x, y)];
    }
  }
}
