/** Bounding boxes: packages/stdlib/src/bbox.ts. */
module StdBBox {
  import opened Geometry
  import opened Wrappers

  /** `[minX, minY, maxX, maxY]`. */
  datatype BBox = BBox(minX: real, minY: real, maxX: real, maxY: real)

  /**
   * The `[min, max]` pair of `computeExtent`. `EmptyExtent` stands for the
   * `[+Infinity, -Infinity]` that an empty list of values yields.
   */
  datatype Extent = EmptyExtent | Extent(min: real, max: real)

  /** The argument of `computeBbox`: a line string, or a polygon that is flattened first. */
  datatype Points = LineString(positions: seq<Pos>) | Polygon(rings: seq<seq<Pos>>)

  function Concat(rings: seq<seq<Pos>>): seq<Pos>
  {
    if rings == [] then [] else Concat(rings[..|rings| - 1]) + rings[|rings| - 1]
  }

  lemma {:induction false} InConcat(rings: seq<seq<Pos>>, p: Pos)
    ensures p in Concat(rings) <==> exists i :: 0 <= i < |rings| && p in rings[i]
  {
    if rings != [] {
      InConcat(rings[..|rings| - 1], p);
      if p in rings[|rings| - 1] {
        assert p in rings[|rings| - 1];
      }
      forall i | 0 <= i < |rings| - 1 && p in rings[i]
        ensures p in Concat(rings[..|rings| - 1])
      {
        assert rings[..|rings| - 1][i] == rings[i];
      }
    }
  }

  /** The positions `computeBbox` looks at: the line string, or `polygon.flat()`. */
  function Flatten(points: Points): (r: seq<Pos>)
    ensures points.LineString? ==> r == points.positions
    ensures points.Polygon? ==> forall p :: p in r <==> exists i :: 0 <= i < |points.rings| && p in points.rings[i]
  {
    match points
    case LineString(ps) => ps
    case Polygon(rings) => InConcatAll(rings); Concat(rings)
  }

  lemma InConcatAll(rings: seq<seq<Pos>>)
    ensures forall p :: p in Concat(rings) <==> exists i :: 0 <= i < |rings| && p in rings[i]
  {
    forall p ensures p in Concat(rings) <==> exists i :: 0 <= i < |rings| && p in rings[i] {
      InConcat(rings, p);
    }
  }

  /** `b` contains `p`, edges included. */
  predicate ContainsPos(b: BBox, p: Pos)
  {
    b.minX <= p.x <= b.maxX && b.minY <= p.y <= b.maxY
  }

  /** `b` is the smallest box around `ps`: it contains them all and each edge touches one of them. */
  ghost predicate IsBoundingBox(b: BBox, ps: seq<Pos>)
  {
    && (forall p :: p in ps ==> ContainsPos(b, p))
    && (exists p :: p in ps && p.x == b.minX)
    && (exists p :: p in ps && p.y == b.minY)
    && (exists p :: p in ps && p.x == b.maxX)
    && (exists p :: p in ps && p.y == b.maxY)
  }

  /** The bounding box of a list of positions is unique. */
  lemma BoundingBoxUnique(b1: BBox, b2: BBox, ps: seq<Pos>)
    requires IsBoundingBox(b1, ps) && IsBoundingBox(b2, ps)
    ensures b1 == b2
  {
    var p1 :| p1 in ps && p1.x == b1.minX;
    var p2 :| p2 in ps && p2.x == b2.minX;
    assert ContainsPos(b1, p2) && ContainsPos(b2, p1);
    var q1 :| q1 in ps && q1.y == b1.minY;
    var q2 :| q2 in ps && q2.y == b2.minY;
    assert ContainsPos(b1, q2) && ContainsPos(b2, q1);
    var r1 :| r1 in ps && r1.x == b1.maxX;
    var r2 :| r2 in ps && r2.x == b2.maxX;
    assert ContainsPos(b1, r2) && ContainsPos(b2, r1);
    var s1 :| s1 in ps && s1.y == b1.maxY;
    var s2 :| s2 in ps && s2.y == b2.maxY;
    assert ContainsPos(b1, s2) && ContainsPos(b2, s1);
  }

  /**
   * `computeExtent`. The source starts from `[+Infinity, -Infinity]`, so the first
   * value replaces both bounds; its `min === undefined` branch can never be taken
   * and is not modelled.
   */
  method ComputeExtent(values: seq<real>) returns (e: Extent)
    ensures values == [] <==> e.EmptyExtent?
    ensures e.Extent? ==> e.min in values && e.max in values
    ensures e.Extent? ==> forall v :: v in values ==> e.min <= v <= e.max
  {
    e := EmptyExtent;
    for i := 0 to |values|
      invariant i == 0 <==> e.EmptyExtent?
      invariant e.Extent? ==> e.min in values[..i] && e.max in values[..i]
      invariant e.Extent? ==> forall v :: v in values[..i] ==> e.min <= v <= e.max
    {
      var value := values[i];
      if e.EmptyExtent? {
        // +Infinity > value and -Infinity < value
        e := Extent(value, value);
      } else {
        if e.min > value { e := e.(min := value); }
        if e.max < value { e := e.(max := value); }
      }
      assert values[..i + 1] == values[..i] + [value];
    }
    assert values[..|values|] == values;
  }

  /**
   * `computeBbox`. `None` stands for `[+Infinity, +Infinity, -Infinity, -Infinity]`,
   * the result for no positions.
   */
  method ComputeBbox(points: Points) returns (r: Option<BBox>)
    ensures r.None? <==> Flatten(points) == []
    ensures r.Some? ==> IsBoundingBox(r.value, Flatten(points))
  {
    var ps := Flatten(points);
    var xs: seq<real> := [];
    var ys: seq<real> := [];
    for i := 0 to |ps|
      invariant |xs| == i && |ys| == i
      invariant forall k :: 0 <= k < i ==> xs[k] == ps[k].x && ys[k] == ps[k].y
    {
      xs := xs + [ps[i].x];
      ys := ys + [ps[i].y];
    }
    var ex := ComputeExtent(xs);
    var ey := ComputeExtent(ys);
    if ex.EmptyExtent? {
      r := None;
    } else {
      var b := BBox(ex.min, ey.min, ex.max, ey.max);
      forall p | p in ps ensures ContainsPos(b, p) {
        var k :| 0 <= k < |ps| && ps[k] == p;
        assert xs[k] in xs && ys[k] in ys;
      }
      var k1 :| 0 <= k1 < |xs| && xs[k1] == ex.min;
      assert ps[k1] in ps;
      var k2 :| 0 <= k2 < |ys| && ys[k2] == ey.min;
      assert ps[k2] in ps;
      var k3 :| 0 <= k3 < |xs| && xs[k3] == ex.max;
      assert ps[k3] in ps;
      var k4 :| 0 <= k4 < |ys| && ys[k4] == ey.max;
      assert ps[k4] in ps;
      r := Some(b);
    }
  }

  /** `combineBBoxes`: the smallest box around both boxes. */
  function CombineBBoxes(b1: BBox, b2: BBox): (r: BBox)
    ensures r.minX <= b1.minX && r.minX <= b2.minX && (r.minX == b1.minX || r.minX == b2.minX)
    ensures r.minY <= b1.minY && r.minY <= b2.minY && (r.minY == b1.minY || r.minY == b2.minY)
    ensures r.maxX >= b1.maxX && r.maxX >= b2.maxX && (r.maxX == b1.maxX || r.maxX == b2.maxX)
    ensures r.maxY >= b1.maxY && r.maxY >= b2.maxY && (r.maxY == b1.maxY || r.maxY == b2.maxY)
  {
    BBox(Min(b1.minX, b2.minX), Min(b1.minY, b2.minY), Max(b1.maxX, b2.maxX), Max(b1.maxY, b2.maxY))
  }

  function Min(a: real, b: real): real { if a <= b then a else b }
  function Max(a: real, b: real): real { if a >= b then a else b }

  /** Every position inside either box is inside their combination. */
  lemma CombineBBoxesContains(b1: BBox, b2: BBox, p: Pos)
    requires ContainsPos(b1, p) || ContainsPos(b2, p)
    ensures ContainsPos(CombineBBoxes(b1, b2), p)
  {
  }

  /** Combining is commutative and idempotent. */
  lemma CombineBBoxesLaws(b1: BBox, b2: BBox, b3: BBox)
    ensures CombineBBoxes(b1, b2) == CombineBBoxes(b2, b1)
    ensures CombineBBoxes(b1, b1) == b1
    ensures CombineBBoxes(CombineBBoxes(b1, b2), b3) == CombineBBoxes(b1, CombineBBoxes(b2, b3))
  {
  }

  /** `bboxToPolygon`: one ring with the four corners of the box. */
  function BboxToPolygon(b: BBox): (r: seq<seq<Pos>>)
    ensures |r| == 1 && |r[0]| == 4
    ensures r[0][0] == Pos(b.minX, b.minY) && r[0][2] == Pos(b.maxX, b.maxY)
    ensures r[0][1] == Pos(b.maxX, b.minY) && r[0][3] == Pos(b.minX, b.maxY)
  {
    [[Pos(b.minX, b.minY), Pos(b.maxX, b.minY), Pos(b.maxX, b.maxY), Pos(b.minX, b.maxY)]]
  }

  /** A well-ordered box is the bounding box of its own polygon. */
  lemma BboxToPolygonBounds(b: BBox)
    requires b.minX <= b.maxX && b.minY <= b.maxY
    ensures IsBoundingBox(b, BboxToPolygon(b)[0])
    ensures Flatten(Polygon(BboxToPolygon(b))) == BboxToPolygon(b)[0]
  {
    var ring := BboxToPolygon(b)[0];
    assert ring[0] in ring && ring[2] in ring;
    assert Concat(BboxToPolygon(b)) == Concat([]) + ring;
  }

  /** So `computeBbox(bboxToPolygon(b))` gives `b` back. */
  method BboxRoundTrip(b: BBox) returns (r: Option<BBox>)
    requires b.minX <= b.maxX && b.minY <= b.maxY
    ensures r == Some(b)
  {
    r := ComputeBbox(Polygon(BboxToPolygon(b)));
    BboxToPolygonBounds(b);
    BoundingBoxUnique(r.value, b, BboxToPolygon(b)[0]);
  }
}
