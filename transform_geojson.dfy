/**
 * The older GeoJSON entry points of the transform package, with their own option
 * defaults and length checks: packages/transform/src/shared/geojson.ts. Their
 * `pointsToSegments` and `segmentsToPoints` are those of `TransformHelpers`; a
 * `Gcp` pairs a `resource` position (its `source`) with a `geo` position (its
 * `destination`).
 */
module TransformGeojson {
  import opened Geometry
  import opened Wrappers
  import opened TransformHelpers

  const LineTooShort: string := "Line should contain at least 2 points"
  const PolygonTooShort: string := "Polygon should contain at least 3 points"
  const LineStringTooShort: string := "LineString should contain at least 2 points"
  const GeoPolygonTooShort: string := "Polygon should contain at least 4 points"
  const RingTooShort: string := "Ring should contain at least 3 points"

  datatype GeoOptions = GeoOptions(close: bool, maxOffsetRatio: real, maxDepth: int)

  /** What `mergeDefaultOptions` returns here: unlike the helper version, `close` can be overridden. */
  function MergedGeoOptions(options: Option<PartialOptions>): GeoOptions
  {
    if options.None? then GeoOptions(false, 0.0, 0)
    else GeoOptions(
      GivenOr(options.value.close, false),
      GivenOr(options.value.maxOffsetRatio, 0.0),
      GivenOr(options.value.maxDepth, 0))
  }

  /** `mergeDefaultOptions`: `close`, `maxOffsetRatio` and `maxDepth` default to false, 0 and 0. */
  method MergeDefaultOptions(options: Option<PartialOptions>) returns (merged: GeoOptions)
    ensures merged == MergedGeoOptions(options)
    ensures options.None? ==> merged == GeoOptions(false, 0.0, 0)
    ensures options.Some? ==>
      && (options.value.close.None? ==> !merged.close)
      && (options.value.close.Some? ==> merged.close == options.value.close.value)
      && (options.value.maxDepth.None? ==> merged.maxDepth == 0)
      && (options.value.maxDepth.Some? ==> merged.maxDepth == options.value.maxDepth.value)
      && (options.value.maxOffsetRatio.None? ==> merged.maxOffsetRatio == 0.0)
      && (options.value.maxOffsetRatio.Some? ==> merged.maxOffsetRatio == options.value.maxOffsetRatio.value)
  {
    merged := GeoOptions(false, 0.0, 0);
    if options.Some? && options.value.close.Some? {
      merged := merged.(close := options.value.close.value);
    }
    if options.Some? && options.value.maxDepth.Some? {
      merged := merged.(maxDepth := options.value.maxDepth.value);
    }
    if options.Some? && options.value.maxOffsetRatio.Some? {
      merged := merged.(maxOffsetRatio := options.value.maxOffsetRatio.value);
    }
  }

  /**
   * The four refinements of this file. `world` is the great-circle midpoint and distance.
   *  - `addWorldMidpointsOld`: resource midpoint to geo, compared with great-circle measures;
   *  - `addResourceMidpointsOld`: great-circle geo midpoint back to resource, compared in the plane;
   *  - `addGeoMidPosition` and `addResourceMidPosition`: the same two, planar throughout.
   */
  datatype Variant = WorldMidpointsOld | ResourceMidpointsOld | GeoMidPosition | ResourceMidPosition

  function VariantDirection(v: Variant): Direction
  {
    if v.WorldMidpointsOld? || v.GeoMidPosition? then Forward else Backward
  }

  function VariantRefinement(v: Variant, t: Transformer, world: Metric, opts: GeoOptions): Refinement
  {
    match v
    case WorldMidpointsOld => Refinement(t.forward, MidPosition, world, opts.maxOffsetRatio, opts.maxDepth)
    case ResourceMidpointsOld => Refinement(t.backward, world.mid, Planar(), opts.maxOffsetRatio, opts.maxDepth)
    case GeoMidPosition => Refinement(t.forward, MidPosition, Planar(), opts.maxOffsetRatio, opts.maxDepth)
    case ResourceMidPosition => Refinement(t.backward, MidPosition, Planar(), opts.maxOffsetRatio, opts.maxDepth)
  }

  /** `recursivelyAdd…` of this file: the segments unchanged unless depth and ratio are positive. */
  function RecursivelyAdd(v: Variant, t: Transformer, world: Metric, opts: GeoOptions, segments: seq<Segment>): (r: seq<Segment>)
    ensures opts.maxDepth <= 0 || opts.maxOffsetRatio <= 0.0 ==> r == segments
    ensures |segments| <= |r| <= |segments| * Pow2(Budget(opts.maxDepth, 0))
    ensures Chained(segments) && segments != [] ==> SameEnds(segments, r)
  {
    RecursivelyAddMidpoints(VariantRefinement(v, t, world, opts), VariantDirection(v), segments)
  }

  /** `[segments[0].from.x, ...segments.map((segment) => segment.to.x)]`. */
  function ReadBack(dir: Direction, segments: seq<Segment>): seq<Pos>
    requires segments != []
  {
    [Derived(dir, segments[0].from)] + seq(|segments|, i requires 0 <= i < |segments| => Derived(dir, segments[i].to))
  }

  /** On a chain of segments that read-back is `segmentsToPoints(segments, true)`. */
  lemma ReadBackOfChain(dir: Direction, segments: seq<Segment>)
    requires segments != [] && Chained(segments)
    ensures ReadBack(dir, segments) == DerivedPositions(dir, PointsOf(segments, true))
  {
    var a := ReadBack(dir, segments);
    var b := DerivedPositions(dir, PointsOf(segments, true));
    assert |a| == |b|;
    forall i | 0 <= i < |a|
      ensures a[i] == b[i]
    {
      if 0 < i < |segments| {
        assert segments[i - 1].to == segments[i].from;
      }
    }
  }

  /**
   * The coordinates an entry point builds from `positions`: `GcpsOf` pairs each with its
   * transform, the segments are refined, and the derived positions are read back.
   */
  function Refined(v: Variant, t: Transformer, world: Metric, opts: GeoOptions, positions: seq<Pos>, close: bool): seq<Segment>
  {
    RecursivelyAdd(v, t, world, opts, Segments(GcpsOf(t, VariantDirection(v), positions), close))
  }

  function EntryPoints(v: Variant, t: Transformer, world: Metric, opts: GeoOptions, positions: seq<Pos>, close: bool): (r: seq<Pos>)
    requires |positions| >= 2
  {
    SegmentsChained(GcpsOf(t, VariantDirection(v), positions), close);
    ReadBack(VariantDirection(v), Refined(v, t, world, opts, positions, close))
  }

  /**
   * What an open read-back `r` of `positions` under transform `f` keeps: at most
   * `2^maxDepth` points per segment, the transformed two ends, and, unrefined, exactly
   * the transformed positions.
   */
  predicate OpenReadBack(f: Pos -> Pos, positions: seq<Pos>, opts: GeoOptions, r: seq<Pos>)
    requires |positions| >= 2
  {
    && |positions| <= |r| <= (|positions| - 1) * Pow2(Budget(opts.maxDepth, 0)) + 1
    && r[0] == f(positions[0]) && r[|r| - 1] == f(positions[|positions| - 1])
    && (opts.maxDepth <= 0 || opts.maxOffsetRatio <= 0.0 ==> r == MapPositions(f, positions))
  }

  /**
   * What a closed read-back `r` keeps: one more point than the ring at least, the ring
   * closed on the transformed first position, and, unrefined, exactly the transformed
   * ring followed by its first point.
   */
  predicate ClosedReadBack(f: Pos -> Pos, positions: seq<Pos>, opts: GeoOptions, r: seq<Pos>)
    requires |positions| >= 2
  {
    && |positions| + 1 <= |r| <= |positions| * Pow2(Budget(opts.maxDepth, 0)) + 1
    && r[0] == f(positions[0]) && r[|r| - 1] == r[0]
    && (opts.maxDepth <= 0 || opts.maxOffsetRatio <= 0.0 ==> r == MapPositions(f, positions) + [f(positions[0])])
  }

  /** What every read-back line keeps: its ends, and unrefined, the transformed positions. */
  lemma EntryPointsOpen(v: Variant, t: Transformer, world: Metric, opts: GeoOptions, positions: seq<Pos>)
    requires |positions| >= 2
    ensures OpenReadBack(TransformOf(t, VariantDirection(v)), positions, opts, EntryPoints(v, t, world, opts, positions, false))
  {
    var dir := VariantDirection(v);
    var points := GcpsOf(t, dir, positions);
    var rf := VariantRefinement(v, t, world, opts);
    SegmentsChained(points, false);
    var extended := Refined(v, t, world, opts, positions, false);
    ReadBackOfChain(dir, extended);
    RefinedLine(rf, dir, points);
    DerivedOfGcps(t, dir, positions);
  }

  /** Closed segment `k` ends at the next point, the last one at the first point. */
  lemma ClosedSegmentEnd(points: seq<Gcp>, k: int)
    requires 0 <= k < |points|
    ensures Segments(points, true)[k].to == if k + 1 < |points| then points[k + 1] else points[0]
  {
    assert Segments(points, true)[k].to == points[Next(k, |points|)];
  }

  /** Read back without refinement, closed segments give the points followed by the first one. */
  lemma ReadBackOfClosedSegments(dir: Direction, points: seq<Gcp>)
    requires points != []
    ensures ReadBack(dir, Segments(points, true)) == DerivedPositions(dir, points) + [Derived(dir, points[0])]
  {
    var segments := Segments(points, true);
    var a := ReadBack(dir, segments);
    var b := DerivedPositions(dir, points) + [Derived(dir, points[0])];
    assert |a| == |b|;
    forall i | 0 < i < |a|
      ensures a[i] == b[i]
    {
      assert a[i] == Derived(dir, segments[i - 1].to);
      ClosedSegmentEnd(points, i - 1);
    }
    assert a[0] == b[0];
  }

  /** The size and the ends of a closed read-back ring. */
  lemma ClosedRingEnds(v: Variant, t: Transformer, world: Metric, opts: GeoOptions, positions: seq<Pos>)
    requires |positions| >= 2
    ensures var r := EntryPoints(v, t, world, opts, positions, true);
      && |positions| + 1 <= |r| <= |positions| * Pow2(Budget(opts.maxDepth, 0)) + 1
      && r[0] == TransformOf(t, VariantDirection(v))(positions[0]) && r[|r| - 1] == r[0]
  {
    var dir := VariantDirection(v);
    var points := GcpsOf(t, dir, positions);
    var segments := Segments(points, true);
    SegmentsChained(points, true);
    var extended := Refined(v, t, world, opts, positions, true);
    assert SameEnds(segments, extended);
    var r := ReadBack(dir, extended);
    assert r == EntryPoints(v, t, world, opts, positions, true);
    ReadBackEnds(dir, extended);
    assert segments[0].from == points[0];
    assert extended[0].from == extended[|extended| - 1].to;
  }

  lemma ReadBackEnds(dir: Direction, segments: seq<Segment>)
    requires segments != []
    ensures var r := ReadBack(dir, segments);
      && |r| == |segments| + 1
      && r[0] == Derived(dir, segments[0].from)
      && r[|r| - 1] == Derived(dir, segments[|segments| - 1].to)
  {
  }

  /** Unrefined, a closed read-back ring is the transformed ring plus its first point. */
  lemma ClosedRingUnrefined(v: Variant, t: Transformer, world: Metric, opts: GeoOptions, positions: seq<Pos>)
    requires |positions| >= 2 && (opts.maxDepth <= 0 || opts.maxOffsetRatio <= 0.0)
    ensures var f := TransformOf(t, VariantDirection(v));
      EntryPoints(v, t, world, opts, positions, true) == MapPositions(f, positions) + [f(positions[0])]
  {
    var dir := VariantDirection(v);
    var points := GcpsOf(t, dir, positions);
    SegmentsChained(points, true);
    assert Refined(v, t, world, opts, positions, true) == Segments(points, true);
    ReadBackOfClosedSegments(dir, points);
    DerivedOfGcps(t, dir, positions);
    assert Derived(dir, points[0]) == TransformOf(t, dir)(positions[0]);
  }

  /** A closed read-back ring ends where it starts; unrefined it is the transformed ring plus its first point. */
  lemma EntryPointsClosed(v: Variant, t: Transformer, world: Metric, opts: GeoOptions, positions: seq<Pos>)
    requires |positions| >= 2
    ensures ClosedReadBack(TransformOf(t, VariantDirection(v)), positions, opts, EntryPoints(v, t, world, opts, positions, true))
  {
    ClosedRingEnds(v, t, world, opts, positions);
    if opts.maxDepth <= 0 || opts.maxOffsetRatio <= 0.0 {
      ClosedRingUnrefined(v, t, world, opts, positions);
    }
  }

  /** `toGeoJSONLineString`: at least two points, refined towards geo with great-circle measures. */
  function ToGeoJsonLineString(t: Transformer, world: Metric, points: seq<Pos>, options: Option<PartialOptions>): (r: Result<seq<Pos>>)
    ensures r.Failure? <==> |points| < 2
    ensures r.Failure? ==> r.error == LineTooShort
    ensures r.Success? ==> |points| >= 2 && OpenReadBack(t.forward, points, MergedGeoOptions(options), r.value)
  {
    if |points| < 2 then Failure(LineTooShort)
    else
      var opts := MergedGeoOptions(options);
      EntryPointsOpen(WorldMidpointsOld, t, world, opts, points);
      assert TransformOf(t, VariantDirection(WorldMidpointsOld)) == t.forward;
      Success(EntryPoints(WorldMidpointsOld, t, world, opts, points, false))
  }

  /**
   * `toGeoJSONPolygon` before its ring is rewound: at least three points, cut into closed
   * segments and read back closed, so the ring ends where it starts.
   */
  function ToGeoJsonPolygon(t: Transformer, world: Metric, points: seq<Pos>, options: Option<PartialOptions>): (r: Result<seq<Pos>>)
    ensures r.Failure? <==> |points| < 3
    ensures r.Failure? ==> r.error == PolygonTooShort
    ensures r.Success? ==> |points| >= 3 && ClosedReadBack(t.forward, points, MergedGeoOptions(options), r.value)
  {
    if |points| < 3 then Failure(PolygonTooShort)
    else
      var opts := MergedGeoOptions(options);
      EntryPointsClosed(WorldMidpointsOld, t, world, opts, points);
      assert TransformOf(t, VariantDirection(WorldMidpointsOld)) == t.forward;
      Success(EntryPoints(WorldMidpointsOld, t, world, opts, points, true))
  }

  /** `fromGeoJSONLineString`: at least two coordinates, refined back to resource. */
  function FromGeoJsonLineString(t: Transformer, world: Metric, coordinates: seq<Pos>, options: Option<PartialOptions>): (r: Result<seq<Pos>>)
    ensures r.Failure? <==> |coordinates| < 2
    ensures r.Failure? ==> r.error == LineStringTooShort
    ensures r.Success? ==> |coordinates| >= 2 && OpenReadBack(t.backward, coordinates, MergedGeoOptions(options), r.value)
  {
    if |coordinates| < 2 then Failure(LineStringTooShort)
    else
      var opts := MergedGeoOptions(options);
      EntryPointsOpen(ResourceMidpointsOld, t, world, opts, coordinates);
      assert TransformOf(t, VariantDirection(ResourceMidpointsOld)) == t.backward;
      Success(EntryPoints(ResourceMidpointsOld, t, world, opts, coordinates, false))
  }

  /**
   * `fromGeoJSONPolygon`: the outer ring, already closed in GeoJSON, needs four
   * coordinates; it is cut into open segments, so a closed ring comes back closed.
   */
  function FromGeoJsonPolygon(t: Transformer, world: Metric, polygon: seq<seq<Pos>>, options: Option<PartialOptions>): (r: Result<seq<Pos>>)
    ensures r.Failure? <==> |polygon| == 0 || |polygon[0]| < 4
    ensures r.Failure? ==> r.error == GeoPolygonTooShort
    ensures r.Success? ==>
      && |polygon| > 0 && |polygon[0]| >= 4
      && OpenReadBack(t.backward, polygon[0], MergedGeoOptions(options), r.value)
      && (polygon[0][0] == polygon[0][|polygon[0]| - 1] ==> r.value[|r.value| - 1] == r.value[0])
  {
    if |polygon| == 0 || |polygon[0]| < 4 then Failure(GeoPolygonTooShort)
    else
      var opts := MergedGeoOptions(options);
      EntryPointsOpen(ResourceMidpointsOld, t, world, opts, polygon[0]);
      assert TransformOf(t, VariantDirection(ResourceMidpointsOld)) == t.backward;
      Success(EntryPoints(ResourceMidpointsOld, t, world, opts, polygon[0], false))
  }

  /** The ring entry points: closed segments read back open, so the ring is not closed again. */
  function RingEntry(v: Variant, t: Transformer, world: Metric, opts: GeoOptions, ring: seq<Pos>): (r: seq<Pos>)
    ensures var f := TransformOf(t, VariantDirection(v));
      && |ring| <= |r| <= |ring| * Pow2(Budget(opts.maxDepth, 0))
      && (ring != [] ==> r[0] == f(ring[0]))
      && (opts.maxDepth <= 0 || opts.maxOffsetRatio <= 0.0 ==> r == MapPositions(f, ring))
  {
    var dir := VariantDirection(v);
    var points := GcpsOf(t, dir, ring);
    RefinedRing(VariantRefinement(v, t, world, opts), dir, points);
    DerivedOfGcps(t, dir, ring);
    DerivedPositions(dir, PointsOf(Refined(v, t, world, opts, ring, true), false))
  }

  /** `transformRingToGeo`: at least three points, refined towards geo in the plane. */
  function TransformRingToGeo(t: Transformer, world: Metric, ring: seq<Pos>, options: Option<PartialOptions>): (r: Result<seq<Pos>>)
    ensures r.Failure? <==> |ring| < 3
    ensures r.Failure? ==> r.error == PolygonTooShort
    ensures r.Success? ==>
      var opts := MergedGeoOptions(options);
      && |ring| <= |r.value| <= |ring| * Pow2(Budget(opts.maxDepth, 0))
      && r.value[0] == t.forward(ring[0])
      && (opts.maxDepth <= 0 || opts.maxOffsetRatio <= 0.0 ==> r.value == MapPositions(t.forward, ring))
  {
    if |ring| < 3 then Failure(PolygonTooShort)
    else Success(RingEntry(GeoMidPosition, t, world, MergedGeoOptions(options), ring))
  }

  /** `transformRingToResource`: at least three points, refined back to resource in the plane. */
  function TransformRingToResource(t: Transformer, world: Metric, ring: seq<Pos>, options: Option<PartialOptions>): (r: Result<seq<Pos>>)
    ensures r.Failure? <==> |ring| < 3
    ensures r.Failure? ==> r.error == RingTooShort
    ensures r.Success? ==>
      var opts := MergedGeoOptions(options);
      && |ring| <= |r.value| <= |ring| * Pow2(Budget(opts.maxDepth, 0))
      && r.value[0] == t.backward(ring[0])
      && (opts.maxDepth <= 0 || opts.maxOffsetRatio <= 0.0 ==> r.value == MapPositions(t.backward, ring))
  {
    if |ring| < 3 then Failure(RingTooShort)
    else Success(RingEntry(ResourceMidPosition, t, world, MergedGeoOptions(options), ring))
  }
}
