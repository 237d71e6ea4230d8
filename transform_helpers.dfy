/**
 * Adaptive refinement of transformed lines and rings:
 * packages/transform/src/shared/transform-helper-functions.ts.
 *
 * A line or ring becomes a list of segments between ground control points
 * (`Gcp`s, a source position paired with its destination position). Each segment
 * is bisected, recursively, while the transformed midpoint lies too far from the
 * naive midpoint of the segment, relative to the segment's length; the points are
 * then read back off the segments.
 */
module TransformHelpers {
  import opened Geometry
  import opened Wrappers

  datatype Gcp = Gcp(source: Pos, destination: Pos)
  datatype Segment = Segment(from: Gcp, to: Gcp)

  /** `transformForward` and `transformBackward` of the transformer, which is not part of this model. */
  datatype Transformer = Transformer(forward: Pos -> Pos, backward: Pos -> Pos)

  /** The optional fields of `PartialTransformOptions`; an absent options object is `None`. */
  datatype PartialOptions = PartialOptions(
    close: Option<bool>,
    maxOffsetRatio: Option<real>,
    maxDepth: Option<int>,
    destinationIsGeographic: Option<bool>,
    sourceIsGeographic: Option<bool>)

  datatype Options = Options(
    close: bool,
    maxOffsetRatio: real,
    maxDepth: int,
    destinationIsGeographic: bool,
    sourceIsGeographic: bool)

  /** The value of an optional field of an optional options object, or the default. */
  function GivenOr<T>(field: Option<T>, default: T): T
  {
    if field.Some? then field.value else default
  }

  /** What `mergeDefaultOptions` returns: it never looks at `close`. */
  function MergedOptions(options: Option<PartialOptions>): Options
  {
    if options.None? then Options(false, 0.0, 0, false, false)
    else Options(
      false,
      GivenOr(options.value.maxOffsetRatio, 0.0),
      GivenOr(options.value.maxDepth, 0),
      GivenOr(options.value.destinationIsGeographic, false),
      GivenOr(options.value.sourceIsGeographic, false))
  }

  /** `mergeDefaultOptions`: defaults overridden field by field, `close` never. */
  method MergeDefaultOptions(options: Option<PartialOptions>) returns (merged: Options)
    ensures merged == MergedOptions(options)
    ensures !merged.close
    ensures options.None? ==> merged == Options(false, 0.0, 0, false, false)
    ensures options.Some? ==>
      && (options.value.maxDepth.None? ==> merged.maxDepth == 0)
      && (options.value.maxDepth.Some? ==> merged.maxDepth == options.value.maxDepth.value)
      && (options.value.maxOffsetRatio.None? ==> merged.maxOffsetRatio == 0.0)
      && (options.value.maxOffsetRatio.Some? ==> merged.maxOffsetRatio == options.value.maxOffsetRatio.value)
      && (options.value.destinationIsGeographic.None? ==> !merged.destinationIsGeographic)
      && (options.value.destinationIsGeographic.Some? ==>
            merged.destinationIsGeographic == options.value.destinationIsGeographic.value)
      && (options.value.sourceIsGeographic.None? ==> !merged.sourceIsGeographic)
      && (options.value.sourceIsGeographic.Some? ==>
            merged.sourceIsGeographic == options.value.sourceIsGeographic.value)
  {
    merged := Options(false, 0.0, 0, false, false);
    if options.Some? && options.value.maxDepth.Some? {
      merged := merged.(maxDepth := options.value.maxDepth.value);
    }
    if options.Some? && options.value.maxOffsetRatio.Some? {
      merged := merged.(maxOffsetRatio := options.value.maxOffsetRatio.value);
    }
    if options.Some? && options.value.destinationIsGeographic.Some? {
      merged := merged.(destinationIsGeographic := options.value.destinationIsGeographic.value);
    }
    if options.Some? && options.value.sourceIsGeographic.Some? {
      merged := merged.(sourceIsGeographic := options.value.sourceIsGeographic.value);
    }
  }

  // ---------------------------------------------------------------------------
  // Points and segments

  /** `points.length - (close ? 0 : 1)`, where a negative count makes no segments. */
  function SegmentCount(n: nat, close: bool): nat
  {
    if close then n else if n == 0 then 0 else n - 1
  }

  /** The index after `i` in a ring of `n` points: `(i + 1) % n`. */
  function Next(i: int, n: int): (j: int)
    requires 0 <= i < n
    ensures 0 <= j < n && j == (i + 1) % n
  {
    if i + 1 < n then i + 1 else 0
  }

  /** The segments `pointsToSegments` pushes. */
  function Segments(points: seq<Gcp>, close: bool): seq<Segment>
  {
    seq(SegmentCount(|points|, close), i requires 0 <= i < SegmentCount(|points|, close) =>
      Segment(points[i], points[Next(i, |points|)]))
  }

  /** `pointsToSegments`: segment `i` runs from point `i` to point `i + 1`, wrapping round when closed. */
  method PointsToSegments(points: seq<Gcp>, close: bool) returns (segments: seq<Segment>)
    ensures |segments| == (if close then |points| else if points == [] then 0 else |points| - 1)
    ensures forall i :: 0 <= i < |segments| ==>
      segments[i].from == points[i] && segments[i].to == points[Next(i, |points|)]
    ensures segments == Segments(points, close)
  {
    var segmentCount := SegmentCount(|points|, close);
    segments := [];
    for index := 0 to segmentCount
      invariant |segments| == index
      invariant forall i :: 0 <= i < index ==> segments[i] == Segment(points[i], points[Next(i, |points|)])
    {
      segments := segments + [Segment(points[index], points[Next(index, |points|)])];
    }
  }

  /** The points `segmentsToPoints` returns. */
  function PointsOf(segments: seq<Segment>, close: bool): seq<Gcp>
    requires close ==> |segments| > 0
  {
    seq(|segments|, i requires 0 <= i < |segments| => segments[i].from)
    + (if close then [segments[|segments| - 1].to] else [])
  }

  /** `segmentsToPoints`: the start of every segment, then the end of the last one when closing. */
  method SegmentsToPoints(segments: seq<Segment>, close: bool) returns (points: seq<Gcp>)
    requires close ==> |segments| > 0
    ensures |points| == |segments| + (if close then 1 else 0)
    ensures forall i :: 0 <= i < |segments| ==> points[i] == segments[i].from
    ensures close ==> points[|segments|] == segments[|segments| - 1].to
    ensures points == PointsOf(segments, close)
  {
    points := seq(|segments|, i requires 0 <= i < |segments| => segments[i].from);
    if close {
      points := points + [segments[|segments| - 1].to];
    }
  }

  /** Each segment ends where the next one starts. */
  predicate Chained(segments: seq<Segment>)
  {
    forall i :: 0 <= i < |segments| - 1 ==> segments[i].to == segments[i + 1].from
  }

  /** Segments made from points are chained; closed ones also end where they start. */
  lemma SegmentsChained(points: seq<Gcp>, close: bool)
    ensures Chained(Segments(points, close))
    ensures close && points != [] ==>
      Segments(points, close)[|points| - 1].to == Segments(points, close)[0].from
  {
    var segments := Segments(points, close);
    forall i | 0 <= i < |segments| - 1
      ensures segments[i].to == segments[i + 1].from
    {
      assert Next(i, |points|) == i + 1;
    }
  }

  /** Rings: `segmentsToPoints(pointsToSegments(p, true), false) == p`, so a ring is not closed again. */
  lemma RingRoundTrip(points: seq<Gcp>)
    ensures PointsOf(Segments(points, true), false) == points
  {
  }

  /** Lines: `segmentsToPoints(pointsToSegments(p, false), true) == p` once there are two points. */
  lemma LineRoundTrip(points: seq<Gcp>)
    requires |points| >= 2
    ensures |Segments(points, false)| > 0
    ensures PointsOf(Segments(points, false), true) == points
  {
    var segments := Segments(points, false);
    var back := PointsOf(segments, true);
    assert |back| == |points|;
    forall i | 0 <= i < |points|
      ensures back[i] == points[i]
    {
      if i == |points| - 1 {
        assert Next(|points| - 2, |points|) == |points| - 1;
      }
    }
  }

  // ---------------------------------------------------------------------------
  // Refinement of one segment

  /**
   * The comparison `maxOffsetRatio ? offset / length > maxOffsetRatio : false`, given
   * the squares of the offset and of the length (see `OffsetExceedsExact`).
   */
  predicate OffsetExceeds(maxOffsetRatio: real, sqOffset: real, sqLength: real)
  {
    if maxOffsetRatio == 0.0 then false
    else if maxOffsetRatio < 0.0 then true
    else sqOffset > maxOffsetRatio * maxOffsetRatio * sqLength
  }

  lemma SquareMonotone(a: real, b: real)
    requires a >= 0.0 && b >= 0.0
    ensures a > b <==> a * a > b * b
  {
    if a > b {
      assert a * a - b * b == (a - b) * (a + b);
      ProductPositive(a - b, a + b);
    } else {
      assert b * b >= b * a >= a * a;
    }
  }

  lemma ProductPositive(x: real, y: real)
    requires x > 0.0 && y > 0.0
    ensures x * y > 0.0
  {
  }

  /** On non-negative distances with a positive length, the squared test is the source's comparison. */
  lemma OffsetExceedsExact(maxOffsetRatio: real, offset: real, length: real)
    requires offset >= 0.0 && length > 0.0
    ensures OffsetExceeds(maxOffsetRatio, offset * offset, length * length)
      <==> maxOffsetRatio != 0.0 && offset / length > maxOffsetRatio
  {
    var ratio := offset / length;
    assert offset == ratio * length;
    assert ratio >= 0.0;
    if maxOffsetRatio > 0.0 {
      var bound := maxOffsetRatio * length;
      assert ratio > maxOffsetRatio <==> offset > bound;
      SquareMonotone(offset, bound);
      assert bound * bound == maxOffsetRatio * maxOffsetRatio * (length * length);
    }
  }

  /**
   * One refinement, read in the forward direction: the naive midpoint of the two
   * `source` positions is transformed, and `derived` measures how far that lands from
   * the naive midpoint of the two `destination` positions.
   */
  datatype Refinement = Refinement(
    transform: Pos -> Pos,
    knownMid: (Pos, Pos) -> Pos,
    derived: Metric,
    maxOffsetRatio: real,
    maxDepth: int)

  /** The new point of a split: the naive midpoint and its image. */
  function MidGcp(rf: Refinement, seg: Segment): Gcp
  {
    var mid := rf.knownMid(seg.from.source, seg.to.source);
    Gcp(mid, rf.transform(mid))
  }

  /** The split condition: depth left, offset ratio exceeded, and a segment of positive length. */
  predicate Splits(rf: Refinement, seg: Segment, depth: int)
  {
    var naive := rf.derived.mid(seg.from.destination, seg.to.destination);
    var sqLength := rf.derived.sqDist(seg.from.destination, seg.to.destination);
    var sqOffset := rf.derived.sqDist(naive, MidGcp(rf, seg).destination);
    depth < rf.maxDepth && OffsetExceeds(rf.maxOffsetRatio, sqOffset, sqLength) && sqLength > 0.0
  }

  /** How many more levels a segment at `depth` may be split. */
  function Budget(maxDepth: int, depth: int): nat
  {
    if depth < maxDepth then maxDepth - depth else 0
  }

  function Pow2(n: nat): (p: nat)
    ensures p >= 1
  {
    if n == 0 then 1 else 2 * Pow2(n - 1)
  }

  /** The points where consecutive segments meet. */
  function Joints(segments: seq<Segment>): seq<Gcp>
  {
    if segments == [] then [] else seq(|segments| - 1, i requires 0 <= i < |segments| - 1 => segments[i].to)
  }

  lemma ChainedConcat(a: seq<Segment>, b: seq<Segment>)
    requires Chained(a) && Chained(b) && a != [] && b != []
    requires a[|a| - 1].to == b[0].from
    ensures Chained(a + b)
  {
    var c := a + b;
    forall i | 0 <= i < |c| - 1
      ensures c[i].to == c[i + 1].from
    {
      if i < |a| - 1 {
        assert c[i] == a[i] && c[i + 1] == a[i + 1];
      } else if i == |a| - 1 {
        assert c[i] == a[i] && c[i + 1] == b[0];
      } else {
        assert c[i] == b[i - |a|] && c[i + 1] == b[i - |a| + 1];
      }
    }
  }

  /**
   * `addMidpointWithDestinationMidPositionFromTransform`, forward: a segment comes back
   * unchanged unless it splits, in which case both halves are refined one level deeper.
   */
  function AddMidpoint(rf: Refinement, seg: Segment, depth: int): (r: seq<Segment>)
    decreases Budget(rf.maxDepth, depth)
    ensures 1 <= |r| <= Pow2(Budget(rf.maxDepth, depth))
    ensures r[0].from == seg.from && r[|r| - 1].to == seg.to && Chained(r)
    ensures !Splits(rf, seg, depth) ==> r == [seg]
    ensures Splits(rf, seg, depth) ==> 2 <= |r| && MidGcp(rf, seg) in Joints(r)
    ensures forall i :: 0 <= i < |r| - 1 ==> r[i].to.destination == rf.transform(r[i].to.source)
  {
    if Splits(rf, seg, depth) then
      var mid := MidGcp(rf, seg);
      var left := AddMidpoint(rf, Segment(seg.from, mid), depth + 1);
      var right := AddMidpoint(rf, Segment(mid, seg.to), depth + 1);
      ChainedConcat(left, right);
      var r := left + right;
      assert Pow2(Budget(rf.maxDepth, depth)) == 2 * Pow2(Budget(rf.maxDepth, depth + 1));
      assert r[0] == left[0] && r[|r| - 1] == right[|right| - 1];
      assert r[|left| - 1] == left[|left| - 1];
      assert Joints(r)[|left| - 1] == mid;
      assert forall i :: 0 <= i < |r| - 1 ==> r[i].to.destination == rf.transform(r[i].to.source) by {
        forall i | 0 <= i < |r| - 1
          ensures r[i].to.destination == rf.transform(r[i].to.source)
        {
          if i < |left| - 1 {
            assert r[i] == left[i];
          } else if i == |left| - 1 {
            assert r[i].to == mid;
          } else {
            assert r[i] == right[i - |left|];
          }
        }
      }
      r
    else
      [seg]
  }

  // ---------------------------------------------------------------------------
  // Backward refinement, the mirror image of the forward one

  function SwapGcp(g: Gcp): Gcp
  {
    Gcp(g.destination, g.source)
  }

  function SwapSegment(s: Segment): Segment
  {
    Segment(SwapGcp(s.from), SwapGcp(s.to))
  }

  function SwapSegments(segments: seq<Segment>): (r: seq<Segment>)
    ensures |r| == |segments|
    ensures forall i :: 0 <= i < |segments| ==> r[i] == SwapSegment(segments[i])
  {
    seq(|segments|, i requires 0 <= i < |segments| => SwapSegment(segments[i]))
  }

  /** Which way a refinement runs: forward (midpoints from `source`) or backward (from `destination`). */
  datatype Direction = Forward | Backward

  /** The side the naive midpoint is transformed from. */
  function Known(dir: Direction, g: Gcp): Pos
  {
    if dir.Forward? then g.source else g.destination
  }

  /** The side the transform produces. */
  function Derived(dir: Direction, g: Gcp): Pos
  {
    if dir.Forward? then g.destination else g.source
  }

  /** A point whose derived position is the transform of its known one. */
  predicate Consistent(rf: Refinement, dir: Direction, g: Gcp)
  {
    Derived(dir, g) == rf.transform(Known(dir, g))
  }

  /** The segment as the forward refinement reads it. */
  function Oriented(dir: Direction, seg: Segment): Segment
  {
    if dir.Forward? then seg else SwapSegment(seg)
  }

  /** The point a split of `seg` adds, in the segment's own orientation. */
  function NewPoint(rf: Refinement, dir: Direction, seg: Segment): Gcp
  {
    if dir.Forward? then MidGcp(rf, seg) else SwapGcp(MidGcp(rf, SwapSegment(seg)))
  }

  /**
   * `addMidpointWith{Destination,Source}MidPositionFromTransform`. Backward, the midpoint
   * of the destinations is transformed back, and the offset is measured between sources.
   */
  function Refine(rf: Refinement, dir: Direction, seg: Segment, depth: int): (r: seq<Segment>)
    ensures 1 <= |r| <= Pow2(Budget(rf.maxDepth, depth))
    ensures r[0].from == seg.from && r[|r| - 1].to == seg.to && Chained(r)
    ensures !Splits(rf, Oriented(dir, seg), depth) ==> r == [seg]
    ensures Splits(rf, Oriented(dir, seg), depth) ==> 2 <= |r| && NewPoint(rf, dir, seg) in Joints(r)
    ensures forall i :: 0 <= i < |r| - 1 ==> Consistent(rf, dir, r[i].to)
  {
    if dir.Forward? then AddMidpoint(rf, seg, depth)
    else
      var fwd := AddMidpoint(rf, SwapSegment(seg), depth);
      var r := SwapSegments(fwd);
      assert Splits(rf, SwapSegment(seg), depth) ==> NewPoint(rf, dir, seg) in Joints(r) by {
        if Splits(rf, SwapSegment(seg), depth) {
          var k :| 0 <= k < |fwd| - 1 && Joints(fwd)[k] == MidGcp(rf, SwapSegment(seg));
          assert Joints(r)[k] == SwapGcp(fwd[k].to);
        }
      }
      assert !Splits(rf, SwapSegment(seg), depth) ==> r == [seg];
      assert Chained(r) by {
        forall i | 0 <= i < |r| - 1
          ensures r[i].to == r[i + 1].from
        {
          assert fwd[i].to == fwd[i + 1].from;
        }
      }
      r
  }

  /**
   * The depth at which each piece of `AddMidpoint(rf, seg, depth)` was left unsplit,
   * following the same recursion.
   */
  function LeafDepths(rf: Refinement, seg: Segment, depth: int): (ds: seq<int>)
    decreases Budget(rf.maxDepth, depth)
    ensures |ds| == |AddMidpoint(rf, seg, depth)|
  {
    if Splits(rf, seg, depth) then
      var mid := MidGcp(rf, seg);
      LeafDepths(rf, Segment(seg.from, mid), depth + 1) + LeafDepths(rf, Segment(mid, seg.to), depth + 1)
    else
      [depth]
  }

  /**
   * The tolerance a refinement guarantees: each piece, read forward, was left unsplit at
   * its own depth `ds[i]`, so it is within `maxOffsetRatio` of its length, has zero length,
   * or was produced at `maxDepth`; and every depth lies in `lo..hi`.
   */
  predicate SettledWithin(rf: Refinement, dir: Direction, pieces: seq<Segment>, ds: seq<int>, lo: int, hi: int)
  {
    && |ds| == |pieces|
    && forall i :: 0 <= i < |pieces| ==> lo <= ds[i] <= hi && !Splits(rf, Oriented(dir, pieces[i]), ds[i])
  }

  /** The tolerance of pieces refined from `depth`: no piece is deeper than `maxDepth` allows. */
  predicate Settled(rf: Refinement, dir: Direction, pieces: seq<Segment>, ds: seq<int>, depth: int)
  {
    SettledWithin(rf, dir, pieces, ds, depth, depth + Budget(rf.maxDepth, depth))
  }

  /** Two settled runs of pieces joined, within the wider of their depth ranges. */
  lemma SettledJoin(rf: Refinement, dir: Direction, a: seq<Segment>, b: seq<Segment>, da: seq<int>, db: seq<int>,
                    lo: int, hi: int, lo': int, hi': int)
    requires SettledWithin(rf, dir, a, da, lo', hi') && SettledWithin(rf, dir, b, db, lo', hi')
    requires lo <= lo' && hi' <= hi
    ensures SettledWithin(rf, dir, a + b, da + db, lo, hi)
  {
    var r, ds := a + b, da + db;
    forall i | 0 <= i < |r|
      ensures lo <= ds[i] <= hi && !Splits(rf, Oriented(dir, r[i]), ds[i])
    {
      if i < |a| {
        assert r[i] == a[i] && ds[i] == da[i];
      } else {
        assert r[i] == b[i - |a|] && ds[i] == db[i - |a|];
      }
    }
  }

  /** Every piece of a forward refinement meets the tolerance at the depth it was left at. */
  lemma {:induction false} AddMidpointSettled(rf: Refinement, seg: Segment, depth: int)
    decreases Budget(rf.maxDepth, depth)
    ensures Settled(rf, Forward, AddMidpoint(rf, seg, depth), LeafDepths(rf, seg, depth), depth)
  {
    if Splits(rf, seg, depth) {
      var mid := MidGcp(rf, seg);
      var sl, sr := Segment(seg.from, mid), Segment(mid, seg.to);
      AddMidpointSettled(rf, sl, depth + 1);
      AddMidpointSettled(rf, sr, depth + 1);
      var left, right := AddMidpoint(rf, sl, depth + 1), AddMidpoint(rf, sr, depth + 1);
      var dl, dr := LeafDepths(rf, sl, depth + 1), LeafDepths(rf, sr, depth + 1);
      assert AddMidpoint(rf, seg, depth) == left + right && LeafDepths(rf, seg, depth) == dl + dr;
      var hi := depth + 1 + Budget(rf.maxDepth, depth + 1);
      assert hi == depth + Budget(rf.maxDepth, depth);
      SettledJoin(rf, Forward, left, right, dl, dr, depth, hi, depth + 1, hi);
    } else {
      assert AddMidpoint(rf, seg, depth) == [seg] && LeafDepths(rf, seg, depth) == [depth];
    }
  }

  /** Every piece of a refinement in either direction meets the tolerance at its own depth. */
  lemma RefineSettled(rf: Refinement, dir: Direction, seg: Segment, depth: int)
    ensures Settled(rf, dir, Refine(rf, dir, seg, depth), LeafDepths(rf, Oriented(dir, seg), depth), depth)
  {
    AddMidpointSettled(rf, Oriented(dir, seg), depth);
    if dir.Backward? {
      var fwd := AddMidpoint(rf, SwapSegment(seg), depth);
      var r := Refine(rf, dir, seg, depth);
      assert r == SwapSegments(fwd);
      forall i | 0 <= i < |r|
        ensures Oriented(dir, r[i]) == fwd[i]
      {
        assert r[i] == SwapSegment(fwd[i]);
      }
    }
  }

  /** The leaf depths of all segments refined from depth 0, in order. */
  function RefineAllDepths(rf: Refinement, dir: Direction, segments: seq<Segment>): (ds: seq<int>)
    ensures |ds| == |RefineAll(rf, dir, segments)|
  {
    if segments == [] then []
    else LeafDepths(rf, Oriented(dir, segments[0]), 0) + RefineAllDepths(rf, dir, segments[1..])
  }

  /** Refining a list of segments leaves every piece within the tolerance. */
  lemma {:induction false} RefineAllSettled(rf: Refinement, dir: Direction, segments: seq<Segment>)
    ensures Settled(rf, dir, RefineAll(rf, dir, segments), RefineAllDepths(rf, dir, segments), 0)
  {
    if segments != [] {
      RefineSettled(rf, dir, segments[0], 0);
      RefineAllSettled(rf, dir, segments[1..]);
      SettledJoin(rf, dir, Refine(rf, dir, segments[0], 0), RefineAll(rf, dir, segments[1..]),
        LeafDepths(rf, Oriented(dir, segments[0]), 0), RefineAllDepths(rf, dir, segments[1..]),
        0, Budget(rf.maxDepth, 0), 0, Budget(rf.maxDepth, 0));
    }
  }

  /** Every point of every segment is consistent with the transform. */
  predicate AllConsistent(rf: Refinement, dir: Direction, segments: seq<Segment>)
  {
    forall i :: 0 <= i < |segments| ==> Consistent(rf, dir, segments[i].from) && Consistent(rf, dir, segments[i].to)
  }

  /** Refining a segment whose ends are consistent adds only consistent points. */
  lemma RefineConsistent(rf: Refinement, dir: Direction, seg: Segment, depth: int)
    requires Consistent(rf, dir, seg.from) && Consistent(rf, dir, seg.to)
    ensures AllConsistent(rf, dir, Refine(rf, dir, seg, depth))
  {
    var r := Refine(rf, dir, seg, depth);
    forall i | 0 <= i < |r|
      ensures Consistent(rf, dir, r[i].from) && Consistent(rf, dir, r[i].to)
    {
      if i > 0 {
        assert r[i - 1].to == r[i].from;
      }
    }
  }

  /** `.map(addMidpoint…).flat(1)` over a list of segments, starting at depth 0. */
  function RefineAll(rf: Refinement, dir: Direction, segments: seq<Segment>): (r: seq<Segment>)
    ensures |segments| <= |r| <= |segments| * Pow2(Budget(rf.maxDepth, 0))
  {
    if segments == [] then []
    else
      var head := Refine(rf, dir, segments[0], 0);
      var tail := RefineAll(rf, dir, segments[1..]);
      var p := Pow2(Budget(rf.maxDepth, 0));
      assert |segments| * p == p + (|segments| - 1) * p;
      head + tail
  }

  lemma ChainedTail(segments: seq<Segment>)
    requires Chained(segments) && |segments| > 1
    ensures Chained(segments[1..]) && segments[0].to == segments[1..][0].from
  {
    forall i | 0 <= i < |segments| - 2
      ensures segments[1..][i].to == segments[1..][i + 1].from
    {
      assert segments[i + 1].to == segments[i + 2].from;
    }
  }

  /** `r` is a chain from where `segments` starts to where it ends. */
  predicate SameEnds(segments: seq<Segment>, r: seq<Segment>)
  {
    Chained(r) && r != [] && segments != [] && r[0].from == segments[0].from && r[|r| - 1].to == segments[|segments| - 1].to
  }

  /** A chain for one segment followed by a chain for the segments after it is a chain for all of them. */
  lemma SameEndsJoin(first: Segment, rest: seq<Segment>, head: seq<Segment>, tail: seq<Segment>)
    requires SameEnds([first], head) && SameEnds(rest, tail) && first.to == rest[0].from
    ensures SameEnds([first] + rest, head + tail)
  {
    ChainedConcat(head, tail);
    var r := head + tail;
    assert r[0] == head[0] && r[|r| - 1] == tail[|tail| - 1];
    assert ([first] + rest)[|rest|] == rest[|rest| - 1];
  }

  /** Refining a chain of segments gives a chain with the same two ends. */
  lemma {:induction false} RefineAllChained(rf: Refinement, dir: Direction, segments: seq<Segment>)
    requires Chained(segments) && segments != []
    ensures SameEnds(segments, RefineAll(rf, dir, segments))
  {
    var head := Refine(rf, dir, segments[0], 0);
    var tail := RefineAll(rf, dir, segments[1..]);
    assert RefineAll(rf, dir, segments) == head + tail;
    if |segments| > 1 {
      ChainedTail(segments);
      RefineAllChained(rf, dir, segments[1..]);
      SameEndsJoin(segments[0], segments[1..], head, tail);
      assert [segments[0]] + segments[1..] == segments;
    } else {
      assert tail == [] && head + tail == head && segments == [segments[0]];
    }
  }

  /** Refinement keeps every point consistent with the transform. */
  lemma {:induction false} RefineAllConsistent(rf: Refinement, dir: Direction, segments: seq<Segment>)
    requires AllConsistent(rf, dir, segments)
    ensures AllConsistent(rf, dir, RefineAll(rf, dir, segments))
  {
    if segments != [] {
      var head := Refine(rf, dir, segments[0], 0);
      var tail := RefineAll(rf, dir, segments[1..]);
      assert AllConsistent(rf, dir, segments[1..]) by {
        forall i | 0 <= i < |segments| - 1
          ensures Consistent(rf, dir, segments[1..][i].from) && Consistent(rf, dir, segments[1..][i].to)
        {
          assert segments[1..][i] == segments[i + 1];
        }
      }
      RefineAllConsistent(rf, dir, segments[1..]);
      RefineConsistent(rf, dir, segments[0], 0);
      var r := head + tail;
      forall i | 0 <= i < |r|
        ensures Consistent(rf, dir, r[i].from) && Consistent(rf, dir, r[i].to)
      {
        if i < |head| {
          assert r[i] == head[i];
        } else {
          assert r[i] == tail[i - |head|];
        }
      }
    }
  }

  /** `recursivelyAddMidpointsWith…`: nothing is refined unless `maxDepth` and `maxOffsetRatio` are positive. */
  function RecursivelyAddMidpoints(rf: Refinement, dir: Direction, segments: seq<Segment>): (r: seq<Segment>)
    ensures rf.maxDepth <= 0 || rf.maxOffsetRatio <= 0.0 ==> r == segments
    ensures |segments| <= |r| <= |segments| * Pow2(Budget(rf.maxDepth, 0))
    ensures Chained(segments) && segments != [] ==> SameEnds(segments, r)
    ensures AllConsistent(rf, dir, segments) ==> AllConsistent(rf, dir, r)
    ensures rf.maxDepth > 0 && rf.maxOffsetRatio > 0.0 ==> Settled(rf, dir, r, RefineAllDepths(rf, dir, segments), 0)
  {
    if rf.maxDepth <= 0 || rf.maxOffsetRatio <= 0.0 then segments
    else
      var r := RefineAll(rf, dir, segments);
      RefineAllSettled(rf, dir, segments);
      assert Chained(segments) && segments != [] ==> SameEnds(segments, r) by {
        if Chained(segments) && segments != [] {
          RefineAllChained(rf, dir, segments);
        }
      }
      assert AllConsistent(rf, dir, segments) ==> AllConsistent(rf, dir, r) by {
        if AllConsistent(rf, dir, segments) {
          RefineAllConsistent(rf, dir, segments);
        }
      }
      r
  }

  /**
   * The early return agrees with refining when `maxDepth <= 0` or the ratio is zero;
   * only for a negative ratio does it change what would happen (every segment would split).
   */
  lemma {:induction false} RefineAllDisabled(rf: Refinement, dir: Direction, segments: seq<Segment>)
    requires rf.maxDepth <= 0 || rf.maxOffsetRatio == 0.0
    ensures RefineAll(rf, dir, segments) == segments
  {
    if segments != [] {
      RefineAllDisabled(rf, dir, segments[1..]);
      assert !Splits(rf, Oriented(dir, segments[0]), 0);
    }
  }

  // ---------------------------------------------------------------------------
  // Entry points

  /** The metric of one coordinate space: geographic when its flag is set, planar otherwise. */
  function SpaceMetric(isGeographic: bool, world: Metric): Metric
  {
    if isGeographic then world else Planar()
  }

  /**
   * The refinement the options call for. Forward the source midpoint is transformed and
   * destinations are compared; backward the destination midpoint is transformed back and
   * sources are compared. `world` is the great-circle midpoint and distance.
   */
  function RefinementFor(t: Transformer, dir: Direction, opts: Options, world: Metric): Refinement
  {
    var sourceMetric := SpaceMetric(opts.sourceIsGeographic, world);
    var destinationMetric := SpaceMetric(opts.destinationIsGeographic, world);
    if dir.Forward? then
      Refinement(t.forward, sourceMetric.mid, destinationMetric, opts.maxOffsetRatio, opts.maxDepth)
    else
      Refinement(t.backward, destinationMetric.mid, sourceMetric, opts.maxOffsetRatio, opts.maxDepth)
  }

  /** The transform in direction `dir`. */
  function TransformOf(t: Transformer, dir: Direction): Pos -> Pos
  {
    if dir.Forward? then t.forward else t.backward
  }

  /** The point list of the entry points: forward `{source: p, destination: forward(p)}`, backward the mirror. */
  function GcpsOf(t: Transformer, dir: Direction, positions: seq<Pos>): (r: seq<Gcp>)
    ensures |r| == |positions|
    ensures forall i :: 0 <= i < |r| ==> Known(dir, r[i]) == positions[i]
    ensures forall i :: 0 <= i < |r| ==> Derived(dir, r[i]) == TransformOf(t, dir)(positions[i])
  {
    seq(|positions|, i requires 0 <= i < |positions| =>
      if dir.Forward? then Gcp(positions[i], t.forward(positions[i]))
      else Gcp(t.backward(positions[i]), positions[i]))
  }

  function DerivedPositions(dir: Direction, points: seq<Gcp>): (r: seq<Pos>)
    ensures |r| == |points|
    ensures forall i :: 0 <= i < |r| ==> r[i] == Derived(dir, points[i])
  {
    seq(|points|, i requires 0 <= i < |points| => Derived(dir, points[i]))
  }

  function MapPositions(f: Pos -> Pos, positions: seq<Pos>): (r: seq<Pos>)
    ensures |r| == |positions|
    ensures forall i :: 0 <= i < |r| ==> r[i] == f(positions[i])
  {
    seq(|positions|, i requires 0 <= i < |positions| => f(positions[i]))
  }

  /** What the conforming functions of the geometry module promise: a conformed line has two points. */
  ghost predicate ConformsToLine(conform: seq<Pos> -> Result<seq<Pos>>)
  {
    forall l :: conform(l).Success? ==> |conform(l).value| >= 2
  }

  lemma DerivedOfGcps(t: Transformer, dir: Direction, positions: seq<Pos>)
    ensures DerivedPositions(dir, GcpsOf(t, dir, positions)) == MapPositions(TransformOf(t, dir), positions)
  {
  }

  /** The positions a refined line is read back as: its two ends are kept, and unrefined it is the line itself. */
  lemma RefinedLine(rf: Refinement, dir: Direction, points: seq<Gcp>)
    requires |points| >= 2
    ensures Segments(points, false) != []
    ensures var out := DerivedPositions(dir, PointsOf(RecursivelyAddMidpoints(rf, dir, Segments(points, false)), true));
      && |points| <= |out| <= (|points| - 1) * Pow2(Budget(rf.maxDepth, 0)) + 1
      && out[0] == Derived(dir, points[0])
      && out[|out| - 1] == Derived(dir, points[|points| - 1])
      && (rf.maxDepth <= 0 || rf.maxOffsetRatio <= 0.0 ==> out == DerivedPositions(dir, points))
  {
    var segments := Segments(points, false);
    SegmentsChained(points, false);
    assert Next(|points| - 2, |points|) == |points| - 1;
    var extended := RecursivelyAddMidpoints(rf, dir, segments);
    var back := PointsOf(extended, true);
    assert back[0] == extended[0].from;
    assert back[|back| - 1] == extended[|extended| - 1].to;
    if rf.maxDepth <= 0 || rf.maxOffsetRatio <= 0.0 {
      LineRoundTrip(points);
    }
  }

  /** The positions a refined ring is read back as: unrefined it is the ring itself, not closed again. */
  lemma RefinedRing(rf: Refinement, dir: Direction, points: seq<Gcp>)
    ensures var out := DerivedPositions(dir, PointsOf(RecursivelyAddMidpoints(rf, dir, Segments(points, true)), false));
      && |points| <= |out| <= |points| * Pow2(Budget(rf.maxDepth, 0))
      && (points != [] ==> out[0] == Derived(dir, points[0]))
      && (rf.maxDepth <= 0 || rf.maxOffsetRatio <= 0.0 ==> out == DerivedPositions(dir, points))
  {
    var segments := Segments(points, true);
    SegmentsChained(points, true);
    if rf.maxDepth <= 0 || rf.maxOffsetRatio <= 0.0 {
      RingRoundTrip(points);
    }
  }

  /**
   * `transformLineStringForwardToLineString` (`dir == Forward`) and
   * `transformLineStringBackwardToLineString` (`dir == Backward`).
   */
  function TransformLineString(
    t: Transformer, dir: Direction, conformLineString: seq<Pos> -> Result<seq<Pos>>, world: Metric,
    lineString: seq<Pos>, options: Option<PartialOptions>): (r: Result<seq<Pos>>)
    requires ConformsToLine(conformLineString)
    ensures r.Failure? <==> conformLineString(lineString).Failure?
    ensures r.Success? ==>
      var line := conformLineString(lineString).value;
      var opts := MergedOptions(options);
      && |line| <= |r.value| <= (|line| - 1) * Pow2(Budget(opts.maxDepth, 0)) + 1
      && r.value[0] == TransformOf(t, dir)(line[0])
      && r.value[|r.value| - 1] == TransformOf(t, dir)(line[|line| - 1])
      && (opts.maxDepth <= 0 || opts.maxOffsetRatio <= 0.0 ==> r.value == MapPositions(TransformOf(t, dir), line))
  {
    var line :- conformLineString(lineString);
    var opts := MergedOptions(options);
    var rf := RefinementFor(t, dir, opts, world);
    var points := GcpsOf(t, dir, line);
    RefinedLine(rf, dir, points);
    DerivedOfGcps(t, dir, line);
    var extended := RecursivelyAddMidpoints(rf, dir, Segments(points, false));
    Success(DerivedPositions(dir, PointsOf(extended, true)))
  }

  /**
   * `transformRingForwardToRing` and `transformRingBackwardToRing`: the ring is cut into
   * closed segments and read back open, so the result is not closed again.
   */
  function TransformRing(
    t: Transformer, dir: Direction, conformRing: seq<Pos> -> Result<seq<Pos>>, world: Metric,
    ring: seq<Pos>, options: Option<PartialOptions>): (r: Result<seq<Pos>>)
    ensures r.Failure? <==> conformRing(ring).Failure?
    ensures r.Success? ==>
      var conformed := conformRing(ring).value;
      var opts := MergedOptions(options);
      && |conformed| <= |r.value| <= |conformed| * Pow2(Budget(opts.maxDepth, 0))
      && (conformed != [] ==> r.value[0] == TransformOf(t, dir)(conformed[0]))
      && (opts.maxDepth <= 0 || opts.maxOffsetRatio <= 0.0 ==> r.value == MapPositions(TransformOf(t, dir), conformed))
  {
    var conformed :- conformRing(ring);
    var opts := MergedOptions(options);
    var rf := RefinementFor(t, dir, opts, world);
    var points := GcpsOf(t, dir, conformed);
    RefinedRing(rf, dir, points);
    DerivedOfGcps(t, dir, conformed);
    var extended := RecursivelyAddMidpoints(rf, dir, Segments(points, true));
    Success(DerivedPositions(dir, PointsOf(extended, false)))
  }

  /** `transformPolygon{Forward,Backward}ToPolygon`: ring by ring; a ring that fails fails the polygon. */
  function TransformPolygon(
    t: Transformer, dir: Direction, conformRing: seq<Pos> -> Result<seq<Pos>>, world: Metric,
    polygon: seq<seq<Pos>>, options: Option<PartialOptions>): (r: Result<seq<seq<Pos>>>)
    ensures r.Success? <==> forall i :: 0 <= i < |polygon| ==> conformRing(polygon[i]).Success?
    ensures r.Success? ==>
      && |r.value| == |polygon|
      && forall i :: 0 <= i < |polygon| ==>
        r.value[i] == TransformRing(t, dir, conformRing, world, polygon[i], options).value
  {
    var f := ring => TransformRing(t, dir, conformRing, world, ring, options);
    var r := MapOrThrow(polygon, f);
    assert forall i :: 0 <= i < |polygon| ==> (f(polygon[i]).Success? <==> conformRing(polygon[i]).Success?);
    r
  }

}
