# Allmaps core, modelled in Dafny

Allmaps georeferences scanned maps: ground control points (GCPs) pair positions on a
IIIF image ("resource" positions) with positions on the earth ("geo" positions), a
transformer fitted to them maps one space onto the other, and the renderer and the tile
server draw the warped image in web-map tiles. This project models the core of that
pipeline and proves what its parts promise:

- `TransformHelpers` (packages/transform/src/shared/transform-helper-functions.ts): the
  option defaults, cutting point lists into segments and back, and the recursive
  refinement that splits a segment at its midpoint while the transformed midpoint lands
  too far from the naive one, for line strings, rings and polygons, forward and backward.
- `TransformGeojson` (packages/transform/src/shared/geojson.ts): the older GeoJSON entry
  points with their own defaults, length checks and read-back of refined segments.
- `RadialBasis` (packages/transform/src/shared/radial-basis-function.ts): the
  radial-basis-function interpolant — distance matrix, norm, epsilon, kernel, affine
  block, the linear system and its solution, and evaluation at a point.
- `ProjectiveTransformer` (packages/transform/src/transformers/projective-transformer.ts):
  the transformer that fits a projective interpolant lazily, once per direction.
- `AnnotationParser` (packages/annotation/src/parser.ts): reading a georeference
  annotation into maps — resource, image dimensions from the SVG selector, GCPs and the
  pixel mask parsed from the SVG polygon's `points` attribute.
- `RenderWorld` (packages/render/src/World.ts): the set of warped maps of a renderer,
  with their z-order (add, remove, bring to front, send to back, forward, backward,
  removing holes), visibility, masks and bounding box.
- `Tiles` and `TileWalk` (packages/render/src/shared/tiles.ts): choosing the IIIF zoom
  level for a map scale, and finding the image tiles a resource mask needs by walking
  each polygon edge across the tile grid.
- `WarpedTile` (apps/tileserver/src/warped-tile-response.ts): drawing a warped web-map
  tile pixel by pixel, finding the image tile under each pixel and blending its four
  neighbouring samples bilinearly.
- `StdBBox` and `StdGeojson` (packages/stdlib/src/bbox.ts, packages/stdlib/src/geojson.ts):
  bounding boxes and conversions between GeoJSON geometries, rings and SVG.
- `Sorting`: the stable in-place sort the tile code relies on, as an insertion sort.
- `Geometry`, `Wrappers`: positions with the planar midpoint and distance, and
  `Option`/`Result`.

Numbers are reals where the source uses JavaScript floating point. Transformers, matrix
inversion, kernels, norms, the great-circle midpoint and distance, `parseFloat` and the
spatial index are parameters of the model: their results are not computed here, and the
model proves what holds whatever they return.

## Model

| member | source | states |
|---|---|---|
| Geometry.MidPosition | packages/transform/src/shared/geojson.ts:556-561 | the midpoint is the average of the two positions on each axis |
| Geometry.SquaredDistanceProperties | packages/transform/src/shared/geojson.ts:563-565 | the (squared) planar distance is zero from a point to itself, never negative and symmetric |
| TransformHelpers.MergeDefaultOptions | packages/transform/src/shared/transform-helper-functions.ts:22-50 | every option absent from the argument takes its default (0, 0, false, false) and every given one overrides it; `close` is never read and stays false |
| TransformHelpers.PointsToSegments | packages/transform/src/shared/transform-helper-functions.ts:178-190 | there are n segments when closed and n-1 when open (none for no points); segment i runs from point i to point (i+1) mod n |
| TransformHelpers.SegmentsToPoints | packages/transform/src/shared/transform-helper-functions.ts:192-198 | the start of every segment in order, followed by the end of the last one exactly when closing |
| TransformHelpers.SegmentsChained | packages/transform/src/shared/transform-helper-functions.ts:178-190 | each segment ends where the next begins, and closed segments end where the first begins |
| TransformHelpers.RingRoundTrip | packages/transform/src/shared/transform-helper-functions.ts:118-128 | cutting a ring into closed segments and reading them back open gives the ring back, not closed again |
| TransformHelpers.LineRoundTrip | packages/transform/src/shared/transform-helper-functions.ts:66-76 | cutting a line of two or more points into open segments and reading them back closed gives the line back |
| TransformHelpers.OffsetExceedsExact | packages/transform/src/shared/transform-helper-functions.ts:280-287 | for a positive length, comparing squared distances decides the source's ratio test offset/length > maxOffsetRatio exactly, and a zero ratio never splits |
| TransformHelpers.AddMidpoint | packages/transform/src/shared/transform-helper-functions.ts:242-310 | forward refinement of one segment: unchanged unless it splits; when it splits, at least two chained segments with the same two ends, the transformed source midpoint among the joints, every joint consistent with the transform, and at most 2^(maxDepth-depth) pieces |
| TransformHelpers.Refine | packages/transform/src/shared/transform-helper-functions.ts:242-381 | the same for both directions: backward, the destination midpoint is transformed back and sources are compared |
| TransformHelpers.AddMidpointSettled | packages/transform/src/shared/transform-helper-functions.ts:280-306 | every piece of a forward refinement was left unsplit at its own depth, between the start depth and maxDepth: it is within maxOffsetRatio of its length, has zero length, or was produced at maxDepth |
| TransformHelpers.RefineSettled | packages/transform/src/shared/transform-helper-functions.ts:242-381 | the same tolerance for every piece of a refinement in either direction, the backward one comparing sources |
| TransformHelpers.RefineAllSettled | packages/transform/src/shared/transform-helper-functions.ts:209-218 | every piece of every refined segment meets the tolerance at a depth between 0 and maxDepth |
| TransformHelpers.RefineConsistent | packages/transform/src/shared/transform-helper-functions.ts:288-306 | a segment whose ends are consistent with the transform refines to segments whose every point is |
| TransformHelpers.RefineAll | packages/transform/src/shared/transform-helper-functions.ts:209-218 | refining every segment at depth 0 gives at least as many segments and at most 2^maxDepth times as many |
| TransformHelpers.RefineAllChained | packages/transform/src/shared/transform-helper-functions.ts:209-218 | a refined chain is still a chain, from the same start to the same end |
| TransformHelpers.RefineAllConsistent | packages/transform/src/shared/transform-helper-functions.ts:209-218 | refinement keeps every point consistent with the transform |
| TransformHelpers.RecursivelyAddMidpoints | packages/transform/src/shared/transform-helper-functions.ts:200-240 | nothing is refined unless maxDepth and maxOffsetRatio are positive; otherwise the size bounds, the ends of a chain and consistency are kept, and every piece meets the tolerance |
| TransformHelpers.RefineAllDisabled | packages/transform/src/shared/transform-helper-functions.ts:205-207 | the early return agrees with refining when maxDepth is not positive or the ratio is zero |
| TransformHelpers.GcpsOf | packages/transform/src/shared/transform-helper-functions.ts:61-64 | the point list pairs every position with its transform, in order, in the direction of the entry point |
| TransformHelpers.DerivedOfGcps | packages/transform/src/shared/transform-helper-functions.ts:74-76 | reading back the derived side of those points is mapping the transform over the positions |
| TransformHelpers.RefinedLine | packages/transform/src/shared/transform-helper-functions.ts:61-76 | a refined line keeps its two transformed ends, has between n and (n-1)·2^maxDepth+1 points, and unrefined is the transformed line |
| TransformHelpers.RefinedRing | packages/transform/src/shared/transform-helper-functions.ts:113-128 | a refined ring starts at its transformed first point, has between n and n·2^maxDepth points, and unrefined is the transformed ring, not closed again |
| TransformHelpers.TransformLineString | packages/transform/src/shared/transform-helper-functions.ts:52-102 | fails exactly when conforming the line fails; otherwise the refined line's bounds and transformed ends, and unrefined the transform of each position |
| TransformHelpers.TransformRing | packages/transform/src/shared/transform-helper-functions.ts:104-156 | fails exactly when conforming the ring fails; otherwise the refined ring's bounds and first point, and unrefined the transform of each position |
| TransformHelpers.TransformPolygon | packages/transform/src/shared/transform-helper-functions.ts:158-176 | succeeds exactly when every ring conforms; then one result per ring, each the transformed ring |
| Wrappers.MapOrThrow | packages/transform/src/shared/transform-helper-functions.ts:163-165 | mapping a throwing function succeeds exactly when it succeeds on every item, with one result per item; otherwise it fails with the error of the first item that fails |
| TransformGeojson.MergeDefaultOptions | packages/transform/src/shared/geojson.ts:20-42 | `close`, `maxOffsetRatio` and `maxDepth` default to false, 0 and 0, and each given field overrides its default |
| TransformGeojson.RecursivelyAdd | packages/transform/src/shared/geojson.ts:279-333 | the four refinements of this file leave the segments unchanged unless depth and ratio are positive, keep the size bounds and the ends of a chain |
| TransformGeojson.ReadBackOfChain | packages/transform/src/shared/geojson.ts:97-100 | on a chain, the first start followed by every end is what `segmentsToPoints(segments, true)` reads back |
| TransformGeojson.EntryPointsOpen | packages/transform/src/shared/geojson.ts:85-100 | a line read back from open segments keeps its transformed ends, its size bounds, and unrefined is the transformed line |
| TransformGeojson.ReadBackOfClosedSegments | packages/transform/src/shared/geojson.ts:119-129 | read back without refinement, closed segments give the transformed points followed by the first one |
| TransformGeojson.ClosedRingEnds | packages/transform/src/shared/geojson.ts:114-129 | a ring read back from closed segments has at least one point more than the ring and ends where it starts |
| TransformGeojson.ClosedRingUnrefined | packages/transform/src/shared/geojson.ts:114-129 | unrefined, the closed read-back is the transformed ring followed by its first point |
| TransformGeojson.EntryPointsClosed | packages/transform/src/shared/geojson.ts:114-129 | the closed read-back's bounds, closing point and unrefined value together |
| TransformGeojson.ToGeoJsonLineString | packages/transform/src/shared/geojson.ts:74-101 | fails with "Line should contain at least 2 points" exactly when there are fewer than two points; otherwise the refined line keeps its transformed ends and bounds |
| TransformGeojson.ToGeoJsonPolygon | packages/transform/src/shared/geojson.ts:103-130 | fails with "Polygon should contain at least 3 points" exactly when there are fewer than three points; otherwise a closed ring from the transformed first point |
| TransformGeojson.FromGeoJsonLineString | packages/transform/src/shared/geojson.ts:139-168 | fails with "LineString should contain at least 2 points" exactly when there are fewer than two coordinates; otherwise the line refined back to resource |
| TransformGeojson.FromGeoJsonPolygon | packages/transform/src/shared/geojson.ts:170-199 | fails with "Polygon should contain at least 4 points" exactly when the outer ring has fewer than four coordinates; otherwise that ring refined back to resource, closed when its input was |
| TransformGeojson.RingEntry | packages/transform/src/shared/geojson.ts:213-225 | a ring read back open from closed segments starts at the transformed first point, keeps its bounds and unrefined is the transformed ring |
| TransformGeojson.TransformRingToGeo | packages/transform/src/shared/geojson.ts:201-226 | fails with "Polygon should contain at least 3 points" exactly when the ring has fewer than three points; otherwise the ring refined towards geo |
| TransformGeojson.TransformRingToResource | packages/transform/src/shared/geojson.ts:228-255 | fails with "Ring should contain at least 3 points" exactly when the ring has fewer than three points; otherwise the ring refined back to resource |
| ProjectiveTransformer.NewProjective | packages/transform/src/transformers/projective-transformer.ts:23-29 | a projective keeps the positions it was fitted on and its interpolant is the fit of them |
| ProjectiveTransformer.GeoCoords | packages/transform/src/transformers/projective-transformer.ts:19 | the geo position of every GCP, in order |
| ProjectiveTransformer.ResourceCoords | packages/transform/src/transformers/projective-transformer.ts:20 | the resource position of every GCP, in order |
| ProjectiveTransformer.ProjectiveGcpTransformer.constructor | packages/transform/src/transformers/projective-transformer.ts:16-21 | keeps the GCPs, derives both coordinate lists and starts with no fit in either direction |
| ProjectiveTransformer.ProjectiveGcpTransformer.CreateToGeoProjective | packages/transform/src/transformers/projective-transformer.ts:23-25 | the forward fit maps resource coordinates to geo coordinates |
| ProjectiveTransformer.ProjectiveGcpTransformer.CreateToResourceProjective | packages/transform/src/transformers/projective-transformer.ts:27-29 | the backward fit maps geo coordinates to resource coordinates |
| ProjectiveTransformer.ProjectiveGcpTransformer.ToGeo | packages/transform/src/transformers/projective-transformer.ts:31-37 | the answer is the forward interpolant at the point; the fit is made at most once and the backward fit is untouched |
| ProjectiveTransformer.ProjectiveGcpTransformer.ToResource | packages/transform/src/transformers/projective-transformer.ts:39-45 | the answer is the backward interpolant at the point; the fit is made at most once and the forward fit is untouched |
| RadialBasis.TryCreate | packages/transform/src/shared/radial-basis-function.ts:35-41 | fails with the "Not enough control points" message exactly when there are fewer than three source positions; otherwise a well-formed interpolant of those source and destination positions, with the kernel, the norm, the given or default epsilon and the weights of both axes fitted as the constructor fits them |
| RadialBasis.Rbf.constructor | packages/transform/src/shared/radial-basis-function.ts:22-143 | keeps the positions, kernel and norm; epsilon is the given one or the default; both weight vectors are the solution of the block system for their axis, with one inverse |
| RadialBasis.NormMatrix | packages/transform/src/shared/radial-basis-function.ts:63-73 | entry (i, j) of the new N×N matrix is the norm between source positions i and j |
| RadialBasis.MatrixSum | packages/transform/src/shared/radial-basis-function.ts:76-80 | the sum of the norm matrix is the double sum of the norms over all pairs, the numerator of the default epsilon |
| RadialBasis.ApplyKernel | packages/transform/src/shared/radial-basis-function.ts:84-93 | every entry of the matrix is replaced by the kernel of its old value and epsilon |
| RadialBasis.AffineMatrix | packages/transform/src/shared/radial-basis-function.ts:96-110 | the N×3 matrix whose row i is [1, x_i, y_i] |
| RadialBasis.BlockOf | packages/transform/src/shared/radial-basis-function.ts:97-132 | the (N+3)×(N+3) matrix with the kernels top left, the affine rows top right, their transpose bottom left and zeros bottom right |
| RadialBasis.FillRow | packages/transform/src/shared/radial-basis-function.ts:115-131 | one row of the block matrix is written; every other row is left as it was |
| RadialBasis.KernelBlock | packages/transform/src/shared/radial-basis-function.ts:84-132 | from the norm matrix, applying the kernel and assembling the blocks gives the block matrix of the model |
| RadialBasis.BlockRowsAgree | packages/transform/src/shared/radial-basis-function.ts:111-132 | the assembled rows are the block matrix whose entry (i, j) is kernel(norm(s_i, s_j), epsilon) in the top-left block |
| RadialBasis.BlockStructure | packages/transform/src/shared/radial-basis-function.ts:111-132 | the bottom-left block is the transpose of the top-right one, the bottom-right block is zero, the top-right rows are [1, x_i, y_i], and a symmetric norm makes the whole matrix symmetric |
| RadialBasis.FitWeights | packages/transform/src/shared/radial-basis-function.ts:50-142 | epsilon is the given one, else the norm sum over N²-N; the weights of each axis are the inverse of the block matrix times that axis's right-hand side of N destination components and three zeros |
| RadialBasis.SolvesSystem | packages/transform/src/shared/radial-basis-function.ts:136-142 | when the inverse is a right inverse, the block matrix times the weights gives back the right-hand side |
| RadialBasis.InterpolationIsRow | packages/transform/src/shared/radial-basis-function.ts:151-183 | at a source position, evaluating the interpolant computes that position's row of the block matrix times the weights |
| RadialBasis.AxisReproducesDestination | packages/transform/src/shared/radial-basis-function.ts:134-183 | with a right inverse, interpolating at source k gives component `axis` of destination k |
| RadialBasis.FitReproducesDestinations | packages/transform/src/shared/radial-basis-function.ts:134-183 | with a right inverse, interpolating at every source position gives its destination, on both axes |
| RadialBasis.AxisFromDistances | packages/transform/src/shared/radial-basis-function.ts:166-182 | one axis of `interpolate`: the weighted sum of the kernels from the new position to every source, plus a0 + ax·x + ay·y from the last three weights |
| RadialBasis.Rbf.Interpolate | packages/transform/src/shared/radial-basis-function.ts:146-184 | the interpolated position is the axis value with the x weights and with the y weights |
| AnnotationParser.TrimStart | packages/annotation/src/parser.ts:125 | the result is a suffix of the string that does not start with white space, and everything cut off before it is white space |
| AnnotationParser.TrimEnd | packages/annotation/src/parser.ts:125 | the result is a prefix of the string that does not end with white space, and everything cut off after it is white space |
| AnnotationParser.Trim | packages/annotation/src/parser.ts:125 | `trim()` gives a middle part of the string with no white space at either end, and what it cuts off before and after is all white space |
| AnnotationParser.TrimUnique | packages/annotation/src/parser.ts:125 | any middle part cut at white space whose ends are not white space is the result of `trim()` |
| AnnotationParser.TrimKeepsTrimmed | packages/annotation/src/parser.ts:125 | a string without white space at its ends is left as it is by `trim()` |
| AnnotationParser.SplitOnSpaces | packages/annotation/src/parser.ts:125 | `split(/\s+/)` always gives at least one piece |
| AnnotationParser.SplitJoin | packages/annotation/src/parser.ts:125 | splitting non-empty space-free tokens joined by single spaces gives the tokens back |
| AnnotationParser.SplitOnComma | packages/annotation/src/parser.ts:136 | `split(',')` always gives at least one piece |
| AnnotationParser.SplitCommasCount | packages/annotation/src/parser.ts:136-138 | `split(',')` gives one piece more than there are commas, so exactly two pieces means exactly one comma |
| AnnotationParser.SplitPair | packages/annotation/src/parser.ts:136-139 | splitting `x,y` without other commas gives `x` and `y` |
| AnnotationParser.MatchPointsFromProperties | packages/annotation/src/parser.ts:121 | a match of `points="(.+)"` is a non-empty run without line breaks that stands between `points="` and a `"` in the selector |
| AnnotationParser.NoPrefixNoMatch | packages/annotation/src/parser.ts:121-124 | without `points="` in the selector there is no match |
| AnnotationParser.Decimal | packages/annotation/src/parser.ts:112-113 | writing a number in decimal digits and reading it back with `parseInt` gives the number |
| AnnotationParser.ParseImageDimensions | packages/annotation/src/parser.ts:86-115 | version 1 takes the source's width and height; otherwise the `width` and `height` attributes of the SVG selector, failing with "Could not parse image dimensions" exactly when either is missing |
| AnnotationParser.AttributeAt | packages/annotation/src/parser.ts:101-102 | the attribute `name="digits"` at a position makes the match from that position |
| AnnotationParser.DimensionsRoundTrip | packages/annotation/src/parser.ts:99-114 | a selector written `height="H" width="W" …` gives back width W and height H |
| AnnotationParser.ParseGcps | packages/annotation/src/parser.ts:79-84 | one GCP per feature, in order, with the feature's geometry as geo position and its pixel or resource coordinates as resource position |
| AnnotationParser.ParsePoints | packages/annotation/src/parser.ts:135-143 | fails with "Could not parse resource mask" exactly when some token is not `x,y`; otherwise one position per token, in order |
| AnnotationParser.ParsePointStrings | packages/annotation/src/parser.ts:135-143 | the loop over the point strings computes that mapping |
| AnnotationParser.ResourceMaskProperties | packages/annotation/src/parser.ts:117-150 | no `points` attribute, fewer than three tokens after dropping a repeated closing token, or a token without exactly one comma give the mask error; otherwise one position per token, in order |
| AnnotationParser.MaskTokensOfJoin | packages/annotation/src/parser.ts:125-132 | the tokens of a value written as tokens joined by spaces are those tokens, the last dropped when it repeats the first |
| AnnotationParser.ClosedRingDropsRepeat | packages/annotation/src/parser.ts:127-132 | an open ring and the same ring closed by repeating its first point give the same tokens: the repeat is dropped exactly once |
| AnnotationParser.ResourceMaskOfPoints | packages/annotation/src/parser.ts:130-146 | with a `points` attribute, fewer than three tokens fail and otherwise the tokens are mapped to positions |
| AnnotationParser.ParseResourceMask | packages/annotation/src/parser.ts:117-150 | the in-place `splice` of the closing repeat and the mapping compute the resource mask above |
| AnnotationParser.GetMap | packages/annotation/src/parser.ts:152-162 | succeeds exactly when the dimensions and the mask parse, reporting the dimension error first; then the id, resource, GCPs, mask and transformation of the annotation |
| AnnotationParser.ParseAnnotation | packages/annotation/src/parser.ts:176-204 | a single annotation gives a one-element list; a page gives one map per item in order, and fails with the error of the first item that fails |
| RenderWorld.Without | packages/render/src/World.ts:129-130 | deleting a key from a `Map` keeps the other keys and removes exactly that one |
| RenderWorld.WithoutDistinct | packages/render/src/World.ts:129-130 | deleting a key keeps the insertion order free of repeats |
| RenderWorld.HolesRemovedProperties | packages/render/src/World.ts:219-231 | after hole removal the indices are exactly 0 … n-1 and every strict order between two old indices is kept |
| RenderWorld.HolesFromSorted | packages/render/src/World.ts:220-230 | numbering the entries sorted by z-index, ties in insertion order, removes the holes |
| RenderWorld.CompactIndices | packages/render/src/World.ts:219-231 | the sort and the numbering loop of `removeZIndexHoles` give hole-free indices that keep the old order |
| RenderWorld.SortedEntriesCover | packages/render/src/World.ts:220-222 | a permutation of the entries holds exactly the maps of the world |
| RenderWorld.NumberInOrder | packages/render/src/World.ts:224-230 | each map gets the position of its last entry in the sorted list |
| RenderWorld.RenumberProperties | packages/render/src/World.ts:238-245 | the listed maps that exist get next, next+1, … in list order and every other map keeps its index |
| RenderWorld.BringToFrontOrder | packages/render/src/World.ts:237-249 | on hole-free indices every listed map ends above every unlisted one, listed maps in the listed order, hole-free again |
| RenderWorld.SendToBackOrder | packages/render/src/World.ts:251-263 | on hole-free indices every listed map ends below every unlisted one, listed maps in the listed order, hole-free again |
| RenderWorld.StrictlyBelowKept | packages/render/src/World.ts:219-231 | hole removal keeps a strict order between two maps |
| RenderWorld.ShiftProperties | packages/render/src/World.ts:270-275 | every listed map that exists moves by `delta` and the others stay |
| RenderWorld.DoubleAll | packages/render/src/World.ts:266-268 | the first loop doubles every z-index |
| RenderWorld.ShiftAll | packages/render/src/World.ts:270-275 | the second loop moves each listed map that exists by `delta` |
| RenderWorld.BringForwardOrder | packages/render/src/World.ts:265-279 | a listed map moves above an unlisted map directly above it and no further; maps of the same kind keep their order; the result is hole-free |
| RenderWorld.SendBackwardOrder | packages/render/src/World.ts:281-295 | a listed map moves below an unlisted map directly below it and no further; maps of the same kind keep their order; the result is hole-free |
| RenderWorld.WithVisibility | packages/render/src/World.ts:315-333 | only `visible` changes, and only on the listed maps that exist |
| RenderWorld.VisibleBBoxProperties | packages/render/src/World.ts:360-374 | the fold is undefined exactly when no map is visible; otherwise it encloses every visible map's box, and each edge is an edge of one of them |
| RenderWorld.CombinedEdgesAttained | packages/render/src/World.ts:365-369 | combining the running box with one more visible box attains every edge again |
| RenderWorld.RemovalOutcome | packages/render/src/World.ts:204-207 | the k-th result of removing an annotation's maps is the id when the map existed and was not removed earlier in the list, else the "No map found with ID" error |
| RenderWorld.AddedState | packages/render/src/World.ts:99-102 | adding a map keeps the state well-formed, and on hole-free indices the new top index keeps them hole-free |
| RenderWorld.RemoveMapLeavesHoles | packages/render/src/World.ts:122-167 | after adding A, B, C, D and removing A and B with `removeMap`, the indices have holes and `bringToFront(['C'])` still leaves C below D |
| RenderWorld.World.constructor | packages/render/src/World.ts:20-31 | an empty world holding the given R-tree |
| RenderWorld.World.AddMapInternal | packages/render/src/World.ts:68-119 | when converting the pixel mask to a geo mask throws, its error is returned and nothing changes; otherwise the id is returned and the map is stored visible with its geo mask and box, gets z-index size-1, is appended to the insertion order when new and is added to the R-tree; the indices stay hole-free for a new map |
| RenderWorld.World.IndexGeoMask | packages/render/src/World.ts:104-106 | when there is an R-tree the geo mask is stored under the id; nothing else changes |
| RenderWorld.World.RemoveMapInternal | packages/render/src/World.ts:122-151 | an unknown id is an error and changes nothing; a known id is removed from both maps and the R-tree |
| RenderWorld.World.RemoveMap | packages/render/src/World.ts:161-167 | removing a map and then the holes: the result of `removeMapInternal`, the map gone from the maps, the order and the R-tree, and the survivors renumbered 0..n-1 in their old stacking order |
| RenderWorld.World.RemoveZIndexHoles | packages/render/src/World.ts:219-231 | the indices become 0 … n-1 in the order of the old ones; nothing else changes |
| RenderWorld.World.BringToFront | packages/render/src/World.ts:237-249 | renumber the listed maps from `size` up, then remove holes; on hole-free indices the listed maps end above the others |
| RenderWorld.World.SendToBack | packages/render/src/World.ts:251-263 | renumber the listed maps from `-mapIds.length` up, then remove holes; on hole-free indices the listed maps end below the others |
| RenderWorld.World.DoubleAndShift | packages/render/src/World.ts:265-291 | the two loops: double every index, then move the listed ones by `delta` |
| RenderWorld.World.BringForward | packages/render/src/World.ts:265-279 | double, move listed maps by +3, remove holes |
| RenderWorld.World.SendBackward | packages/render/src/World.ts:281-295 | double, move listed maps by -3, remove holes |
| RenderWorld.World.SetVisibility | packages/render/src/World.ts:315-333 | only `visible` changes, and only for ids that exist |
| RenderWorld.World.ShowMaps | packages/render/src/World.ts:315-323 | the listed maps that exist become visible; nothing else changes |
| RenderWorld.World.HideMaps | packages/render/src/World.ts:325-333 | the listed maps that exist become hidden; nothing else changes |
| RenderWorld.World.SetPixelMask | packages/render/src/World.ts:297-313 | for a known map the geo mask, its box and the R-tree item are recomputed from the new pixel mask; when that conversion throws, the error propagates and nothing changes; an unknown id changes nothing |
| RenderWorld.World.Clear | packages/render/src/World.ts:351-358 | no maps, no z-indices, an emptied R-tree |
| RenderWorld.World.GetBBox | packages/render/src/World.ts:360-374 | undefined exactly when no map is visible; otherwise a box enclosing every visible map's box |
| RenderWorld.World.GetPossibleVisibleWarpedMapIds | packages/render/src/World.ts:335-341 | the R-tree's answer when there is one, otherwise every map id |
| RenderWorld.World.RemoveGeoreferenceAnnotation | packages/render/src/World.ts:197-217 | one result per listed map, each as `RemovalOutcome` says; the listed maps leave the maps and the order, the other records and their order are kept, the R-tree loses the listed maps that were there, and the survivors are renumbered 0..n-1 in their old stacking order (`HolesRemoved`) |
| RenderWorld.Keep | packages/render/src/World.ts:204-207 | deleting several keys leaves exactly the other ids, in their order |
| RenderWorld.KeepWithout | packages/render/src/World.ts:204-207 | deleting one more key is `Without` applied to what was kept |
| RenderWorld.RemovalStep | packages/render/src/World.ts:204-207 | one `removeMapInternal` turn takes the state after `i` removals to the state after `i + 1`, with the `i`-th outcome |
| Tiles.TileBBox | packages/render/src/shared/tiles.ts:46-60 | the tile's cell of the image, with the far edges clipped to the image size |
| Tiles.TileCenter | packages/render/src/shared/tiles.ts:62-66 | the midpoint of the tile's box |
| Tiles.TileCenterInside | packages/render/src/shared/tiles.ts:46-66 | a tile that starts inside the image has its centre inside its box |
| Tiles.InTileIsInBBox | packages/render/src/shared/tiles.ts:33-40 | the clip test is membership of the tile's box |
| Tiles.ImageCoordinatesToTileCoordinates | packages/render/src/shared/tiles.ts:22-44 | undefined exactly when clipping and outside the tile; otherwise tile coordinates that scale back to the image position |
| Tiles.ScaleToTiles | packages/render/src/shared/tiles.ts:155-160 | one point per point, in tile units of the zoom level |
| Tiles.AddCellsRanges | packages/render/src/shared/tiles.ts:171-183 | each column met keeps exactly the lowest and highest row met there, and no other column appears |
| Tiles.VertexCellsMet | packages/render/src/shared/tiles.ts:164-169 | the cell of every vertex is met, as the walk of its edge starts there |
| Tiles.TilesByXCoversVertices | packages/render/src/shared/tiles.ts:162-187 | every vertex's column is a key with the vertex's row inside its range |
| Tiles.FindNeededIiifTilesByX | packages/render/src/shared/tiles.ts:162-187 | walking every edge, wrapping from the last vertex to the first, folds the cells into per-column row ranges |
| Tiles.PushRows | packages/render/src/shared/tiles.ts:202-212 | the inner loop pushes the rows max(lo, 0) … min(hi, rows-1) of one column |
| Tiles.ColumnTiles | packages/render/src/shared/tiles.ts:202-212 | the tiles of one column are exactly its needed tiles, in row order |
| Tiles.ColumnsFromProperties | packages/render/src/shared/tiles.ts:195-213 | the tiles of the columns from x on are exactly the needed tiles of those columns, in (column, row) order |
| Tiles.NeededTilesProperties | packages/render/src/shared/tiles.ts:189-216 | the tiles emitted are exactly those with an in-range column met and a clamped row, in (column, row) order |
| Tiles.IiifTilesByXToArray | packages/render/src/shared/tiles.ts:189-216 | visiting the non-negative keys in ascending order and stopping at the first out-of-range column emits those needed tiles |
| Tiles.GetBestZoomLevelForMapScale | packages/render/src/shared/tiles.ts:114-153 | the last level when no level qualifies (scaleFactor·1.25 ≥ scale); otherwise the first qualifying level with the smallest difference in scale |
| Tiles.BestChoiceForEveryBox | packages/render/src/shared/tiles.ts:237-246 | the choice depends only on the positions, as their bounding box is unique |
| Tiles.GetBestZoomLevel | packages/render/src/shared/tiles.ts:232-247 | the best level for the scale min(width/viewport width, height/viewport height) of the polygon's box; the last level for an empty polygon |
| Tiles.ComputeIiifTilesForPolygonAndZoomLevel | packages/render/src/shared/tiles.ts:249-278 | a permutation of the needed tiles of the outer ring, sorted by increasing distance from the centre of the polygon's box |
| TileWalk.WalkProperties | packages/render/src/shared/tiles.ts:72-112 | the corrected walk starts in the cell of a, ends in the cell of b, takes one unit step on one axis per boundary crossed in the direction of b-a, and is one cell when both ends share it |
| TileWalk.WalkFromProperties | packages/render/src/shared/tiles.ts:99-109 | from a state heading for the end cell, the walk takes one cell per remaining boundary, in unit steps, and ends in the end cell |
| TileWalk.StepAgreesWithSource | packages/render/src/shared/tiles.ts:99-109 | away from the end row and column, with both extents positive, a corrected step is the source's step |
| TileWalk.StartAgreesWithSource | packages/render/src/shared/tiles.ts:73-97 | with both extents positive the corrected walk starts in the source's state |
| TileWalk.CellsAsWritten | packages/render/src/shared/tiles.ts:78-109 | the source's loop pushes the start cell and one cell per turn |
| TileWalk.OvershotNeverEnds | packages/render/src/shared/tiles.ts:99-109 | once the source's loop has stepped past the end row or column it never reaches the end cell |
| TileWalk.MatchingWalksAgree | packages/render/src/shared/tiles.ts:99-109 | from matching states, a loop of the source that stops pushes exactly the corrected cells |
| TileWalk.AsWrittenStopsOnWalk | packages/render/src/shared/tiles.ts:72-112 | whenever the source's `tilesIntersect` stops, its cells are the corrected walk's, so the correction changes only the inputs it loops on |
| TileWalk.HorizontalEdgeNeverEnds | packages/render/src/shared/tiles.ts:93-109 | for a=(0.5, 0), b=(1.5, 0) the loop as written never reaches its end cell |
| TileWalk.CornerEndNeverEnds | packages/render/src/shared/tiles.ts:99-109 | for a=(0.5, 1.5), b=(1, 1) the loop as written never reaches its end cell |
| TileWalk.CorrectedExamples | packages/render/src/shared/tiles.ts:72-112 | the corrected walk takes both of those inputs to their end cells |
| TileWalk.WalkCells | packages/render/src/shared/tiles.ts:99-111 | the loop computes the corrected walk |
| TileWalk.TilesIntersect | packages/render/src/shared/tiles.ts:72-112 | the corrected `tilesIntersect`: its start and end cells, unit steps and the one-cell case |
| Sorting.SortByKey | packages/render/src/shared/tiles.ts:271-275 | the array ends sorted by the key and is a permutation of the one it started as |
| Sorting.Insert | packages/render/src/shared/tiles.ts:271-275 | one insertion extends the sorted prefix by one element and keeps the multiset |
| WarpedTile.WarpedIndexLayout | apps/tileserver/src/warped-tile-response.ts:237-243 | every channel of every pixel has an index in the 256·256·4 buffer, and no two share one |
| WarpedTile.WarpedIndexOnto | apps/tileserver/src/warped-tile-response.ts:237-243 | every index of the buffer belongs to one channel of one pixel |
| WarpedTile.FirstTile | apps/tileserver/src/warped-tile-response.ts:149-162 | the first tile in list order whose closed box holds the position, or none |
| WarpedTile.FindTile | apps/tileserver/src/warped-tile-response.ts:144-162 | the search loop with `break` finds exactly that tile |
| WarpedTile.Neighbours | apps/tileserver/src/warped-tile-response.ts:195-204 | the clamped floor is at least 0 and the clamped ceiling at most size-1; inside the tile they are floor and ceiling, at most one apart |
| WarpedTile.WeightsProperties | apps/tileserver/src/warped-tile-response.ts:233-256 | the four bilinear weights sum to 1, are not negative for fractional parts, and select pixel 0 at whole positions |
| WarpedTile.ConvexBlend | apps/tileserver/src/warped-tile-response.ts:242-256 | non-negative weights summing to one blend bytes into [0, 255] |
| WarpedTile.FloorOfByteRange | apps/tileserver/src/warped-tile-response.ts:243 | storing a value in [0, 255] into the `Uint8Array` keeps its floor |
| WarpedTile.BlendIsByte | apps/tileserver/src/warped-tile-response.ts:242-256 | the blended value is a byte that the buffer stores rounded down, never wrapped |
| WarpedTile.WholePositionCopiesSample | apps/tileserver/src/warped-tile-response.ts:233-256 | at a whole position the warped value is sample 0 exactly |
| WarpedTile.WholePositionOnePixel | apps/tileserver/src/warped-tile-response.ts:192-231 | inside the image, the four neighbours of a whole position are one pixel |
| WarpedTile.PixelColor | apps/tileserver/src/warped-tile-response.ts:124-258 | a warped pixel outside the mask, or on no tile, gets no colour; a coloured pixel lies on some tile |
| WarpedTile.DrawPixel | apps/tileserver/src/warped-tile-response.ts:124-258 | the pixel's four channels get the map's colour when it has one and keep their value otherwise; no other byte changes |
| WarpedTile.DrawMap | apps/tileserver/src/warped-tile-response.ts:114-260 | both pixel loops draw every channel of every pixel that way |
| WarpedTile.LastMapWins | apps/tileserver/src/warped-tile-response.ts:39-261 | a pixel holds the colour of the last map that colours it |
| WarpedTile.UncolouredStaysZero | apps/tileserver/src/warped-tile-response.ts:33-261 | a pixel no map colours stays 0 |
| WarpedTile.CreateWarpedTile | apps/tileserver/src/warped-tile-response.ts:26-261 | a negative x, y or z fails first; then a map without a resource mask fails the whole request; otherwise every byte is the final channel value over all maps |
| StdBBox.Flatten | packages/stdlib/src/bbox.ts:24-26 | a line string as it is; a polygon's positions are those of its rings |
| StdBBox.BoundingBoxUnique | packages/stdlib/src/bbox.ts:21-40 | a list of positions has at most one bounding box |
| StdBBox.ComputeExtent | packages/stdlib/src/bbox.ts:5-19 | empty exactly when there are no values; otherwise both bounds are values and every value lies between them |
| StdBBox.ComputeBbox | packages/stdlib/src/bbox.ts:21-40 | no box exactly when there are no positions; otherwise the bounding box of the (flattened) positions |
| StdBBox.CombineBBoxes | packages/stdlib/src/bbox.ts:42-49 | the smallest box around both boxes: each edge is the outer of the two |
| StdBBox.CombineBBoxesContains | packages/stdlib/src/bbox.ts:42-49 | every position inside either box is inside their combination |
| StdBBox.CombineBBoxesLaws | packages/stdlib/src/bbox.ts:42-49 | combining is commutative, idempotent and associative |
| StdBBox.BboxToPolygon | packages/stdlib/src/bbox.ts:51-60 | one ring of four corners in the order (x0,y0), (x1,y0), (x1,y1), (x0,y1) |
| StdBBox.BboxToPolygonBounds | packages/stdlib/src/bbox.ts:51-60 | a well-ordered box is the bounding box of its own polygon |
| StdBBox.BboxRoundTrip | packages/stdlib/src/bbox.ts:21-60 | computing the box of the polygon of a well-ordered box gives the box back |
| StdGeojson.GuardsExclusive | packages/stdlib/src/geojson.ts:26-52 | each guard needs its own `type` tag, so no value passes two of them |
| StdGeojson.GuardsRejectBareCoordinates | packages/stdlib/src/geojson.ts:26-67 | a bare coordinate list, without a `type`, passes no guard |
| StdGeojson.GuardsImplyGeometry | packages/stdlib/src/geojson.ts:26-67 | a value that passes a specific guard passes `isGeojsonGeometry` |
| StdGeojson.ConvertGeojsonPolygonToRing | packages/stdlib/src/geojson.ts:83-90 | fails exactly when conforming the outer ring fails, the outer ring being `undefined` for a polygon with no rings; the conformed ring, followed by its first point only when closing |
| StdGeojson.ConvertGeojsonPolygonToPolygon | packages/stdlib/src/geojson.ts:92-99 | fails exactly when conforming fails; the conformed rings, each followed by its first point only when closing |
| StdGeojson.ConvertGeojsonToSvg | packages/stdlib/src/geojson.ts:103-122 | Point to circle, LineString to polyline and Polygon to polygon with only the outer ring, coordinates kept; a polygon without rings gives `undefined` coordinates |
| StdGeojson.GeometryToFeature | packages/stdlib/src/geojson.ts:126-135 | the geometry kept, and the properties when truthy, `{}` otherwise |
| StdGeojson.FeaturesToFeatureCollection | packages/stdlib/src/geojson.ts:137-147 | one feature is wrapped in a list, and a list is kept |
| StdGeojson.GeometriesToFeatureCollection | packages/stdlib/src/geojson.ts:149-161 | one feature per geometry, in order, paired with the properties at the same index or `{}` |

A map without a resource mask is not skipped by the tile server:
apps/tileserver/src/warped-tile-response.ts:42-47 throws, so one such map fails the whole
request (`WarpedTile.CreateWarpedTile`).

## Left out

- Transformers are the two functions `forward` and `backward`; the polynomial, thin-plate-spline and projective fits themselves, and the accuracy of any fit, are not modelled.
- The great-circle midpoint and distance (`@turf/midpoint`, `@turf/distance`) are an abstract metric parameter; only the planar ones are computed.
- `rewindGeometry` in `makeGeoJSONPolygon` (packages/transform/src/shared/geojson.ts:58-65) is a foreign call; `TransformGeojson.ToGeoJsonPolygon` describes the ring before rewinding.
- `toGeoJSONPoint` and `fromGeoJSONPoint` are single transformer calls and have no model of their own.
- `conformRing`, `conformLineString`, `conformPolygon`, `isPosition`, `isLineString` and `isPolygon` live in packages/stdlib/src/geometry.ts, which is not part of this model; they are parameters with the contracts their callers rely on.
- Floating point: reals replace IEEE doubles, so rounding, overflow to infinity and NaN are not modelled, except the `0 / 0` of `tilesIntersect`, which the as-written walk keeps.
- TransformHelpers.TransformLineString, TransformHelpers.TransformRing and the `TransformGeojson` entry points: when refinement happens, their contracts give the size bounds and the transformed ends, not the value of every inserted point. Those points, and the tolerance every refined segment meets, are described one level down, by `TransformHelpers.Refine`, `TransformHelpers.RefineAllConsistent` and `TransformHelpers.RefineAllSettled`.
- RadialBasis: the `ml-matrix` inverse, the kernel and the norm are parameters. The inverse is total here, but `ml-matrix` fails on a singular block matrix (for example when two source positions coincide); that failure is not modelled, so `RadialBasis.TryCreate` succeeds for every three or more positions. The fit reproduces the destinations only when the inverse is a right inverse, which is a requirement of the lemma.
- RadialBasis.Rbf.Interpolate: the `'Weights not computed'` throw cannot happen after the constructor and is not modelled.
- ProjectiveTransformer: the `Projective` interpolant is the result of an abstract `fit`.
- AnnotationParser.MatchPointsFromProperties: the regular expression `points="(?<points>.+)"` is only partly characterised. The lemma says what a match is, not that it is the leftmost, greedy one; the function itself follows the leftmost match and the last quote on its line.
- AnnotationParser: Zod schema validation, the version detection of `parseAnnotation`, `parseImageService`, `parsePartOf` and the constant `@context` and `type` fields of `getMap` are not modelled. Versions are a field of the parsed annotation.
- AnnotationParser: `parseFloat` is an abstract parameter, so the NaN it gives for a malformed number is whatever that parameter returns.
- RenderWorld: map ids are given, so `getMapId` and `generateChecksum` are not modelled. The same holds for `fetchImageInfo`, `IIIFImage.parse`, `generateId`, building the `GCPTransformer`, the full-image masks and the event dispatch. The stored `toGeoJSONPolygon` is a parameter that can fail, as `TransformGeojson.ToGeoJsonPolygon` does for fewer than three points; the model does not tie the two together.
- RenderWorld: the R-tree is an optional map from id to geo mask, and `searchBBox` is a parameter.
- RenderWorld: `addMap` and `removeMap` validate their input with `validateMap`, which is not modelled; `addGeoreferenceAnnotation` runs its additions concurrently with `Promise.allSettled`, a concurrency model left out.
- RenderWorld: `getZIndex`, `getMaps`, `getMap` and `setImageInfoCache` only read or set one field and are not modelled. Neither is the rethrow of values that are not `Error`.
- RenderWorld.World.SetPixelMask: the source updates the stored `WarpedMap` object in place, and the model replaces the record in the map. Another holder of the same object is not modelled.
- Sorting.SortByKey: the contract states sorted and a permutation, not stability.
- Tiles: the `Image` of the IIIF parser is a list of zoom levels and an image size.
- Tiles: the `for … in` order of `iiifTilesByXToArray` is modelled as the engine's order for integer keys: non-negative keys ascending, then the others.
- StdGeojson: the `Unsupported GeoJSON geometry` throw cannot happen for a geometry of the three kinds and is not modelled. `convertGeojsonPointToPosition` and `convertGeojsonLineStringToLineString` only return a field and are not modelled.
- StdBBox.ComputeExtent: the `min === undefined` branch can never be taken and is not modelled, and the empty extent `[+Infinity, -Infinity]` is a constructor of its own.
- WarpedTile: fetching, `Image.parse`, JPEG decoding and PNG encoding are I/O. `tileToLongitude`, `tileToLatitude`, `xyzTileToGeoBBox` and `pointInPolygon` are parameters, and so are the tiles a map needs.

## Findings

| source | as written | input that shows it | evidently intended | confidence | as-written member | corrected member |
|---|---|---|---|---|---|---|
| packages/render/src/shared/tiles.ts:93-109 | for an edge along an integer row, `tMaxY` is `0 / 0`, so `tMaxX < tMaxY` is always false and the loop steps `y` by 0 forever | a = (0.5, 0), b = (1.5, 0) | step along x to the end cell, giving the cells (0, 0) and (1, 0) | high, not executed | TileWalk.HorizontalEdgeNeverEnds | TileWalk.TilesIntersect |
| packages/render/src/shared/tiles.ts:99-109 | for an edge ending exactly on a grid corner, the tie `tMaxX == tMaxY` steps `y` past its end row while `x` is not yet at its end column, and the loop never stops | a = (0.5, 1.5), b = (1, 1) | step along x when y is already at its end, giving the cells (0, 1) and (1, 1) | high, not executed | TileWalk.CornerEndNeverEnds | TileWalk.TilesIntersect |
| packages/render/src/World.ts:161-167 | `removeMap` removes the map but not the hole it leaves in the z-indices, so `bringToFront`, which starts numbering at the number of maps, can leave a listed map below an unlisted one | add A, B, C, D; `removeMap` A; `removeMap` B; `bringToFront(['C'])` | remove the holes after removing, as `removeGeoreferenceAnnotation` does, so C ends on top | medium, not executed | RenderWorld.RemoveMapLeavesHoles | RenderWorld.World.RemoveMap |
