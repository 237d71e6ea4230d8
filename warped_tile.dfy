/**
 * The per-pixel warp of the tile server (apps/tileserver/src/warped-tile-response.ts):
 * every pixel of a 256 x 256 XYZ tile is taken back to resource coordinates, checked
 * against the map's resource mask, looked up in the map's IIIF tiles and coloured by
 * bilinear interpolation into an RGBA buffer of bytes.
 */
module WarpedTile {
  import opened Geometry
  import opened Wrappers
  import opened Tiles

  const NotPositive: string := "x, y and z must be positive integers"
  const NoResourceMask: string := "Map does not have resourceMask"

  const TileSize: int := 256
  const Channels: int := 4
  const BufferLength: int := TileSize * TileSize * Channels

  /** An element of a `Uint8Array`. */
  type Byte = x: int | 0 <= x < 256

  datatype XyzTile = XyzTile(x: int, y: int, z: int)

  /** A decoded IIIF tile image: its width in pixels and its RGBA bytes. */
  datatype DecodedImage = DecodedImage(width: int, data: seq<Byte>)

  /**
   * One map as the pixel loop sees it: its resource mask (`None` when the map has none),
   * the transformer's `transformToResource`, and the IIIF tiles planned for this XYZ tile
   * with their decoded images, in the same order.
   */
  datatype MapInput = MapInput(
    resourceMask: Option<seq<Pos>>,
    transformToResource: Pos -> Pos,
    tiles: seq<Tile>,
    images: seq<DecodedImage>)

  /** `tileToLongitude`, `tileToLatitude` and `pointInPolygon`, which this model takes as given. */
  datatype GeoFunctions = GeoFunctions(
    tileToLongitude: (real, int) -> real,
    tileToLatitude: (real, int) -> real,
    pointInPolygon: (Pos, seq<Pos>) -> bool)

  // ---------------------------------------------------------------------------
  // Buffer indices

  /** `pixelToIndex`. */
  function PixelToIndex(pixelX: int, pixelY: int, width: int, channels: int): int
  {
    (pixelY * width + pixelX) * channels
  }

  /** Where channel `c` of pixel `(x, y)` of the warped tile is stored. */
  function WarpedIndex(x: int, y: int, c: int): int
  {
    PixelToIndex(x, y, TileSize, Channels) + c
  }

  predicate InTilePixel(x: int, y: int, c: int)
  {
    0 <= x < TileSize && 0 <= y < TileSize && 0 <= c < Channels
  }

  /** Every channel of every pixel has a place in the buffer, and no two share one. */
  lemma WarpedIndexLayout(x: int, y: int, c: int, x': int, y': int, c': int)
    requires InTilePixel(x, y, c) && InTilePixel(x', y', c')
    ensures 0 <= WarpedIndex(x, y, c) < BufferLength
    ensures WarpedIndex(x, y, c) == WarpedIndex(x', y', c') ==> x == x' && y == y' && c == c'
  {
  }

  /** Every place in the buffer belongs to one channel of one pixel. */
  lemma WarpedIndexOnto(i: int)
    requires 0 <= i < BufferLength
    ensures InTilePixel((i / Channels) % TileSize, (i / Channels) / TileSize, i % Channels)
    ensures WarpedIndex((i / Channels) % TileSize, (i / Channels) / TileSize, i % Channels) == i
  {
  }

  // ---------------------------------------------------------------------------
  // From a warped pixel to a resource position

  /** The resource position of warped pixel `(px, py)`: through longitude and latitude, then the transformer. */
  function ResourcePosition(m: MapInput, geo: GeoFunctions, xyz: XyzTile, px: int, py: int): Pos
  {
    var warpedTilePixelGeo := Pos(
      geo.tileToLongitude(xyz.x as real + px as real / TileSize as real, xyz.z),
      geo.tileToLatitude(xyz.y as real + py as real / TileSize as real, xyz.z));
    m.transformToResource(warpedTilePixelGeo)
  }

  /** The tile search test: the closed, unclipped source box of the tile. */
  predicate InSourceBox(tile: Tile, p: Pos)
  {
    var tileXMin := tile.column as real * tile.zoomLevel.originalWidth;
    var tileYMin := tile.row as real * tile.zoomLevel.originalHeight;
    && tileXMin <= p.x <= tileXMin + tile.zoomLevel.originalWidth
    && tileYMin <= p.y <= tileYMin + tile.zoomLevel.originalHeight
  }

  function FirstTileFrom(tiles: seq<Tile>, p: Pos, k: nat): (r: Option<nat>)
    requires k <= |tiles|
    decreases |tiles| - k
    ensures r.Some? ==>
      && k <= r.value < |tiles| && InSourceBox(tiles[r.value], p)
      && forall j :: k <= j < r.value ==> !InSourceBox(tiles[j], p)
    ensures r.None? ==> forall j :: k <= j < |tiles| ==> !InSourceBox(tiles[j], p)
  {
    if k == |tiles| then None
    else if InSourceBox(tiles[k], p) then Some(k)
    else FirstTileFrom(tiles, p, k + 1)
  }

  /** The first tile, in list order, whose box holds `p`. */
  function FirstTile(tiles: seq<Tile>, p: Pos): (r: Option<nat>)
    ensures r.Some? ==>
      && r.value < |tiles| && InSourceBox(tiles[r.value], p)
      && forall j :: 0 <= j < r.value ==> !InSourceBox(tiles[j], p)
    ensures r.None? ==> forall j :: 0 <= j < |tiles| ==> !InSourceBox(tiles[j], p)
  {
    FirstTileFrom(tiles, p, 0)
  }

  /** The search loop with `break`. */
  method FindTile(tiles: seq<Tile>, p: Pos) returns (foundTile: bool, tileIndex: int)
    ensures foundTile <==> FirstTile(tiles, p).Some?
    ensures foundTile ==> tileIndex == FirstTile(tiles, p).value
  {
    foundTile := false;
    tileIndex := 0;
    while tileIndex < |tiles|
      invariant 0 <= tileIndex <= |tiles|
      invariant forall j :: 0 <= j < tileIndex ==> !InSourceBox(tiles[j], p)
    {
      if InSourceBox(tiles[tileIndex], p) {
        foundTile := true;
        break;
      }
      tileIndex := tileIndex + 1;
    }
  }

  // ---------------------------------------------------------------------------
  // Bilinear interpolation

  function Ceil(v: real): int
  {
    -((-v).Floor)
  }

  /** `Math.max(Math.floor(v), 0)` and `Math.min(Math.ceil(v), size - 1)`. */
  function Neighbours(v: real, size: int): (r: (int, int))
    ensures 0 <= r.0 && r.1 <= size - 1
    ensures 0.0 <= v <= (size - 1) as real ==> r.0 == v.Floor && r.1 == Ceil(v) && r.0 <= r.1 <= r.0 + 1
  {
    (if v.Floor >= 0 then v.Floor else 0, if Ceil(v) <= size - 1 then Ceil(v) else size - 1)
  }

  /** The position of `p` on the tile's image, in its own pixels. */
  function PixelOnTile(tile: Tile, p: Pos): Pos
    requires tile.zoomLevel.scaleFactor > 0.0
  {
    Pos((p.x - tile.column as real * tile.zoomLevel.originalWidth) / tile.zoomLevel.scaleFactor,
        (p.y - tile.row as real * tile.zoomLevel.originalHeight) / tile.zoomLevel.scaleFactor)
  }

  /** The buffer indices of the four surrounding pixels 0, 1, 2, 3 on the decoded image. */
  function NeighbourIndices(tile: Tile, image: DecodedImage, q: Pos): (r: seq<int>)
    ensures |r| == 4
  {
    var (xFloor, xCeil) := Neighbours(q.x, tile.zoomLevel.width);
    var (yFloor, yCeil) := Neighbours(q.y, tile.zoomLevel.width);
    [PixelToIndex(xFloor, yFloor, image.width, Channels),
     PixelToIndex(xCeil, yFloor, image.width, Channels),
     PixelToIndex(xFloor, yCeil, image.width, Channels),
     PixelToIndex(xCeil, yCeil, image.width, Channels)]
  }

  /** The weights of the four surrounding pixels for the fractional parts `dx`, `dy`. */
  function Weights(dx: real, dy: real): (w: seq<real>)
    ensures |w| == 4
  {
    [(1.0 - dx) * (1.0 - dy), dx * (1.0 - dy), (1.0 - dx) * dy, dx * dy]
  }

  /** The weights add up to one, are not negative for fractional parts, and select pixel 0 at whole positions. */
  lemma WeightsProperties(dx: real, dy: real)
    ensures Weights(dx, dy)[0] + Weights(dx, dy)[1] + Weights(dx, dy)[2] + Weights(dx, dy)[3] == 1.0
    ensures 0.0 <= dx <= 1.0 && 0.0 <= dy <= 1.0 ==> forall k :: 0 <= k < 4 ==> Weights(dx, dy)[k] >= 0.0
    ensures dx == 0.0 && dy == 0.0 ==> Weights(dx, dy) == [1.0, 0.0, 0.0, 0.0]
  {
    if 0.0 <= dx <= 1.0 && 0.0 <= dy <= 1.0 {
      ProductNonNegative(1.0 - dx, 1.0 - dy);
      ProductNonNegative(dx, 1.0 - dy);
      ProductNonNegative(1.0 - dx, dy);
      ProductNonNegative(dx, dy);
    }
  }

  lemma ProductNonNegative(a: real, b: real)
    requires a >= 0.0 && b >= 0.0
    ensures a * b >= 0.0
  {
  }

  /** A byte of the decoded image; reading past the data gives `undefined`. */
  function Sample(image: DecodedImage, index: int): Option<Byte>
  {
    if 0 <= index < |image.data| then Some(image.data[index]) else None
  }

  /**
   * Storing a number into a `Uint8Array`: NaN becomes 0, anything else is truncated
   * towards zero and taken modulo 256.
   */
  function ToUint8(v: real): Byte
  {
    var t := if v >= 0.0 then v.Floor else -((-v).Floor);
    t % 256
  }

  /** The blend of the four samples; any `undefined` sample makes it NaN, stored as 0. */
  function ChannelValue(image: DecodedImage, indices: seq<int>, color: int, dx: real, dy: real): Byte
    requires |indices| == 4
  {
    var s0, s1, s2, s3 := Sample(image, indices[0] + color), Sample(image, indices[1] + color),
      Sample(image, indices[2] + color), Sample(image, indices[3] + color);
    if s0.None? || s1.None? || s2.None? || s3.None? then 0
    else
      ToUint8(Blend(s0.value, s1.value, s2.value, s3.value, Weights(dx, dy)))
  }

  /** The four samples weighted by `w`. */
  function Blend(s0: Byte, s1: Byte, s2: Byte, s3: Byte, w: seq<real>): real
    requires |w| == 4
  {
    s0 as real * w[0] + s1 as real * w[1] + s2 as real * w[2] + s3 as real * w[3]
  }

  /** A convex blend of bytes is a byte: the stored value is the blend rounded down, never wrapped. */
  lemma BlendIsByte(s0: Byte, s1: Byte, s2: Byte, s3: Byte, dx: real, dy: real)
    requires 0.0 <= dx <= 1.0 && 0.0 <= dy <= 1.0
    ensures var v := Blend(s0, s1, s2, s3, Weights(dx, dy));
      0.0 <= v <= 255.0 && ToUint8(v) == v.Floor
  {
    var w := Weights(dx, dy);
    WeightsProperties(dx, dy);
    assert w[0] >= 0.0 && w[1] >= 0.0 && w[2] >= 0.0 && w[3] >= 0.0;
    ConvexBlend(s0, s1, s2, s3, w);
    FloorOfByteRange(Blend(s0, s1, s2, s3, w));
  }

  /** Between 0 and 255, the stored byte is the value rounded down. */
  lemma FloorOfByteRange(v: real)
    requires 0.0 <= v <= 255.0
    ensures ToUint8(v) == v.Floor
  {
    assert 0 <= v.Floor <= 255;
  }

  /** Non-negative weights adding up to one blend bytes into `[0, 255]`. */
  lemma ConvexBlend(s0: Byte, s1: Byte, s2: Byte, s3: Byte, w: seq<real>)
    requires |w| == 4 && w[0] >= 0.0 && w[1] >= 0.0 && w[2] >= 0.0 && w[3] >= 0.0
    requires w[0] + w[1] + w[2] + w[3] == 1.0
    ensures 0.0 <= Blend(s0, s1, s2, s3, w) <= 255.0
  {
    var t0 := BoundedTerm(s0 as real, w[0]);
    var t1 := BoundedTerm(s1 as real, w[1]);
    var t2 := BoundedTerm(s2 as real, w[2]);
    var t3 := BoundedTerm(s3 as real, w[3]);
    SumOfBoundedTerms(t0, t1, t2, t3, w[0], w[1], w[2], w[3]);
  }

  /** `s * w`, between 0 and `255 * w`. */
  lemma BoundedTerm(s: real, w: real) returns (t: real)
    requires 0.0 <= s <= 255.0 && w >= 0.0
    ensures t == s * w && 0.0 <= t <= 255.0 * w
  {
    ProductNonNegative(s, w);
    ProductNonNegative(255.0 - s, w);
    t := s * w;
  }

  lemma SumOfBoundedTerms(t0: real, t1: real, t2: real, t3: real, w0: real, w1: real, w2: real, w3: real)
    requires 0.0 <= t0 <= 255.0 * w0 && 0.0 <= t1 <= 255.0 * w1 && 0.0 <= t2 <= 255.0 * w2 && 0.0 <= t3 <= 255.0 * w3
    requires w0 + w1 + w2 + w3 == 1.0
    ensures 0.0 <= t0 + t1 + t2 + t3 <= 255.0
  {
  }

  /** At a whole position with every sample present, the warped value is sample 0 exactly. */
  lemma WholePositionCopiesSample(image: DecodedImage, indices: seq<int>, color: int)
    requires |indices| == 4
    requires forall k :: 0 <= k < 4 ==> Sample(image, indices[k] + color).Some?
    ensures ChannelValue(image, indices, color, 0.0, 0.0) == Sample(image, indices[0] + color).value
  {
    WeightsProperties(0.0, 0.0);
    var s0 := Sample(image, indices[0] + color).value;
    assert (s0 as real).Floor == s0;
    assert Sample(image, indices[0] + color).Some?;
    assert Sample(image, indices[1] + color).Some?;
    assert Sample(image, indices[2] + color).Some?;
    assert Sample(image, indices[3] + color).Some?;
    assert Blend(s0, Sample(image, indices[1] + color).value, Sample(image, indices[2] + color).value,
      Sample(image, indices[3] + color).value, [1.0, 0.0, 0.0, 0.0]) == s0 as real;
  }

  /** Inside the tile's image the four neighbours of a whole position are one pixel. */
  lemma WholePositionOnePixel(tile: Tile, image: DecodedImage, q: Pos)
    requires q.x.Floor as real == q.x && q.y.Floor as real == q.y
    requires 0.0 <= q.x <= (tile.zoomLevel.width - 1) as real && 0.0 <= q.y <= (tile.zoomLevel.width - 1) as real
    ensures forall k :: 0 <= k < 4 ==> NeighbourIndices(tile, image, q)[k] == NeighbourIndices(tile, image, q)[0]
  {
    assert Ceil(q.x) == q.x.Floor && Ceil(q.y) == q.y.Floor;
  }

  // ---------------------------------------------------------------------------
  // One pixel, one map

  /** The scale factors of the map's tiles are positive, as IIIF zoom levels are. */
  predicate ValidTiles(m: MapInput)
  {
    forall k :: 0 <= k < |m.tiles| ==> m.tiles[k].zoomLevel.scaleFactor > 0.0
  }

  /**
   * The colour the map gives warped pixel `(px, py)`, or `None` when the pixel is left as
   * it was: outside the mask, on no tile, or on a tile without a decoded image.
   */
  function PixelColor(m: MapInput, geo: GeoFunctions, xyz: XyzTile, px: int, py: int): (r: Option<seq<Byte>>)
    requires m.resourceMask.Some? && ValidTiles(m)
    ensures r.Some? ==> |r.value| == Channels
    ensures !geo.pointInPolygon(ResourcePosition(m, geo, xyz, px, py), m.resourceMask.value) ==> r.None?
    ensures FirstTile(m.tiles, ResourcePosition(m, geo, xyz, px, py)).None? ==> r.None?
    ensures r.Some? ==> exists k :: 0 <= k < |m.tiles| && k < |m.images| && InSourceBox(m.tiles[k], ResourcePosition(m, geo, xyz, px, py))
  {
    var p := ResourcePosition(m, geo, xyz, px, py);
    if !geo.pointInPolygon(p, m.resourceMask.value) then None
    else match FirstTile(m.tiles, p)
      case None => None
      case Some(k) =>
        if k >= |m.images| then None
        else
          var q := PixelOnTile(m.tiles[k], p);
          var indices := NeighbourIndices(m.tiles[k], m.images[k], q);
          Some(seq(Channels, c => ChannelValue(m.images[k], indices, c, q.x - q.x.Floor as real, q.y - q.y.Floor as real)))
  }

  /** Channel `c` of warped pixel `(px, py)` after the map is drawn over `before`. */
  function MapChannel(before: Byte, m: MapInput, geo: GeoFunctions, xyz: XyzTile, px: int, py: int, c: int): Byte
    requires m.resourceMask.Some? && ValidTiles(m) && 0 <= c < Channels
  {
    match PixelColor(m, geo, xyz, px, py)
    case None => before
    case Some(color) => color[c]
  }

  /** The loop body for one warped pixel. */
  method DrawPixel(warpedTile: array<Byte>, m: MapInput, geo: GeoFunctions, xyz: XyzTile, px: int, py: int)
    requires warpedTile.Length == BufferLength && 0 <= px < TileSize && 0 <= py < TileSize
    requires m.resourceMask.Some? && ValidTiles(m)
    modifies warpedTile
    ensures forall c :: 0 <= c < Channels ==>
      warpedTile[WarpedIndex(px, py, c)] == MapChannel(old(warpedTile[WarpedIndex(px, py, c)]), m, geo, xyz, px, py, c)
    ensures forall i :: 0 <= i < warpedTile.Length && !(WarpedIndex(px, py, 0) <= i < WarpedIndex(px, py, 0) + Channels) ==>
      warpedTile[i] == old(warpedTile[i])
  {
    var p := ResourcePosition(m, geo, xyz, px, py);
    var inside := geo.pointInPolygon(p, m.resourceMask.value);
    if !inside {
      return;
    }
    var foundTile, tileIndex := FindTile(m.tiles, p);
    if foundTile && tileIndex < |m.images| {
      var tile := m.tiles[tileIndex];
      var decodedImage := m.images[tileIndex];
      var q := PixelOnTile(tile, p);
      var bufferIndices := NeighbourIndices(tile, decodedImage, q);
      var dx := q.x - q.x.Floor as real;
      var dy := q.y - q.y.Floor as real;
      var warpedBufferIndex := WarpedIndex(px, py, 0);
      for color := 0 to Channels
        invariant forall c :: 0 <= c < color ==>
          warpedTile[warpedBufferIndex + c] == ChannelValue(decodedImage, bufferIndices, c, dx, dy)
        invariant forall i :: 0 <= i < warpedTile.Length && !(warpedBufferIndex <= i < warpedBufferIndex + color) ==>
          warpedTile[i] == old(warpedTile[i])
      {
        warpedTile[warpedBufferIndex + color] := ChannelValue(decodedImage, bufferIndices, color, dx, dy);
      }
    }
  }

  /** Both pixel loops for one map. */
  method DrawMap(warpedTile: array<Byte>, m: MapInput, geo: GeoFunctions, xyz: XyzTile)
    requires warpedTile.Length == BufferLength
    requires m.resourceMask.Some? && ValidTiles(m)
    modifies warpedTile
    ensures forall x, y, c :: InTilePixel(x, y, c) ==>
      warpedTile[WarpedIndex(x, y, c)] == MapChannel(old(warpedTile[WarpedIndex(x, y, c)]), m, geo, xyz, x, y, c)
  {
    for px := 0 to TileSize
      invariant forall x, y, c :: InTilePixel(x, y, c) ==>
        warpedTile[WarpedIndex(x, y, c)] ==
          if x < px then MapChannel(old(warpedTile[WarpedIndex(x, y, c)]), m, geo, xyz, x, y, c)
          else old(warpedTile[WarpedIndex(x, y, c)])
    {
      for py := 0 to TileSize
        invariant forall x, y, c :: InTilePixel(x, y, c) ==>
          warpedTile[WarpedIndex(x, y, c)] ==
            if x < px || (x == px && y < py) then MapChannel(old(warpedTile[WarpedIndex(x, y, c)]), m, geo, xyz, x, y, c)
            else old(warpedTile[WarpedIndex(x, y, c)])
      {
        DrawPixel(warpedTile, m, geo, xyz, px, py);
      }
    }
  }

  // ---------------------------------------------------------------------------
  // The whole tile

  predicate AllMasked(maps: seq<MapInput>)
  {
    forall k :: 0 <= k < |maps| ==> maps[k].resourceMask.Some? && ValidTiles(maps[k])
  }

  /** Channel `c` of warped pixel `(x, y)` after all maps are drawn, in order, over zeros. */
  function FinalChannel(maps: seq<MapInput>, geo: GeoFunctions, xyz: XyzTile, x: int, y: int, c: int): Byte
    requires AllMasked(maps) && 0 <= c < Channels
  {
    if maps == [] then 0
    else MapChannel(FinalChannel(maps[..|maps| - 1], geo, xyz, x, y, c), maps[|maps| - 1], geo, xyz, x, y, c)
  }

  /**
   * Later maps overwrite earlier ones: a pixel holds the colour of the last map that
   * colours it, and stays 0 when none does.
   */
  lemma {:induction false} LastMapWins(maps: seq<MapInput>, geo: GeoFunctions, xyz: XyzTile, x: int, y: int, c: int, k: int)
    requires AllMasked(maps) && 0 <= c < Channels
    requires 0 <= k < |maps| && PixelColor(maps[k], geo, xyz, x, y).Some?
    requires forall j :: k < j < |maps| ==> PixelColor(maps[j], geo, xyz, x, y).None?
    ensures FinalChannel(maps, geo, xyz, x, y, c) == PixelColor(maps[k], geo, xyz, x, y).value[c]
    decreases |maps|
  {
    if k < |maps| - 1 {
      LastMapWins(maps[..|maps| - 1], geo, xyz, x, y, c, k);
    }
  }

  lemma {:induction false} UncolouredStaysZero(maps: seq<MapInput>, geo: GeoFunctions, xyz: XyzTile, x: int, y: int, c: int)
    requires AllMasked(maps) && 0 <= c < Channels
    requires forall j :: 0 <= j < |maps| ==> PixelColor(maps[j], geo, xyz, x, y).None?
    ensures FinalChannel(maps, geo, xyz, x, y, c) == 0
    decreases |maps|
  {
    if maps != [] {
      UncolouredStaysZero(maps[..|maps| - 1], geo, xyz, x, y, c);
    }
  }

  /**
   * `createWarpedTileResponse` up to the PNG encoding: a negative tile coordinate fails
   * before any work, a map without a resource mask fails the whole request, and otherwise
   * every map is drawn in order into a zeroed buffer.
   */
  method CreateWarpedTile(maps: seq<MapInput>, geo: GeoFunctions, xyz: XyzTile) returns (r: Result<array<Byte>>)
    requires forall k :: 0 <= k < |maps| ==> ValidTiles(maps[k])
    ensures !(xyz.x >= 0 && xyz.y >= 0 && xyz.z >= 0) ==> r == Failure(NotPositive)
    ensures xyz.x >= 0 && xyz.y >= 0 && xyz.z >= 0 ==>
      (r.Failure? <==> exists k :: 0 <= k < |maps| && maps[k].resourceMask.None?)
    ensures xyz.x >= 0 && xyz.y >= 0 && xyz.z >= 0 && r.Failure? ==> r.error == NoResourceMask
    ensures r.Success? ==>
      && AllMasked(maps) && fresh(r.value) && r.value.Length == BufferLength
      && forall x, y, c :: InTilePixel(x, y, c) ==> r.value[WarpedIndex(x, y, c)] == FinalChannel(maps, geo, xyz, x, y, c)
  {
    var warpedTile := new Byte[BufferLength](_ => 0);
    if !(xyz.x >= 0 && xyz.y >= 0 && xyz.z >= 0) {
      return Failure(NotPositive);
    }
    for i := 0 to |maps|
      invariant AllMasked(maps[..i])
      invariant forall x, y, c :: InTilePixel(x, y, c) ==> warpedTile[WarpedIndex(x, y, c)] == FinalChannel(maps[..i], geo, xyz, x, y, c)
    {
      if maps[i].resourceMask.None? {
        return Failure(NoResourceMask);
      }
      assert maps[..i + 1][..i] == maps[..i];
      DrawMap(warpedTile, maps[i], geo, xyz);
    }
    assert maps[..|maps|] == maps;
    return Success(warpedTile);
  }
}
