/**
 * Tile planning: packages/render/src/shared/tiles.ts. A resource polygon is scaled to
 * tile units, its edges are walked over the tile grid, each column keeps the lowest
 * and highest row met, the tiles in range are listed, and they are ordered by their
 * distance to the centre of the polygon.
 */
module Tiles {
  import opened Geometry
  import opened Wrappers
  import opened StdBBox
  import opened TileWalk
  import opened Sorting

  /** A IIIF tile zoom level. */
  datatype ZoomLevel = ZoomLevel(
    scaleFactor: real,
    width: int, height: int,
    originalWidth: real, originalHeight: real,
    columns: int, rows: int)

  /** A `[width, height]` pair. */
  datatype Size = Size(width: real, height: real)

  datatype Tile = Tile(column: int, row: int, zoomLevel: ZoomLevel, imageSize: Size)

  // ---------------------------------------------------------------------------
  // One tile

  /** `tileBBox`: the tile's cell of the image, its far edges clipped to the image. */
  function TileBBox(tile: Tile): (r: BBox)
    ensures r.minX == tile.column as real * tile.zoomLevel.originalWidth
    ensures r.minY == tile.row as real * tile.zoomLevel.originalHeight
    ensures r.maxX <= r.minX + tile.zoomLevel.originalWidth && r.maxX <= tile.imageSize.width
    ensures r.maxX == r.minX + tile.zoomLevel.originalWidth || r.maxX == tile.imageSize.width
    ensures r.maxY <= r.minY + tile.zoomLevel.originalHeight && r.maxY <= tile.imageSize.height
    ensures r.maxY == r.minY + tile.zoomLevel.originalHeight || r.maxY == tile.imageSize.height
  {
    var xMin := tile.column as real * tile.zoomLevel.originalWidth;
    var yMin := tile.row as real * tile.zoomLevel.originalHeight;
    BBox(xMin, yMin,
      Min(xMin + tile.zoomLevel.originalWidth, tile.imageSize.width),
      Min(yMin + tile.zoomLevel.originalHeight, tile.imageSize.height))
  }

  /** `tileCenter`: the midpoint of the tile's box. */
  function TileCenter(tile: Tile): (c: Pos)
    ensures c.x == (TileBBox(tile).minX + TileBBox(tile).maxX) / 2.0
    ensures c.y == (TileBBox(tile).minY + TileBBox(tile).maxY) / 2.0
  {
    var b := TileBBox(tile);
    Pos((b.maxX - b.minX) / 2.0 + b.minX, (b.maxY - b.minY) / 2.0 + b.minY)
  }

  /** A tile that starts inside the image has its centre inside its box. */
  lemma TileCenterInside(tile: Tile)
    requires tile.zoomLevel.originalWidth >= 0.0 && tile.zoomLevel.originalHeight >= 0.0
    requires TileBBox(tile).minX <= tile.imageSize.width && TileBBox(tile).minY <= tile.imageSize.height
    ensures ContainsPos(TileBBox(tile), TileCenter(tile))
  {
  }

  /** The clip test of `imageCoordinatesToTileCoordinates`. */
  predicate InTile(tile: Tile, p: Pos)
  {
    var xMin := tile.column as real * tile.zoomLevel.originalWidth;
    var yMin := tile.row as real * tile.zoomLevel.originalHeight;
    && xMin <= p.x <= xMin + tile.zoomLevel.originalWidth
    && yMin <= p.y <= yMin + tile.zoomLevel.originalHeight
    && p.x <= tile.imageSize.width && p.y <= tile.imageSize.height
  }

  /** The clip test is membership of the tile's box. */
  lemma InTileIsInBBox(tile: Tile, p: Pos)
    ensures InTile(tile, p) <==> ContainsPos(TileBBox(tile), p)
  {
  }

  /**
   * `imageCoordinatesToTileCoordinates`: image coordinates relative to the tile's corner,
   * in tile pixels; `None` (the source's `undefined`) when clipping and outside the tile.
   */
  function ImageCoordinatesToTileCoordinates(tile: Tile, p: Pos, clip: bool): (r: Option<Pos>)
    requires tile.zoomLevel.scaleFactor > 0.0
    ensures r.Some? <==> !clip || InTile(tile, p)
    ensures r.Some? ==>
      && r.value.x * tile.zoomLevel.scaleFactor + TileBBox(tile).minX == p.x
      && r.value.y * tile.zoomLevel.scaleFactor + TileBBox(tile).minY == p.y
  {
    var xMin := tile.column as real * tile.zoomLevel.originalWidth;
    var yMin := tile.row as real * tile.zoomLevel.originalHeight;
    var tileX := (p.x - xMin) / tile.zoomLevel.scaleFactor;
    var tileY := (p.y - yMin) / tile.zoomLevel.scaleFactor;
    if !clip || InTile(tile, p) then Some(Pos(tileX, tileY)) else None
  }

  /** `scaleToTiles`: image pixels to tile units of the zoom level. */
  function ScaleToTiles(zoomLevel: ZoomLevel, points: seq<Pos>): (r: seq<Pos>)
    requires zoomLevel.originalWidth > 0.0 && zoomLevel.originalHeight > 0.0
    ensures |r| == |points|
    ensures forall i :: 0 <= i < |r| ==>
      r[i].x * zoomLevel.originalWidth == points[i].x && r[i].y * zoomLevel.originalHeight == points[i].y
  {
    seq(|points|, i requires 0 <= i < |points| =>
      Pos(points[i].x / zoomLevel.originalWidth, points[i].y / zoomLevel.originalHeight))
  }

  // ---------------------------------------------------------------------------
  // Rows needed per column

  /** The lowest and highest row met in one column. */
  datatype RowRange = RowRange(lo: int, hi: int)

  /**
   * One cell of the `forEach` in `findNeededIiifTilesByX`: a new column starts at
   * `[+Infinity, -Infinity]`, which the cell's row then replaces at both ends.
   */
  function AddCell(tiles: map<int, RowRange>, c: Cell): map<int, RowRange>
  {
    if c.x in tiles then
      tiles[c.x := RowRange(
        if c.y < tiles[c.x].lo then c.y else tiles[c.x].lo,
        if c.y > tiles[c.x].hi then c.y else tiles[c.x].hi)]
    else
      tiles[c.x := RowRange(c.y, c.y)]
  }

  function AddCells(tiles: map<int, RowRange>, cells: seq<Cell>): map<int, RowRange>
  {
    if cells == [] then tiles else AddCell(AddCells(tiles, cells[..|cells| - 1]), cells[|cells| - 1])
  }

  /** The cells of edge `i` of the ring, from vertex `i` to the next, wrapping round. */
  function EdgeCells(ring: seq<Pos>, i: nat): seq<Cell>
    requires i < |ring|
  {
    Walk(ring[i], ring[(i + 1) % |ring|])
  }

  /** The cells of the first `k` edges, in order. */
  function RingCells(ring: seq<Pos>, k: nat): seq<Cell>
    requires k <= |ring|
  {
    if k == 0 then [] else RingCells(ring, k - 1) + EdgeCells(ring, k - 1)
  }

  /** What `findNeededIiifTilesByX` returns. */
  function TilesByX(ring: seq<Pos>): map<int, RowRange>
  {
    AddCells(map[], RingCells(ring, |ring|))
  }

  lemma {:induction false} AddCellsConcat(tiles: map<int, RowRange>, a: seq<Cell>, b: seq<Cell>)
    ensures AddCells(tiles, a + b) == AddCells(AddCells(tiles, a), b)
    decreases |b|
  {
    if b == [] {
      assert a + b == a;
    } else {
      var b' := b[..|b| - 1];
      assert (a + b)[..|a + b| - 1] == a + b';
      assert (a + b)[|a + b| - 1] == b[|b| - 1];
      AddCellsConcat(tiles, a, b');
    }
  }

  /**
   * Each column met keeps exactly the lowest and highest row met there: both are rows of
   * cells met, every cell met lies between them, and no other column appears.
   */
  lemma {:induction false} AddCellsRanges(cells: seq<Cell>)
    ensures forall c :: c in cells ==>
      c.x in AddCells(map[], cells) && AddCells(map[], cells)[c.x].lo <= c.y <= AddCells(map[], cells)[c.x].hi
    ensures forall x :: x in AddCells(map[], cells) ==>
      Cell(x, AddCells(map[], cells)[x].lo) in cells && Cell(x, AddCells(map[], cells)[x].hi) in cells
  {
    if cells != [] {
      var init := cells[..|cells| - 1];
      var last := cells[|cells| - 1];
      AddCellsRanges(init);
      assert cells == init + [last];
      var m := AddCells(map[], init);
      var m2 := AddCell(m, last);
      assert AddCells(map[], cells) == m2;
      forall c | c in cells
        ensures c.x in m2 && m2[c.x].lo <= c.y <= m2[c.x].hi
      {
        if c != last {
          assert c in init;
        }
      }
      forall x | x in m2
        ensures Cell(x, m2[x].lo) in cells && Cell(x, m2[x].hi) in cells
      {
        if x != last.x {
          assert x in m;
        }
      }
    }
  }

  /** The cell of every vertex is met: the walk of each edge starts in it. */
  lemma {:induction false} VertexCellsMet(ring: seq<Pos>, k: nat)
    requires k <= |ring|
    ensures forall i :: 0 <= i < k ==> Cell(ring[i].x.Floor, ring[i].y.Floor) in RingCells(ring, k)
  {
    if k > 0 {
      VertexCellsMet(ring, k - 1);
      WalkProperties(ring[k - 1], ring[k % |ring|]);
      assert Cell(ring[k - 1].x.Floor, ring[k - 1].y.Floor) == EdgeCells(ring, k - 1)[0];
    }
  }

  /** Every vertex's column is a key of `TilesByX`, with the vertex's row inside its range. */
  lemma TilesByXCoversVertices(ring: seq<Pos>)
    ensures forall i :: 0 <= i < |ring| ==>
      var x, y := ring[i].x.Floor, ring[i].y.Floor;
      x in TilesByX(ring) && TilesByX(ring)[x].lo <= y <= TilesByX(ring)[x].hi
  {
    VertexCellsMet(ring, |ring|);
    AddCellsRanges(RingCells(ring, |ring|));
  }

  /** `findNeededIiifTilesByX`: walk every edge of the ring and fold its cells into the per-column ranges. */
  method FindNeededIiifTilesByX(tilePixelExtent: seq<Pos>) returns (tiles: map<int, RowRange>)
    ensures tiles == TilesByX(tilePixelExtent)
  {
    tiles := map[];
    for i := 0 to |tilePixelExtent|
      invariant tiles == AddCells(map[], RingCells(tilePixelExtent, i))
    {
      var lineTiles := TilesIntersect(tilePixelExtent[i], tilePixelExtent[(i + 1) % |tilePixelExtent|]);
      ghost var before := tiles;
      for j := 0 to |lineTiles|
        invariant tiles == AddCells(before, lineTiles[..j])
      {
        assert lineTiles[..j + 1][..j] == lineTiles[..j];
        var c := lineTiles[j];
        if c.x !in tiles {
          tiles := tiles[c.x := RowRange(c.y, c.y)];
        } else {
          if c.y < tiles[c.x].lo {
            tiles := tiles[c.x := tiles[c.x].(lo := c.y)];
          }
          if c.y > tiles[c.x].hi {
            tiles := tiles[c.x := tiles[c.x].(hi := c.y)];
          }
        }
      }
      assert lineTiles[..|lineTiles|] == lineTiles;
      AddCellsConcat(map[], RingCells(tilePixelExtent, i), lineTiles);
    }
  }

  // ---------------------------------------------------------------------------
  // Tiles in range

  function IntMax(a: int, b: int): int { if a >= b then a else b }
  function IntMin(a: int, b: int): int { if a <= b then a else b }

  /** A tile `iiifTilesByXToArray` emits: an in-range column met, a row of its range clamped to the grid. */
  predicate IsNeeded(zoomLevel: ZoomLevel, imageSize: Size, tiles: map<int, RowRange>, t: Tile)
  {
    && t.zoomLevel == zoomLevel && t.imageSize == imageSize
    && 0 <= t.column < zoomLevel.columns && t.column in tiles
    && IntMax(tiles[t.column].lo, 0) <= t.row <= IntMin(tiles[t.column].hi, zoomLevel.rows - 1)
  }

  /** Column by column, then row by row. */
  predicate Before(s: Tile, t: Tile)
  {
    s.column < t.column || (s.column == t.column && s.row < t.row)
  }

  predicate Ascending(tiles: seq<Tile>)
  {
    forall i, j :: 0 <= i < j < |tiles| ==> Before(tiles[i], tiles[j])
  }

  lemma Pick(s: set<int>) returns (y: int)
    requires s != {}
    ensures y in s
  {
    if forall k :: k !in s {
      assert false;
    }
    y :| y in s;
  }

  /** A non-empty set of integers has a least element. */
  lemma {:induction false} Least(s: set<int>) returns (m: int)
    requires s != {}
    ensures m in s && forall k :: k in s ==> m <= k
    decreases |s|
  {
    var y := Pick(s);
    if s == {y} {
      m := y;
    } else {
      var m' := Least(s - {y});
      m := if y < m' then y else m';
      forall k | k in s
        ensures m <= k
      {
        if k != y {
          assert k in s - {y};
        }
      }
    }
  }

  /** The tiles of one column, `fromY` to `toY`. */
  function RowTiles(zoomLevel: ZoomLevel, imageSize: Size, x: int, range: RowRange): seq<Tile>
  {
    var fromY := IntMax(range.lo, 0);
    var toY := IntMin(range.hi, zoomLevel.rows - 1);
    seq(if toY >= fromY then toY - fromY + 1 else 0, i => Tile(x, fromY + i, zoomLevel, imageSize))
  }

  /** The tiles of the columns `x` to `columns - 1` that were met, column after column. */
  function ColumnsFrom(zoomLevel: ZoomLevel, imageSize: Size, tiles: map<int, RowRange>, x: int): seq<Tile>
    decreases zoomLevel.columns - x
  {
    if x >= zoomLevel.columns then
      []
    else
      (if x in tiles then RowTiles(zoomLevel, imageSize, x, tiles[x]) else [])
      + ColumnsFrom(zoomLevel, imageSize, tiles, x + 1)
  }

  /**
   * What `iiifTilesByXToArray` returns. `for...in` visits the non-negative integer keys
   * in ascending order before any other key, and the loop stops at the first key that is
   * negative or at least `columns`: so exactly the columns `0` to `columns - 1` that were
   * met are emitted, in ascending order.
   */
  function NeededTiles(zoomLevel: ZoomLevel, imageSize: Size, tiles: map<int, RowRange>): seq<Tile>
  {
    ColumnsFrom(zoomLevel, imageSize, tiles, 0)
  }

  /** Columns that were not met add nothing. */
  lemma {:induction false} SkipColumns(zoomLevel: ZoomLevel, imageSize: Size, tiles: map<int, RowRange>, low: int, x: int)
    requires low <= x
    requires forall k :: low <= k < x ==> k !in tiles
    ensures ColumnsFrom(zoomLevel, imageSize, tiles, low) == ColumnsFrom(zoomLevel, imageSize, tiles, x)
    decreases x - low
  {
    if low < x {
      SkipColumns(zoomLevel, imageSize, tiles, low + 1, x);
      if low >= zoomLevel.columns {
        assert x >= zoomLevel.columns;
      }
    }
  }

  /** The tiles of one met column are exactly its needed tiles, in row order. */
  lemma ColumnTiles(zoomLevel: ZoomLevel, imageSize: Size, tiles: map<int, RowRange>, x: int)
    requires 0 <= x < zoomLevel.columns
    ensures var head := if x in tiles then RowTiles(zoomLevel, imageSize, x, tiles[x]) else [];
      && (forall t :: t in head <==> IsNeeded(zoomLevel, imageSize, tiles, t) && t.column == x)
      && Ascending(head)
  {
    var head := if x in tiles then RowTiles(zoomLevel, imageSize, x, tiles[x]) else [];
    forall t
      ensures t in head <==> IsNeeded(zoomLevel, imageSize, tiles, t) && t.column == x
    {
      if IsNeeded(zoomLevel, imageSize, tiles, t) && t.column == x {
        var fromY := IntMax(tiles[x].lo, 0);
        assert head[t.row - fromY] == t;
      }
    }
  }

  lemma {:induction false} ColumnsFromProperties(zoomLevel: ZoomLevel, imageSize: Size, tiles: map<int, RowRange>, x: int)
    requires x >= 0
    decreases zoomLevel.columns - x
    ensures forall t :: t in ColumnsFrom(zoomLevel, imageSize, tiles, x) <==>
      IsNeeded(zoomLevel, imageSize, tiles, t) && t.column >= x
    ensures Ascending(ColumnsFrom(zoomLevel, imageSize, tiles, x))
    ensures forall t :: t in ColumnsFrom(zoomLevel, imageSize, tiles, x) ==> t.column >= x
  {
    if x < zoomLevel.columns {
      ColumnsFromProperties(zoomLevel, imageSize, tiles, x + 1);
      ColumnTiles(zoomLevel, imageSize, tiles, x);
      var head := if x in tiles then RowTiles(zoomLevel, imageSize, x, tiles[x]) else [];
      var tail := ColumnsFrom(zoomLevel, imageSize, tiles, x + 1);
      var all := head + tail;
      assert ColumnsFrom(zoomLevel, imageSize, tiles, x) == all;
      assert forall t :: t in all <==> t in head || t in tail;
      forall i, j | 0 <= i < j < |all|
        ensures Before(all[i], all[j])
      {
        if j < |head| {
          assert all[i] == head[i] && all[j] == head[j];
        } else if i < |head| {
          assert all[i] in head && all[j] in tail;
        } else {
          assert all[i] == tail[i - |head|] && all[j] == tail[j - |head|];
        }
      }
    }
  }

  /** The tiles emitted are exactly the needed ones, in (column, row) order. */
  lemma NeededTilesProperties(zoomLevel: ZoomLevel, imageSize: Size, tiles: map<int, RowRange>)
    ensures forall t :: t in NeededTiles(zoomLevel, imageSize, tiles) <==> IsNeeded(zoomLevel, imageSize, tiles, t)
    ensures Ascending(NeededTiles(zoomLevel, imageSize, tiles))
  {
    ColumnsFromProperties(zoomLevel, imageSize, tiles, 0);
  }

  /** The inner loop of `iiifTilesByXToArray`: push the rows `max(lo, 0)` to `min(hi, rows - 1)` of column `x`. */
  method PushRows(zoomLevel: ZoomLevel, imageSize: Size, x: int, range: RowRange, tiles: seq<Tile>)
    returns (r: seq<Tile>)
    ensures r == tiles + RowTiles(zoomLevel, imageSize, x, range)
  {
    r := tiles;
    var fromY := IntMax(range.lo, 0);
    var toY := IntMin(range.hi, zoomLevel.rows - 1);
    var y := fromY;
    while y <= toY
      invariant fromY <= y <= IntMax(fromY, toY + 1)
      invariant r == tiles + RowTiles(zoomLevel, imageSize, x, range)[..y - fromY]
    {
      r := r + [Tile(x, y, zoomLevel, imageSize)];
      y := y + 1;
    }
    assert RowTiles(zoomLevel, imageSize, x, range)[..y - fromY] == RowTiles(zoomLevel, imageSize, x, range);
  }

  /**
   * `iiifTilesByXToArray`: visit the non-negative keys in ascending order, stop at the
   * first column out of range, otherwise push the column's rows clamped to `[0, rows - 1]`.
   */
  method IiifTilesByXToArray(zoomLevel: ZoomLevel, imageSize: Size, iiifTilesByX: map<int, RowRange>)
    returns (neededIiifTiles: seq<Tile>)
    ensures neededIiifTiles == NeededTiles(zoomLevel, imageSize, iiifTilesByX)
  {
    neededIiifTiles := [];
    var low := 0;
    var remaining := set k | k in iiifTilesByX.Keys && k >= 0;
    while remaining != {}
      invariant low >= 0
      invariant remaining == set k | k in iiifTilesByX.Keys && k >= low
      invariant neededIiifTiles + ColumnsFrom(zoomLevel, imageSize, iiifTilesByX, low)
        == NeededTiles(zoomLevel, imageSize, iiifTilesByX)
      decreases |remaining|
    {
      var least := Least(remaining);
      var x :| x in remaining && forall k :: k in remaining ==> x <= k;
      forall k | low <= k < x
        ensures k !in iiifTilesByX
      {
        assert k in iiifTilesByX ==> k in remaining;
      }
      SkipColumns(zoomLevel, imageSize, iiifTilesByX, low, x);
      if x < 0 || x >= zoomLevel.columns {
        return;
      }
      neededIiifTiles := PushRows(zoomLevel, imageSize, x, iiifTilesByX[x], neededIiifTiles);
      assert remaining - {x} == set k | k in iiifTilesByX.Keys && k >= x + 1;
      remaining := remaining - {x};
      low := x + 1;
    }
    forall k | low <= k
      ensures k !in iiifTilesByX
    {
      assert k in iiifTilesByX ==> k in remaining;
    }
    SkipColumns(zoomLevel, imageSize, iiifTilesByX, low, IntMax(low, zoomLevel.columns));
  }

  // ---------------------------------------------------------------------------
  // Zoom level choice

  /** A level is fine enough when `scaleFactor * 1.25 >= mapTileScale`. */
  predicate Qualifies(zoomLevel: ZoomLevel, mapTileScale: real)
  {
    zoomLevel.scaleFactor * 1.25 >= mapTileScale
  }

  function ScaleDiff(zoomLevel: ZoomLevel, mapTileScale: real): real
  {
    Abs(zoomLevel.scaleFactor - mapTileScale)
  }

  /** Level `k` qualifies, no qualifying level is closer in scale, and every earlier qualifying one is farther. */
  predicate IsBestIndex(levels: seq<ZoomLevel>, mapTileScale: real, k: int)
  {
    && 0 <= k < |levels| && Qualifies(levels[k], mapTileScale)
    && (forall j :: 0 <= j < |levels| && Qualifies(levels[j], mapTileScale) ==>
          ScaleDiff(levels[k], mapTileScale) <= ScaleDiff(levels[j], mapTileScale))
    && (forall j :: 0 <= j < k && Qualifies(levels[j], mapTileScale) ==>
          ScaleDiff(levels[j], mapTileScale) > ScaleDiff(levels[k], mapTileScale))
  }

  /**
   * The choice of `getBestZoomLevelForMapScale`: none without levels (`undefined`), the last
   * level when none qualifies, otherwise the first qualifying level closest in scale.
   */
  ghost predicate BestChoice(levels: seq<ZoomLevel>, mapTileScale: real, best: Option<ZoomLevel>)
  {
    && (levels == [] ==> best.None?)
    && (levels != [] && (forall j :: 0 <= j < |levels| ==> !Qualifies(levels[j], mapTileScale)) ==>
          best == Some(levels[|levels| - 1]))
    && ((exists j :: 0 <= j < |levels| && Qualifies(levels[j], mapTileScale)) ==>
          exists k :: IsBestIndex(levels, mapTileScale, k) && best == Some(levels[k]))
  }

  /** `getBestZoomLevelForMapScale`: a running best, replaced only by a strictly closer qualifying level. */
  method GetBestZoomLevelForMapScale(tileZoomLevels: seq<ZoomLevel>, mapTileScale: real) returns (best: Option<ZoomLevel>)
    ensures BestChoice(tileZoomLevels, mapTileScale, best)
  {
    var smallestScaleDiff: Option<real> := None;
    best := if tileZoomLevels == [] then None else Some(tileZoomLevels[|tileZoomLevels| - 1]);
    ghost var bestIndex := -1;
    for i := 0 to |tileZoomLevels|
      invariant smallestScaleDiff.None? <==> bestIndex == -1
      invariant bestIndex == -1 ==>
        && best == (if tileZoomLevels == [] then None else Some(tileZoomLevels[|tileZoomLevels| - 1]))
        && forall j :: 0 <= j < i ==> !Qualifies(tileZoomLevels[j], mapTileScale)
      invariant bestIndex != -1 ==>
        && 0 <= bestIndex < i && best == Some(tileZoomLevels[bestIndex])
        && smallestScaleDiff == Some(ScaleDiff(tileZoomLevels[bestIndex], mapTileScale))
        && Qualifies(tileZoomLevels[bestIndex], mapTileScale)
        && (forall j :: 0 <= j < i && Qualifies(tileZoomLevels[j], mapTileScale) ==>
              ScaleDiff(tileZoomLevels[bestIndex], mapTileScale) <= ScaleDiff(tileZoomLevels[j], mapTileScale))
        && (forall j :: 0 <= j < bestIndex && Qualifies(tileZoomLevels[j], mapTileScale) ==>
              ScaleDiff(tileZoomLevels[j], mapTileScale) > ScaleDiff(tileZoomLevels[bestIndex], mapTileScale))
    {
      var zoomLevel := tileZoomLevels[i];
      var scaleDiff := Abs(zoomLevel.scaleFactor - mapTileScale);
      if (smallestScaleDiff.None? || scaleDiff < smallestScaleDiff.value) && zoomLevel.scaleFactor * 1.25 >= mapTileScale {
        smallestScaleDiff := Some(scaleDiff);
        best := Some(zoomLevel);
        bestIndex := i;
      }
    }
    if bestIndex != -1 {
      assert IsBestIndex(tileZoomLevels, mapTileScale, bestIndex);
    }
  }

  /** `min(bboxWidth / viewportWidth, bboxHeight / viewportHeight)`. */
  function MapScale(b: BBox, viewportSize: Size): real
    requires viewportSize.width > 0.0 && viewportSize.height > 0.0
  {
    Min((b.maxX - b.minX) / viewportSize.width, (b.maxY - b.minY) / viewportSize.height)
  }

  /** No positions, no bounding box. */
  lemma NoBoxOfNothing(ps: seq<Pos>)
    requires ps == []
    ensures forall b :: !IsBoundingBox(b, ps)
  {
  }

  /** The bounding box is unique, so a choice made for one is made for all. */
  lemma BestChoiceForEveryBox(levels: seq<ZoomLevel>, viewportSize: Size, b: BBox, ps: seq<Pos>, best: Option<ZoomLevel>)
    requires viewportSize.width > 0.0 && viewportSize.height > 0.0
    requires IsBoundingBox(b, ps) && BestChoice(levels, MapScale(b, viewportSize), best)
    ensures forall b2 :: IsBoundingBox(b2, ps) ==> BestChoice(levels, MapScale(b2, viewportSize), best)
  {
    forall b2 | IsBoundingBox(b2, ps)
      ensures BestChoice(levels, MapScale(b2, viewportSize), best)
    {
      BoundingBoxUnique(b, b2, ps);
    }
  }

  /**
   * `getBestZoomLevel`. For an empty polygon the source's scale is `-Infinity`: every level
   * qualifies but none is closer than `Infinity`, so the last level stays.
   */
  method GetBestZoomLevel(tileZoomLevels: seq<ZoomLevel>, viewportSize: Size, resourcePolygon: seq<seq<Pos>>)
    returns (best: Option<ZoomLevel>)
    requires viewportSize.width > 0.0 && viewportSize.height > 0.0
    ensures Flatten(Polygon(resourcePolygon)) == [] ==>
      best == (if tileZoomLevels == [] then None else Some(tileZoomLevels[|tileZoomLevels| - 1]))
    ensures forall b :: IsBoundingBox(b, Flatten(Polygon(resourcePolygon))) ==>
      BestChoice(tileZoomLevels, MapScale(b, viewportSize), best)
  {
    var resourceBBox := ComputeBbox(Polygon(resourcePolygon));
    if resourceBBox.None? {
      best := if tileZoomLevels == [] then None else Some(tileZoomLevels[|tileZoomLevels| - 1]);
      NoBoxOfNothing(Flatten(Polygon(resourcePolygon)));
    } else {
      var b := resourceBBox.value;
      var mapScaleX := (b.maxX - b.minX) / viewportSize.width;
      var mapScaleY := (b.maxY - b.minY) / viewportSize.height;
      var mapScale := Min(mapScaleX, mapScaleY);
      assert mapScale == MapScale(b, viewportSize);
      best := GetBestZoomLevelForMapScale(tileZoomLevels, mapScale);
      BestChoiceForEveryBox(tileZoomLevels, viewportSize, b, Flatten(Polygon(resourcePolygon)), best);
    }
  }

  // ---------------------------------------------------------------------------
  // Order of loading

  /**
   * The sort key: the squared distance from the tile's centre to `center`. The square root
   * taken by `distanceFromPoint` does not change the order.
   */
  function DistanceKey(t: Tile, center: Pos): real
  {
    SquaredDistance(TileCenter(t), center)
  }

  predicate SortedByDistance(tiles: seq<Tile>, center: Pos)
  {
    forall i, j :: 0 <= i < j < |tiles| ==> DistanceKey(tiles[i], center) <= DistanceKey(tiles[j], center)
  }

  /** The centre of the resource's box, `[(minX + maxX) / 2, (minY + maxY) / 2]`. */
  function BoxCenter(b: BBox): Pos
  {
    Pos((b.minX + b.maxX) / 2.0, (b.minY + b.maxY) / 2.0)
  }

  /**
   * `computeIiifTilesForPolygonAndZoomLevel`: the tiles needed by the outer ring, in an
   * order of increasing distance from the centre of the polygon's box.
   */
  method ComputeIiifTilesForPolygonAndZoomLevel(imageSize: Size, resourcePolygon: seq<seq<Pos>>, zoomLevel: ZoomLevel)
    returns (iiifTiles: seq<Tile>)
    requires |resourcePolygon| > 0
    requires zoomLevel.originalWidth > 0.0 && zoomLevel.originalHeight > 0.0
    ensures multiset(iiifTiles) == multiset(NeededTiles(zoomLevel, imageSize, TilesByX(ScaleToTiles(zoomLevel, resourcePolygon[0]))))
    ensures forall t :: t in iiifTiles <==>
      IsNeeded(zoomLevel, imageSize, TilesByX(ScaleToTiles(zoomLevel, resourcePolygon[0])), t)
    ensures forall b :: IsBoundingBox(b, Flatten(Polygon(resourcePolygon))) ==> SortedByDistance(iiifTiles, BoxCenter(b))
  {
    var tilePixelExtent := ScaleToTiles(zoomLevel, resourcePolygon[0]);
    var iiifTilesByX := FindNeededIiifTilesByX(tilePixelExtent);
    var tiles := IiifTilesByXToArray(zoomLevel, imageSize, iiifTilesByX);
    NeededTilesProperties(zoomLevel, imageSize, iiifTilesByX);
    var resourceBBox := ComputeBbox(Polygon(resourcePolygon));
    if resourceBBox.None? {
      iiifTiles := tiles;
      return;
    }
    var resourceCenter := BoxCenter(resourceBBox.value);
    var a := new Tile[|tiles|](i requires 0 <= i < |tiles| => tiles[i]);
    assert a[..] == tiles;
    SortByKey(a, t => DistanceKey(t, resourceCenter));
    iiifTiles := a[..];
    forall t
      ensures t in iiifTiles <==> t in tiles
    {
      assert t in iiifTiles <==> t in multiset(iiifTiles);
      assert t in tiles <==> t in multiset(tiles);
    }
    forall b | IsBoundingBox(b, Flatten(Polygon(resourcePolygon)))
      ensures SortedByDistance(iiifTiles, BoxCenter(b))
    {
      BoundingBoxUnique(resourceBBox.value, b, Flatten(Polygon(resourcePolygon)));
    }
  }
}
