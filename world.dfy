/**
 * The world of warped maps of the renderer (packages/render/src/World.ts): the maps by
 * id, their z-indices, their visibility and the bounding box of what is visible.
 */
module RenderWorld {
  import opened Geometry
  import opened Wrappers
  import opened StdBBox
  import opened Sorting

  const NoMapPrefix: string := "No map found with ID "

  /**
   * The parts of a warped map the world reads and writes. The transformer is kept as its
   * `toGeoJSONPolygon`, which throws for a mask of fewer than three points (as
   * `TransformGeojson.ToGeoJsonPolygon` does); image information, ids and the full masks are
   * not part of this model.
   */
  datatype WarpedMap = WarpedMap(
    mapId: string,
    visible: bool,
    pixelMask: seq<Pos>,
    toGeoJsonPolygon: seq<Pos> -> Result<seq<seq<Pos>>>,
    geoMask: seq<seq<Pos>>,
    geoMaskBBox: BBox)

  /** The items of the R-tree, by map id. */
  type RTreeItems = map<string, seq<seq<Pos>>>

  predicate Distinct(ids: seq<string>)
  {
    forall i, j :: 0 <= i < j < |ids| ==> ids[i] != ids[j]
  }

  function IndexOf(ids: seq<string>, id: string): (k: int)
    requires id in ids
    ensures 0 <= k < |ids| && ids[k] == id && forall j :: 0 <= j < k ==> ids[j] != id
  {
    if ids[0] == id then 0 else 1 + IndexOf(ids[1..], id)
  }

  /** `ids` without `id`: deleting a key from a `Map` keeps the order of the others. */
  function Without(ids: seq<string>, id: string): (r: seq<string>)
    ensures forall x :: x in r <==> x in ids && x != id
  {
    if ids == [] then []
    else if ids[0] == id then Without(ids[1..], id)
    else [ids[0]] + Without(ids[1..], id)
  }

  /** `ids` without any id of `gone`: deleting several keys from a `Map` keeps the order of the others. */
  function Keep(ids: seq<string>, gone: set<string>): (r: seq<string>)
    ensures forall x :: x in r <==> x in ids && x !in gone
  {
    if ids == [] then []
    else if ids[0] in gone then Keep(ids[1..], gone)
    else [ids[0]] + Keep(ids[1..], gone)
  }

  /** Deleting one more id is `Without` applied to what was kept. */
  lemma {:induction false} KeepWithout(ids: seq<string>, gone: set<string>, id: string)
    ensures Keep(ids, gone + {id}) == Without(Keep(ids, gone), id)
  {
    if ids != [] {
      KeepWithout(ids[1..], gone, id);
    }
  }

  /** Deleting an id that is not there changes nothing. */
  lemma {:induction false} WithoutAbsent(ids: seq<string>, id: string)
    requires id !in ids
    ensures Without(ids, id) == ids
  {
    if ids != [] {
      WithoutAbsent(ids[1..], id);
    }
  }

  lemma {:induction false} WithoutDistinct(ids: seq<string>, id: string)
    requires Distinct(ids)
    ensures Distinct(Without(ids, id))
  {
    if ids != [] {
      WithoutDistinct(ids[1..], id);
      assert ids[0] !in ids[1..];
    }
  }

  // ---------------------------------------------------------------------------
  // z-indices

  /** The z-indices are `0` to `n - 1`, each used once: no holes and no ties. */
  predicate Compact(z: map<string, int>, n: int)
  {
    && (forall a :: a in z ==> 0 <= z[a] < n)
    && (forall a, b :: a in z && b in z && a != b ==> z[a] != z[b])
  }

  /** The keys of `z` are exactly the ids of `order`, each listed once. */
  predicate Keyed(z: map<string, int>, order: seq<string>)
  {
    Distinct(order) && (forall id :: id in z ==> id in order) && (forall id :: id in order ==> id in z)
  }

  /**
   * The order `removeZIndexHoles` sorts the entries in: by z-index, and for equal
   * z-indices in insertion order, as a stable sort leaves them.
   */
  predicate Below(z: map<string, int>, order: seq<string>, a: string, b: string)
    requires a in z && b in z && a in order && b in order
  {
    z[a] < z[b] || (z[a] == z[b] && IndexOf(order, a) < IndexOf(order, b))
  }

  /** `z2` is what `removeZIndexHoles` makes of `z`: the ranks `0` to `n - 1` in sort order. */
  ghost predicate HolesRemoved(z: map<string, int>, order: seq<string>, z2: map<string, int>)
  {
    && z2.Keys == z.Keys
    && (forall a :: a in z2 ==> 0 <= z2[a] < |order|)
    && (forall a, b :: a in z && b in z && a in order && b in order && Below(z, order, a, b) ==> z2[a] < z2[b])
  }

  /** After hole removal the indices are compact, and every strict order between indices is kept. */
  lemma HolesRemovedProperties(z: map<string, int>, order: seq<string>, z2: map<string, int>)
    requires Keyed(z, order) && HolesRemoved(z, order, z2)
    ensures Compact(z2, |order|)
    ensures forall a, b :: a in z && b in z && z[a] < z[b] ==> z2[a] < z2[b]
  {
    forall a, b | a in z2 && b in z2 && a != b
      ensures z2[a] != z2[b]
    {
      assert IndexOf(order, a) != IndexOf(order, b);
      assert Below(z, order, a, b) || Below(z, order, b, a);
    }
    forall a, b | a in z && b in z && z[a] < z[b]
      ensures z2[a] < z2[b]
    {
      assert Below(z, order, a, b);
    }
  }

  /** One entry of `[...zIndices.entries()]`, with its position in the list. */
  datatype ZEntry = ZEntry(id: string, z: int, pos: int)

  function Entries(z: map<string, int>, order: seq<string>): (r: seq<ZEntry>)
    requires forall id :: id in order ==> id in z
    ensures |r| == |order|
    ensures forall k :: 0 <= k < |r| ==> r[k] == ZEntry(order[k], z[order[k]], k)
  {
    seq(|order|, k requires 0 <= k < |order| => ZEntry(order[k], z[order[k]], k))
  }

  /**
   * The sort key: the z-index, with the position as a fraction below one. Sorting by it
   * is the stable sort by z-index.
   */
  function EntryKey(e: ZEntry, n: int): real
    requires n >= 0
  {
    e.z as real + e.pos as real / (n + 1) as real
  }

  lemma FractionBelowOne(p: int, d: int)
    requires 0 <= p < d
    ensures 0.0 <= p as real / d as real < 1.0
  {
    assert (p as real / d as real) * d as real == p as real;
  }

  lemma FractionMonotone(p: int, q: int, d: int)
    requires 0 <= p < q && d > 0
    ensures p as real / d as real < q as real / d as real
  {
    assert (p as real / d as real) * d as real == p as real;
    assert (q as real / d as real) * d as real == q as real;
  }

  lemma EntryKeyOrder(e1: ZEntry, e2: ZEntry, n: int)
    requires 0 <= e1.pos <= n && 0 <= e2.pos <= n
    requires e1.z < e2.z || (e1.z == e2.z && e1.pos < e2.pos)
    ensures EntryKey(e1, n) < EntryKey(e2, n)
  {
    FractionBelowOne(e1.pos, n + 1);
    FractionBelowOne(e2.pos, n + 1);
    if e1.z == e2.z {
      FractionMonotone(e1.pos, e2.pos, n + 1);
    }
  }

  /** `z2[a]` is the last place of `a` in `sorted`: what the loop assigning `zIndex++` leaves. */
  ghost predicate RankedBy(sorted: seq<ZEntry>, keys: set<string>, z2: map<string, int>)
  {
    forall a :: a in keys ==>
      && a in z2 && 0 <= z2[a] < |sorted| && sorted[z2[a]].id == a
      && forall j :: z2[a] < j < |sorted| ==> sorted[j].id != a
  }

  ghost predicate Occurs(sorted: seq<ZEntry>, a: string, k: int)
  {
    exists j :: 0 <= j < k && j < |sorted| && sorted[j].id == a
  }

  /** The entry at a map's rank is that map's own entry. */
  lemma RankedEntry(z: map<string, int>, order: seq<string>, sorted: seq<ZEntry>, z2: map<string, int>, a: string)
    requires Keyed(z, order)
    requires multiset(sorted) == multiset(Entries(z, order))
    requires RankedBy(sorted, z.Keys, z2) && a in z
    ensures sorted[z2[a]] == Entries(z, order)[IndexOf(order, a)]
  {
    var entries := Entries(z, order);
    var e := sorted[z2[a]];
    assert e in multiset(entries);
    var p :| 0 <= p < |entries| && entries[p] == e;
    assert order[p] == a;
  }

  /** Numbering the stably sorted entries removes the holes. */
  lemma HolesFromSorted(z: map<string, int>, order: seq<string>, sorted: seq<ZEntry>, z2: map<string, int>)
    requires Keyed(z, order)
    requires multiset(sorted) == multiset(Entries(z, order))
    requires SortedBy(sorted, e => EntryKey(e, |order|))
    requires z2.Keys == z.Keys && RankedBy(sorted, z.Keys, z2)
    ensures HolesRemoved(z, order, z2)
  {
    var n := |order|;
    assert |sorted| == n by {
      assert |multiset(sorted)| == |multiset(Entries(z, order))|;
    }
    forall a, b | a in z && b in z && a in order && b in order && Below(z, order, a, b)
      ensures z2[a] < z2[b]
    {
      RankedEntry(z, order, sorted, z2, a);
      RankedEntry(z, order, sorted, z2, b);
      EntryKeyOrder(sorted[z2[a]], sorted[z2[b]], n);
      if z2[b] < z2[a] {
        assert false;
      }
    }
  }

  /**
   * The loop shared by `bringToFront` and `sendToBack`: each listed id that has a
   * z-index gets `next`, and `next` counts up.
   */
  function Renumber(z: map<string, int>, ids: seq<string>, next: int): map<string, int>
    decreases |ids|
  {
    if ids == [] then z
    else if ids[0] in z then Renumber(z[ids[0] := next], ids[1..], next + 1)
    else Renumber(z, ids[1..], next)
  }

  lemma {:induction false} RenumberProperties(z: map<string, int>, ids: seq<string>, next: int)
    decreases |ids|
    ensures Renumber(z, ids, next).Keys == z.Keys
    ensures forall a :: a in z && a !in ids ==> Renumber(z, ids, next)[a] == z[a]
    ensures forall a :: a in z && a in ids ==> next <= Renumber(z, ids, next)[a] < next + |ids|
    ensures Distinct(ids) ==> forall i, j :: 0 <= i < j < |ids| && ids[i] in z && ids[j] in z ==>
      Renumber(z, ids, next)[ids[i]] < Renumber(z, ids, next)[ids[j]]
  {
    if ids != [] {
      var h, tail := ids[0], ids[1..];
      var z' := if h in z then z[h := next] else z;
      var next' := if h in z then next + 1 else next;
      RenumberProperties(z', tail, next');
      var r := Renumber(z, ids, next);
      assert r == Renumber(z', tail, next');
      forall a | a in z && a in ids
        ensures next <= r[a] < next + |ids|
      {
        if a !in tail {
          assert a == h;
        }
      }
      if Distinct(ids) {
        assert Distinct(tail);
        forall i, j | 0 <= i < j < |ids| && ids[i] in z && ids[j] in z
          ensures r[ids[i]] < r[ids[j]]
        {
          if i == 0 {
            assert h !in tail;
            assert ids[j] == tail[j - 1];
          } else {
            assert ids[i] == tail[i - 1] && ids[j] == tail[j - 1];
          }
        }
      }
    }
  }

  /**
   * `bringToFront` on hole-free indices: every listed map ends above every unlisted one,
   * listed maps in the listed order, and the result is hole-free again.
   */
  lemma BringToFrontOrder(z: map<string, int>, order: seq<string>, ids: seq<string>, z2: map<string, int>)
    requires Keyed(z, order) && Compact(z, |order|)
    requires HolesRemoved(Renumber(z, ids, |order|), order, z2)
    ensures z2.Keys == z.Keys
    ensures Compact(z2, |order|)
    ensures forall a, b :: a in z && b in z && a in ids && b !in ids ==> z2[b] < z2[a]
    ensures Distinct(ids) ==> forall i, j :: 0 <= i < j < |ids| && ids[i] in z && ids[j] in z ==> z2[ids[i]] < z2[ids[j]]
  {
    var r := Renumber(z, ids, |order|);
    RenumberProperties(z, ids, |order|);
    HolesRemovedProperties(r, order, z2);
  }

  /** `sendToBack` on hole-free indices: every listed map ends below every unlisted one. */
  lemma SendToBackOrder(z: map<string, int>, order: seq<string>, ids: seq<string>, next: int, z2: map<string, int>)
    requires Keyed(z, order) && Compact(z, |order|)
    requires next + |ids| <= 0
    requires HolesRemoved(Renumber(z, ids, next), order, z2)
    ensures z2.Keys == z.Keys
    ensures Compact(z2, |order|)
    ensures forall a, b :: a in z && b in z && a in ids && b !in ids ==> z2[a] < z2[b]
    ensures Distinct(ids) ==> forall i, j :: 0 <= i < j < |ids| && ids[i] in z && ids[j] in z ==> z2[ids[i]] < z2[ids[j]]
  {
    var r := Renumber(z, ids, next);
    RenumberProperties(z, ids, next);
    assert Keyed(r, order);
    assert Compact(z2, |order|) by {
      HolesRemovedProperties(r, order, z2);
    }
    forall a, b | a in z && b in z && a in ids && b !in ids
      ensures z2[a] < z2[b]
    {
      StrictlyBelowKept(r, order, z2, a, b);
    }
    if Distinct(ids) {
      forall i, j | 0 <= i < j < |ids| && ids[i] in z && ids[j] in z
        ensures z2[ids[i]] < z2[ids[j]]
      {
        StrictlyBelowKept(r, order, z2, ids[i], ids[j]);
      }
    }
  }

  /** Hole removal keeps a strict order between two z-indices. */
  lemma StrictlyBelowKept(z: map<string, int>, order: seq<string>, z2: map<string, int>, a: string, b: string)
    requires Keyed(z, order) && HolesRemoved(z, order, z2)
    requires a in z && b in z && z[a] < z[b]
    ensures z2[a] < z2[b]
  {
    assert Below(z, order, a, b);
  }

  /** The first loop of `bringForward` and `sendBackward`. */
  function Doubled(z: map<string, int>): map<string, int>
  {
    map a | a in z :: 2 * z[a]
  }

  /** The second loop: each listed id that has a z-index is moved by `delta`. */
  function Shift(z: map<string, int>, ids: seq<string>, delta: int): map<string, int>
    decreases |ids|
  {
    if ids == [] then z
    else if ids[0] in z then Shift(z[ids[0] := z[ids[0]] + delta], ids[1..], delta)
    else Shift(z, ids[1..], delta)
  }

  lemma {:induction false} ShiftProperties(z: map<string, int>, ids: seq<string>, delta: int)
    decreases |ids|
    ensures Shift(z, ids, delta).Keys == z.Keys
    ensures forall a :: a in z && a !in ids ==> Shift(z, ids, delta)[a] == z[a]
    ensures Distinct(ids) ==> forall a :: a in z && a in ids ==> Shift(z, ids, delta)[a] == z[a] + delta
  {
    if ids != [] {
      var h, tail := ids[0], ids[1..];
      var z' := if h in z then z[h := z[h] + delta] else z;
      ShiftProperties(z', tail, delta);
      if Distinct(ids) {
        assert Distinct(tail);
        assert h !in tail;
      }
    }
  }

  /**
   * `bringForward` on distinct indices and a list without repeats: a listed map moves above
   * an unlisted map directly above it and no further, and maps of the same kind keep their order.
   */
  lemma BringForwardOrder(z: map<string, int>, order: seq<string>, ids: seq<string>, z2: map<string, int>)
    requires Keyed(z, order) && Compact(z, |order|) && Distinct(ids)
    requires HolesRemoved(Shift(Doubled(z), ids, 3), order, z2)
    ensures z2.Keys == z.Keys
    ensures Compact(z2, |order|)
    ensures forall a, b :: a in z && b in z && a in ids && b !in ids ==>
      (z[b] == z[a] + 1 ==> z2[b] < z2[a]) && (z[b] > z[a] + 1 ==> z2[a] < z2[b]) && (z[b] < z[a] ==> z2[b] < z2[a])
    ensures forall a, b :: a in z && b in z && (a in ids <==> b in ids) && z[a] < z[b] ==> z2[a] < z2[b]
  {
    ShiftProperties(Doubled(z), ids, 3);
    HolesRemovedProperties(Shift(Doubled(z), ids, 3), order, z2);
  }

  /** `sendBackward`, the mirror image: a listed map moves below an unlisted map directly below it and no further. */
  lemma SendBackwardOrder(z: map<string, int>, order: seq<string>, ids: seq<string>, z2: map<string, int>)
    requires Keyed(z, order) && Compact(z, |order|) && Distinct(ids)
    requires HolesRemoved(Shift(Doubled(z), ids, -3), order, z2)
    ensures z2.Keys == z.Keys
    ensures Compact(z2, |order|)
    ensures forall a, b :: a in z && b in z && a in ids && b !in ids ==>
      (z[b] == z[a] - 1 ==> z2[a] < z2[b]) && (z[b] < z[a] - 1 ==> z2[b] < z2[a]) && (z[b] > z[a] ==> z2[a] < z2[b])
    ensures forall a, b :: a in z && b in z && (a in ids <==> b in ids) && z[a] < z[b] ==> z2[a] < z2[b]
  {
    ShiftProperties(Doubled(z), ids, -3);
    HolesRemovedProperties(Shift(Doubled(z), ids, -3), order, z2);
  }

  /**
   * `removeMap` as written removes a map without removing the hole it leaves. After adding
   * A, B, C and D and removing A and B that way, `bringToFront(['C'])` leaves C at index
   * 2, below D at 3, so C is not brought to the front.
   */
  lemma RemoveMapLeavesHoles()
    ensures var z := map["A" := 0, "B" := 1, "C" := 2, "D" := 3] - {"A"} - {"B"};
      && !Compact(z, 2)
      && forall z2 :: HolesRemoved(Renumber(z, ["C"], 2), ["C", "D"], z2) ==> z2["C"] < z2["D"]
  {
    var z := map["A" := 0, "B" := 1, "C" := 2, "D" := 3] - {"A"} - {"B"};
    var order := ["C", "D"];
    var raised := Renumber(z, ["C"], 2);
    assert raised == map["C" := 2, "D" := 3] - {"A"} - {"B"} by {
      assert ["C"][1..] == [];
    }
    assert raised["C"] == 2 && raised["D"] == 3;
    forall z2 | HolesRemoved(raised, order, z2)
      ensures z2["C"] < z2["D"]
    {
      assert Below(raised, order, "C", "D");
    }
  }

  // ---------------------------------------------------------------------------
  // Visibility and extent

  /** The loop of `showMaps` (`visible = true`) and `hideMaps` (`visible = false`). */
  function WithVisibility(maps: map<string, WarpedMap>, ids: seq<string>, visible: bool): (r: map<string, WarpedMap>)
    decreases |ids|
    ensures r.Keys == maps.Keys
    ensures forall a :: a in maps ==> r[a] == if a in ids then maps[a].(visible := visible) else maps[a]
  {
    if ids == [] then maps
    else if ids[0] in maps then WithVisibility(maps[ids[0] := maps[ids[0]].(visible := visible)], ids[1..], visible)
    else WithVisibility(maps, ids[1..], visible)
  }

  /** The fold of `getBBox` over the maps in insertion order. */
  function VisibleBBox(maps: map<string, WarpedMap>, ids: seq<string>): Option<BBox>
  {
    if ids == [] then None
    else
      var acc := VisibleBBox(maps, ids[..|ids| - 1]);
      var id := ids[|ids| - 1];
      if id in maps && maps[id].visible then
        if acc.None? then Some(maps[id].geoMaskBBox) else Some(CombineBBoxes(acc.value, maps[id].geoMaskBBox))
      else acc
  }

  predicate Encloses(outer: BBox, inner: BBox)
  {
    outer.minX <= inner.minX && outer.minY <= inner.minY && inner.maxX <= outer.maxX && inner.maxY <= outer.maxY
  }

  predicate VisibleIn(maps: map<string, WarpedMap>, ids: seq<string>, id: string)
  {
    id in ids && id in maps && maps[id].visible
  }

  /** Each edge of `b` is the same edge of the box of a visible map. */
  ghost predicate EdgesAttained(b: BBox, maps: map<string, WarpedMap>, ids: seq<string>)
  {
    && (exists id :: VisibleIn(maps, ids, id) && b.minX == maps[id].geoMaskBBox.minX)
    && (exists id :: VisibleIn(maps, ids, id) && b.minY == maps[id].geoMaskBBox.minY)
    && (exists id :: VisibleIn(maps, ids, id) && b.maxX == maps[id].geoMaskBBox.maxX)
    && (exists id :: VisibleIn(maps, ids, id) && b.maxY == maps[id].geoMaskBBox.maxY)
  }

  /**
   * `getBBox` is undefined exactly when no map is visible; otherwise it encloses every
   * visible map's box, and each of its edges is an edge of one of them.
   */
  lemma {:induction false} VisibleBBoxProperties(maps: map<string, WarpedMap>, ids: seq<string>)
    ensures VisibleBBox(maps, ids).None? <==> forall id :: !VisibleIn(maps, ids, id)
    ensures VisibleBBox(maps, ids).Some? ==>
      && (forall id :: VisibleIn(maps, ids, id) ==> Encloses(VisibleBBox(maps, ids).value, maps[id].geoMaskBBox))
      && EdgesAttained(VisibleBBox(maps, ids).value, maps, ids)
  {
    if ids != [] {
      var init, last := ids[..|ids| - 1], ids[|ids| - 1];
      VisibleBBoxProperties(maps, init);
      assert ids == init + [last];
      var acc := VisibleBBox(maps, init);
      forall id | VisibleIn(maps, init, id)
        ensures VisibleIn(maps, ids, id)
      {
      }
      forall id | VisibleIn(maps, ids, id) && id != last
        ensures VisibleIn(maps, init, id)
      {
      }
      if last in maps && maps[last].visible {
        var c := maps[last].geoMaskBBox;
        assert VisibleIn(maps, ids, last);
        if acc.Some? {
          CombinedEdgesAttained(maps, init, last, acc.value);
        }
      }
    }
  }

  /** Combining a box whose edges are attained with one more visible map attains every edge again. */
  lemma CombinedEdgesAttained(maps: map<string, WarpedMap>, init: seq<string>, last: string, a: BBox)
    requires last in maps && maps[last].visible
    requires EdgesAttained(a, maps, init)
    ensures EdgesAttained(CombineBBoxes(a, maps[last].geoMaskBBox), maps, init + [last])
  {
    var ids := init + [last];
    var r := CombineBBoxes(a, maps[last].geoMaskBBox);
    assert VisibleIn(maps, ids, last);
    var i1 :| VisibleIn(maps, init, i1) && a.minX == maps[i1].geoMaskBBox.minX;
    var i2 :| VisibleIn(maps, init, i2) && a.minY == maps[i2].geoMaskBBox.minY;
    var i3 :| VisibleIn(maps, init, i3) && a.maxX == maps[i3].geoMaskBBox.maxX;
    var i4 :| VisibleIn(maps, init, i4) && a.maxY == maps[i4].geoMaskBBox.maxY;
    assert VisibleIn(maps, ids, i1) && VisibleIn(maps, ids, i2) && VisibleIn(maps, ids, i3) && VisibleIn(maps, ids, i4);
    assert r.minX == maps[if r.minX == a.minX then i1 else last].geoMaskBBox.minX;
    assert r.minY == maps[if r.minY == a.minY then i2 else last].geoMaskBBox.minY;
    assert r.maxX == maps[if r.maxX == a.maxX then i3 else last].geoMaskBBox.maxX;
    assert r.maxY == maps[if r.maxY == a.maxY then i4 else last].geoMaskBBox.maxY;
  }

  /** A permutation of the entries has exactly the ids of `z`, each at least once. */
  lemma SortedEntriesCover(z: map<string, int>, order: seq<string>, sorted: seq<ZEntry>)
    requires Keyed(z, order)
    requires multiset(sorted) == multiset(Entries(z, order))
    ensures |sorted| == |order|
    ensures forall k :: 0 <= k < |sorted| ==> sorted[k].id in z
    ensures forall a :: a in z ==> Occurs(sorted, a, |sorted|)
  {
    var entries := Entries(z, order);
    assert |multiset(sorted)| == |multiset(entries)|;
    forall k | 0 <= k < |sorted|
      ensures sorted[k].id in z
    {
      assert sorted[k] in multiset(entries);
    }
    forall a | a in z
      ensures Occurs(sorted, a, |sorted|)
    {
      var p := IndexOf(order, a);
      assert entries[p] in multiset(sorted);
    }
  }

  /** The loop of `removeZIndexHoles` that gives the sorted entries the indices `0, 1, ...`. */
  method NumberInOrder(z: map<string, int>, sorted: seq<ZEntry>) returns (ranks: map<string, int>)
    requires forall k :: 0 <= k < |sorted| ==> sorted[k].id in z
    ensures ranks.Keys == z.Keys
    ensures forall a :: a in z && Occurs(sorted, a, |sorted|) ==>
      && 0 <= ranks[a] < |sorted| && sorted[ranks[a]].id == a
      && forall j :: ranks[a] < j < |sorted| ==> sorted[j].id != a
  {
    ranks := z;
    var zIndex := 0;
    while zIndex < |sorted|
      invariant 0 <= zIndex <= |sorted|
      invariant ranks.Keys == z.Keys
      invariant forall a :: a in z && Occurs(sorted, a, zIndex) ==>
        && 0 <= ranks[a] < zIndex && sorted[ranks[a]].id == a
        && forall j :: ranks[a] < j < zIndex ==> sorted[j].id != a
    {
      ranks := ranks[sorted[zIndex].id := zIndex];
      zIndex := zIndex + 1;
    }
  }

  /** The first loop of `bringForward` and `sendBackward`, over the entries in order. */
  method DoubleAll(z: map<string, int>, order: seq<string>) returns (r: map<string, int>)
    requires Keyed(z, order)
    ensures r == Doubled(z)
  {
    r := z;
    for i := 0 to |order|
      invariant r.Keys == z.Keys
      invariant forall a :: a in z ==> r[a] == if a in order[..i] then 2 * z[a] else z[a]
    {
      assert order[..i + 1] == order[..i] + [order[i]];
      assert order[i] !in order[..i];
      r := r[order[i] := r[order[i]] * 2];
    }
    assert order[..|order|] == order;
  }

  /** The second loop: each listed map present is moved by `delta`. */
  method ShiftAll(z: map<string, int>, ids: seq<string>, delta: int) returns (r: map<string, int>)
    ensures r == Shift(z, ids, delta)
  {
    r := z;
    for i := 0 to |ids|
      invariant Shift(r, ids[i..], delta) == Shift(z, ids, delta)
    {
      if ids[i] in r {
        var zIndex := r[ids[i]];
        r := r[ids[i] := zIndex + delta];
      }
    }
    assert ids[|ids|..] == [];
  }

  // ---------------------------------------------------------------------------
  // The world

  class World {
    var warpedMapsById: map<string, WarpedMap>
    var zIndices: map<string, int>
    /** The insertion order of the keys, which `warpedMapsById` and `zIndices` share. */
    var order: seq<string>
    var rtree: Option<RTreeItems>

    predicate Valid()
      reads this
    {
      Keyed(zIndices, order) && zIndices.Keys == warpedMapsById.Keys
    }

    constructor(rtree: Option<RTreeItems>)
      ensures Valid()
      ensures warpedMapsById == map[] && zIndices == map[] && order == [] && this.rtree == rtree
    {
      warpedMapsById := map[];
      zIndices := map[];
      order := [];
      this.rtree := rtree;
    }

    /**
     * The bookkeeping of `addMapInternal`: the map is stored visible with its geo mask,
     * gets the z-index `size - 1` and is added to the R-tree. When the conversion of the
     * mask throws, the error is returned and nothing is stored.
     */
    method AddMapInternal(mapId: string, pixelMask: seq<Pos>, toGeoJsonPolygon: seq<Pos> -> Result<seq<seq<Pos>>>,
                          polygonBBox: seq<seq<Pos>> -> BBox)
      returns (r: Result<string>)
      requires Valid()
      modifies this
      ensures Valid()
      ensures toGeoJsonPolygon(pixelMask).Failure? ==>
        && r == Failure(toGeoJsonPolygon(pixelMask).error)
        && warpedMapsById == old(warpedMapsById) && zIndices == old(zIndices) && order == old(order) && rtree == old(rtree)
      ensures toGeoJsonPolygon(pixelMask).Success? ==>
        var geoMask := toGeoJsonPolygon(pixelMask).value;
        && r == Success(mapId)
        && warpedMapsById == old(warpedMapsById)[mapId := WarpedMap(mapId, true, pixelMask, toGeoJsonPolygon, geoMask, polygonBBox(geoMask))]
        && rtree == (if old(rtree).Some? then Some(old(rtree).value[mapId := geoMask]) else None)
        && order == (if mapId in old(order) then old(order) else old(order) + [mapId])
        && zIndices == old(zIndices)[mapId := |order| - 1]
        && (mapId !in old(warpedMapsById) && Compact(old(zIndices), |old(order)|) ==> Compact(zIndices, |order|))
    {
      var converted := toGeoJsonPolygon(pixelMask);
      if converted.Failure? {
        r := Failure(converted.error);
        return;
      }
      var geoMask := converted.value;
      var warpedMap := WarpedMap(mapId, true, pixelMask, toGeoJsonPolygon, geoMask, polygonBBox(geoMask));
      var maps, ord, z := warpedMapsById, order, zIndices;
      var ord' := if mapId in ord then ord else ord + [mapId];
      var z' := z[mapId := |ord'| - 1];
      var maps' := maps[mapId := warpedMap];
      AddedState(z, ord, maps, mapId, warpedMap, z', ord', maps');
      r := Success(mapId);
      warpedMapsById, order, zIndices := maps', ord', z';
      IndexGeoMask(mapId, geoMask);
    }

    /** The R-tree step of `addMapInternal`: when there is an R-tree, the geo mask is (re)inserted under the id. */
    method IndexGeoMask(mapId: string, geoMask: seq<seq<Pos>>)
      modifies this
      ensures rtree == if old(rtree).Some? then Some(old(rtree).value[mapId := geoMask]) else None
      ensures warpedMapsById == old(warpedMapsById) && order == old(order) && zIndices == old(zIndices)
    {
      if rtree.Some? {
        rtree := Some(rtree.value[mapId := geoMask]);
      }
    }

    /** `removeMapInternal`: an unknown id is an error and changes nothing; a known one leaves both maps and the R-tree. */
    method RemoveMapInternal(mapId: string) returns (r: Result<string>)
      requires Valid()
      modifies this
      ensures Valid()
      ensures old(mapId !in warpedMapsById) ==>
        && r == Failure(NoMapPrefix + mapId)
        && warpedMapsById == old(warpedMapsById) && zIndices == old(zIndices) && order == old(order) && rtree == old(rtree)
      ensures old(mapId in warpedMapsById) ==>
        && r == Success(mapId)
        && warpedMapsById == old(warpedMapsById) - {mapId} && zIndices == old(zIndices) - {mapId}
        && order == Without(old(order), mapId)
        && rtree == (if old(rtree).Some? then Some(old(rtree).value - {mapId}) else None)
    {
      if mapId in warpedMapsById {
        warpedMapsById := warpedMapsById - {mapId};
        zIndices := zIndices - {mapId};
        WithoutDistinct(order, mapId);
        order := Without(order, mapId);
        if rtree.Some? {
          rtree := Some(rtree.value - {mapId});
        }
        r := Success(mapId);
      } else {
        r := Failure(NoMapPrefix + mapId);
      }
    }

    /** `removeMap` followed by hole removal, as `removeGeoreferenceAnnotation` does it. */
    method RemoveMap(mapId: string) returns (r: Result<string>)
      requires Valid()
      modifies this
      ensures Valid() && Compact(zIndices, |order|)
      ensures r == if old(mapId in warpedMapsById) then Success(mapId) else Failure(NoMapPrefix + mapId)
      ensures warpedMapsById == old(warpedMapsById) - {mapId}
      ensures order == if old(mapId in warpedMapsById) then Without(old(order), mapId) else old(order)
      ensures HolesRemoved(old(zIndices) - {mapId}, order, zIndices)
      ensures rtree == if old(mapId in warpedMapsById) && old(rtree).Some? then Some(old(rtree).value - {mapId}) else old(rtree)
    {
      r := RemoveMapInternal(mapId);
      ghost var removed := zIndices;
      assert removed == old(zIndices) - {mapId};
      RemoveZIndexHoles();
      assert HolesRemoved(removed, order, zIndices);
    }

    /** `removeZIndexHoles`: number the entries in stable z-index order. */
    method RemoveZIndexHoles()
      requires Valid()
      modifies this
      ensures Valid() && Compact(zIndices, |order|)
      ensures warpedMapsById == old(warpedMapsById) && order == old(order) && rtree == old(rtree)
      ensures HolesRemoved(old(zIndices), order, zIndices)
    {
      zIndices := CompactIndices(zIndices, order);
    }

    /** `bringToFront`: the listed maps that exist get `size`, `size + 1`, ..., then holes are removed. */
    method BringToFront(mapIds: seq<string>)
      requires Valid()
      modifies this
      ensures Valid() && Compact(zIndices, |order|)
      ensures warpedMapsById == old(warpedMapsById) && order == old(order) && rtree == old(rtree)
      ensures HolesRemoved(Renumber(old(zIndices), mapIds, |order|), order, zIndices)
      ensures Compact(old(zIndices), |order|) ==>
        forall a, b :: a in zIndices && b in zIndices && a in mapIds && b !in mapIds ==> zIndices[b] < zIndices[a]
    {
      var newZIndex := |warpedMapsById|;
      assert newZIndex == |order| by {
        KeyedSize(zIndices, warpedMapsById, order);
      }
      ghost var z0 := zIndices;
      var z := zIndices;
      for i := 0 to |mapIds|
        invariant Renumber(z, mapIds[i..], newZIndex) == Renumber(z0, mapIds, |order|)
        invariant z.Keys == z0.Keys
      {
        if mapIds[i] in z {
          z := z[mapIds[i] := newZIndex];
          newZIndex := newZIndex + 1;
        }
      }
      assert mapIds[|mapIds|..] == [];
      zIndices := z;
      RemoveZIndexHoles();
      if Compact(z0, |order|) {
        BringToFrontOrder(z0, order, mapIds, zIndices);
      }
    }

    /** `sendToBack`: the listed maps that exist get `-n`, `-n + 1`, ..., then holes are removed. */
    method SendToBack(mapIds: seq<string>)
      requires Valid()
      modifies this
      ensures Valid() && Compact(zIndices, |order|)
      ensures warpedMapsById == old(warpedMapsById) && order == old(order) && rtree == old(rtree)
      ensures HolesRemoved(Renumber(old(zIndices), mapIds, -|mapIds|), order, zIndices)
      ensures Compact(old(zIndices), |order|) ==>
        forall a, b :: a in zIndices && b in zIndices && a in mapIds && b !in mapIds ==> zIndices[a] < zIndices[b]
    {
      var newZIndex := -|mapIds|;
      ghost var z0 := zIndices;
      var z := zIndices;
      for i := 0 to |mapIds|
        invariant Renumber(z, mapIds[i..], newZIndex) == Renumber(z0, mapIds, -|mapIds|)
        invariant z.Keys == z0.Keys
      {
        if mapIds[i] in z {
          z := z[mapIds[i] := newZIndex];
          newZIndex := newZIndex + 1;
        }
      }
      assert mapIds[|mapIds|..] == [];
      zIndices := z;
      RemoveZIndexHoles();
      if Compact(z0, |order|) {
        SendToBackOrder(z0, order, mapIds, -|mapIds|, zIndices);
      }
    }

    /** The two loops of `bringForward` and `sendBackward`: double every index, then move the listed ones by `delta`. */
    method DoubleAndShift(mapIds: seq<string>, delta: int)
      requires Valid()
      modifies this
      ensures Valid()
      ensures warpedMapsById == old(warpedMapsById) && order == old(order) && rtree == old(rtree)
      ensures zIndices == Shift(Doubled(old(zIndices)), mapIds, delta)
    {
      var z := DoubleAll(zIndices, order);
      z := ShiftAll(z, mapIds, delta);
      ShiftProperties(Doubled(zIndices), mapIds, delta);
      zIndices := z;
    }

    /** `bringForward`: every listed map moves one place up past the unlisted map above it. */
    method BringForward(mapIds: seq<string>)
      requires Valid()
      modifies this
      ensures Valid() && Compact(zIndices, |order|)
      ensures warpedMapsById == old(warpedMapsById) && order == old(order) && rtree == old(rtree)
      ensures HolesRemoved(Shift(Doubled(old(zIndices)), mapIds, 3), order, zIndices)
    {
      DoubleAndShift(mapIds, 3);
      RemoveZIndexHoles();
    }

    /** `sendBackward`: every listed map moves one place down past the unlisted map below it. */
    method SendBackward(mapIds: seq<string>)
      requires Valid()
      modifies this
      ensures Valid() && Compact(zIndices, |order|)
      ensures warpedMapsById == old(warpedMapsById) && order == old(order) && rtree == old(rtree)
      ensures HolesRemoved(Shift(Doubled(old(zIndices)), mapIds, -3), order, zIndices)
    {
      DoubleAndShift(mapIds, -3);
      RemoveZIndexHoles();
    }

    /** `showMaps` and `hideMaps`: only `visible` changes, and only for ids that exist. */
    method SetVisibility(mapIds: seq<string>, visible: bool)
      requires Valid()
      modifies this
      ensures Valid()
      ensures warpedMapsById == WithVisibility(old(warpedMapsById), mapIds, visible)
      ensures zIndices == old(zIndices) && order == old(order) && rtree == old(rtree)
    {
      ghost var maps0 := warpedMapsById;
      var maps := warpedMapsById;
      for i := 0 to |mapIds|
        invariant WithVisibility(maps, mapIds[i..], visible) == WithVisibility(maps0, mapIds, visible)
        invariant maps.Keys == maps0.Keys
      {
        if mapIds[i] in maps {
          maps := maps[mapIds[i] := maps[mapIds[i]].(visible := visible)];
        }
      }
      assert mapIds[|mapIds|..] == [];
      warpedMapsById := maps;
    }

    method ShowMaps(mapIds: seq<string>)
      requires Valid()
      modifies this
      ensures Valid()
      ensures warpedMapsById == WithVisibility(old(warpedMapsById), mapIds, true)
      ensures zIndices == old(zIndices) && order == old(order) && rtree == old(rtree)
    {
      SetVisibility(mapIds, true);
    }

    method HideMaps(mapIds: seq<string>)
      requires Valid()
      modifies this
      ensures Valid()
      ensures warpedMapsById == WithVisibility(old(warpedMapsById), mapIds, false)
      ensures zIndices == old(zIndices) && order == old(order) && rtree == old(rtree)
    {
      SetVisibility(mapIds, false);
    }

    /**
     * `setPixelMask`: the geo mask, its box and the R-tree item are recomputed from the new
     * pixel mask; the stored `pixelMask` itself is left as it was, as in the source. When the
     * conversion throws, the error propagates before anything changes.
     */
    method SetPixelMask(mapId: string, pixelMask: seq<Pos>, polygonBBox: seq<seq<Pos>> -> BBox)
      returns (r: Result<()>)
      requires Valid()
      modifies this
      ensures Valid()
      ensures old(mapId in warpedMapsById) && old(warpedMapsById[mapId]).toGeoJsonPolygon(pixelMask).Failure? ==>
        && r == Failure(old(warpedMapsById[mapId]).toGeoJsonPolygon(pixelMask).error)
        && warpedMapsById == old(warpedMapsById) && rtree == old(rtree)
      ensures old(mapId in warpedMapsById) && old(warpedMapsById[mapId]).toGeoJsonPolygon(pixelMask).Success? ==>
        var geoMask := old(warpedMapsById[mapId]).toGeoJsonPolygon(pixelMask).value;
        && r == Success(())
        && warpedMapsById == old(warpedMapsById)[mapId := old(warpedMapsById[mapId]).(geoMask := geoMask, geoMaskBBox := polygonBBox(geoMask))]
        && rtree == (if old(rtree).Some? then Some(old(rtree).value[mapId := geoMask]) else None)
      ensures old(mapId !in warpedMapsById) ==> r == Success(()) && warpedMapsById == old(warpedMapsById) && rtree == old(rtree)
      ensures zIndices == old(zIndices) && order == old(order)
    {
      r := Success(());
      if mapId in warpedMapsById {
        var warpedMap := warpedMapsById[mapId];
        var converted := warpedMap.toGeoJsonPolygon(pixelMask);
        if converted.Failure? {
          r := Failure(converted.error);
          return;
        }
        var geoMask := converted.value;
        warpedMapsById := warpedMapsById[mapId := warpedMap.(geoMask := geoMask, geoMaskBBox := polygonBBox(geoMask))];
        if rtree.Some? {
          rtree := Some((rtree.value - {mapId})[mapId := geoMask]);
          assert (old(rtree).value - {mapId})[mapId := geoMask] == old(rtree).value[mapId := geoMask];
        }
      }
    }

    /** `clear`: no maps, no z-indices, an empty R-tree. */
    method Clear()
      modifies this
      ensures Valid()
      ensures warpedMapsById == map[] && zIndices == map[] && order == []
      ensures rtree == if old(rtree).Some? then Some(map[]) else None
    {
      warpedMapsById := map[];
      zIndices := map[];
      order := [];
      if rtree.Some? {
        rtree := Some(map[]);
      }
    }

    /** `getBBox`: the running combination of the visible maps' boxes, in insertion order. */
    method GetBBox() returns (bbox: Option<BBox>)
      requires Valid()
      ensures bbox == VisibleBBox(warpedMapsById, order)
      ensures bbox.None? <==> forall id :: !VisibleIn(warpedMapsById, order, id)
      ensures bbox.Some? ==> forall id :: VisibleIn(warpedMapsById, order, id) ==> Encloses(bbox.value, warpedMapsById[id].geoMaskBBox)
    {
      bbox := None;
      for i := 0 to |order|
        invariant bbox == VisibleBBox(warpedMapsById, order[..i])
      {
        assert order[..i + 1][..i] == order[..i];
        var warpedMap := warpedMapsById[order[i]];
        if warpedMap.visible {
          if bbox.None? {
            bbox := Some(warpedMap.geoMaskBBox);
          } else {
            bbox := Some(CombineBBoxes(bbox.value, warpedMap.geoMaskBBox));
          }
        }
      }
      assert order[..|order|] == order;
      VisibleBBoxProperties(warpedMapsById, order);
    }

    /** `getPossibleVisibleWarpedMapIds`: the R-tree's answer when there is one, otherwise every id. */
    method GetPossibleVisibleWarpedMapIds(geoBBox: BBox, searchBBox: (RTreeItems, BBox) -> seq<string>)
      returns (ids: seq<string>)
      requires Valid()
      ensures rtree.Some? ==> ids == searchBBox(rtree.value, geoBBox)
      ensures rtree.None? ==> ids == order && forall id :: id in ids <==> id in warpedMapsById
    {
      if rtree.Some? {
        ids := searchBBox(rtree.value, geoBBox);
      } else {
        ids := order;
      }
    }

    /**
     * `removeGeoreferenceAnnotation`: remove each map of the annotation in turn, collecting
     * the results, then remove the holes once.
     */
    method RemoveGeoreferenceAnnotation(mapIds: seq<string>) returns (results: seq<Result<string>>)
      requires Valid()
      modifies this
      ensures Valid() && Compact(zIndices, |order|)
      ensures |results| == |mapIds|
      ensures forall i :: 0 <= i < |mapIds| ==> results[i] == RemovalOutcome(old(warpedMapsById), mapIds, i)
      ensures warpedMapsById == old(warpedMapsById) - (set id | id in mapIds)
      ensures order == Keep(old(order), set id | id in mapIds)
      ensures HolesRemoved(old(zIndices) - (set id | id in mapIds), order, zIndices)
      ensures rtree == if old(rtree).Some? then Some(old(rtree).value - (old(warpedMapsById).Keys * set id | id in mapIds)) else None
    {
      results := [];
      ghost var maps0, z0, order0, rtree0 := warpedMapsById, zIndices, order, rtree;
      ListedNone(mapIds, maps0, z0, order0, rtree0);
      for i := 0 to |mapIds|
        invariant Valid()
        invariant |results| == i
        invariant Outcomes(maps0, mapIds, results)
        invariant RemovedSoFar(maps0, z0, order0, rtree0, mapIds, i, warpedMapsById, zIndices, order, rtree)
      {
        ghost var maps1, z1, order1, rtree1 := warpedMapsById, zIndices, order, rtree;
        var mapIdOrError := RemoveMapInternal(mapIds[i]);
        RemovalStep(maps0, z0, order0, rtree0, mapIds, i, maps1, z1, order1, rtree1,
                    warpedMapsById, zIndices, order, rtree, mapIdOrError);
        OutcomesAppend(maps0, mapIds, results, mapIdOrError);
        results := results + [mapIdOrError];
      }
      RemovedAll(maps0, z0, order0, rtree0, mapIds, warpedMapsById, zIndices, order, rtree);
      RemoveZIndexHoles();
    }
  }

  /** After the last turn every listed id has been removed. */
  lemma RemovedAll(maps0: map<string, WarpedMap>, z0: map<string, int>, order0: seq<string>, rtree0: Option<RTreeItems>,
                   mapIds: seq<string>,
                   maps: map<string, WarpedMap>, z: map<string, int>, order: seq<string>, rtree: Option<RTreeItems>)
    requires RemovedSoFar(maps0, z0, order0, rtree0, mapIds, |mapIds|, maps, z, order, rtree)
    ensures maps == maps0 - (set id | id in mapIds)
    ensures z == z0 - (set id | id in mapIds)
    ensures order == Keep(order0, set id | id in mapIds)
    ensures rtree == if rtree0.Some? then Some(rtree0.value - (maps0.Keys * set id | id in mapIds)) else None
  {
    assert mapIds[..|mapIds|] == mapIds;
    assert Listed(mapIds, |mapIds|) == set id | id in mapIds;
  }

  /** The results `removeGeoreferenceAnnotation` has collected for the first `|results|` ids. */
  predicate Outcomes(maps0: map<string, WarpedMap>, mapIds: seq<string>, results: seq<Result<string>>)
  {
    |results| <= |mapIds| && forall k :: 0 <= k < |results| ==> results[k] == RemovalOutcome(maps0, mapIds, k)
  }

  lemma OutcomesAppend(maps0: map<string, WarpedMap>, mapIds: seq<string>, results: seq<Result<string>>, r: Result<string>)
    requires Outcomes(maps0, mapIds, results) && |results| < |mapIds|
    requires r == RemovalOutcome(maps0, mapIds, |results|)
    ensures Outcomes(maps0, mapIds, results + [r])
  {
  }

  /** The state `removeGeoreferenceAnnotation` has left after removing the first `i` ids. */
  ghost predicate RemovedSoFar(maps0: map<string, WarpedMap>, z0: map<string, int>, order0: seq<string>, rtree0: Option<RTreeItems>,
                               mapIds: seq<string>, i: int,
                               maps: map<string, WarpedMap>, z: map<string, int>, order: seq<string>, rtree: Option<RTreeItems>)
    requires 0 <= i <= |mapIds|
  {
    && maps == maps0 - Listed(mapIds, i)
    && z == z0 - Listed(mapIds, i)
    && order == Keep(order0, Listed(mapIds, i))
    && rtree == if rtree0.Some? then Some(rtree0.value - (maps0.Keys * Listed(mapIds, i))) else None
  }

  /**
   * One turn of the loop of `removeGeoreferenceAnnotation`: what `removeMapInternal` does to
   * the state left by the first `i` removals is the state left by the first `i + 1`, and its
   * result is the `i`-th outcome.
   */
  lemma RemovalStep(maps0: map<string, WarpedMap>, z0: map<string, int>, order0: seq<string>, rtree0: Option<RTreeItems>,
                    mapIds: seq<string>, i: int,
                    maps1: map<string, WarpedMap>, z1: map<string, int>, order1: seq<string>, rtree1: Option<RTreeItems>,
                    maps2: map<string, WarpedMap>, z2: map<string, int>, order2: seq<string>, rtree2: Option<RTreeItems>,
                    r: Result<string>)
    requires 0 <= i < |mapIds|
    requires RemovedSoFar(maps0, z0, order0, rtree0, mapIds, i, maps1, z1, order1, rtree1)
    requires Keyed(z1, order1) && z1.Keys == maps1.Keys
    requires mapIds[i] !in maps1 ==>
      r == Failure(NoMapPrefix + mapIds[i]) && maps2 == maps1 && z2 == z1 && order2 == order1 && rtree2 == rtree1
    requires mapIds[i] in maps1 ==>
      && r == Success(mapIds[i])
      && maps2 == maps1 - {mapIds[i]} && z2 == z1 - {mapIds[i]} && order2 == Without(order1, mapIds[i])
      && rtree2 == (if rtree1.Some? then Some(rtree1.value - {mapIds[i]}) else None)
    ensures RemovedSoFar(maps0, z0, order0, rtree0, mapIds, i + 1, maps2, z2, order2, rtree2)
    ensures r == RemovalOutcome(maps0, mapIds, i)
  {
    var x := mapIds[i];
    var gone := Listed(mapIds, i);
    assert Listed(mapIds, i + 1) == gone + {x};
    MinusOneMore(maps0, gone, x);
    MinusOneMore(z0, gone, x);
    KeepWithout(order0, gone, x);
    if rtree0.Some? {
      RTreeStep(rtree0.value, maps0.Keys, gone, x);
    }
    if x !in maps1 {
      MinusAbsent(maps1, x);
      MinusAbsent(z1, x);
      WithoutAbsent(order1, x);
    }
  }

  lemma MinusOneMore<V>(m: map<string, V>, gone: set<string>, x: string)
    ensures m - (gone + {x}) == (m - gone) - {x}
  {
  }

  lemma MinusAbsent<V>(m: map<string, V>, x: string)
    requires x !in m
    ensures m - {x} == m
  {
  }

  /** The R-tree loses an id exactly when the map it belongs to is still there. */
  lemma RTreeStep(items: RTreeItems, known: set<string>, gone: set<string>, x: string)
    ensures items - (known * (gone + {x})) ==
      if x in known && x !in gone then (items - (known * gone)) - {x} else items - (known * gone)
  {
    if x in known && x !in gone {
      assert known * (gone + {x}) == (known * gone) + {x};
    } else {
      assert known * (gone + {x}) == known * gone;
    }
  }

  /** The first `n` ids of `mapIds`, as a set. */
  function Listed(mapIds: seq<string>, n: int): (r: set<string>)
    requires 0 <= n <= |mapIds|
    ensures forall id :: id in r <==> id in mapIds[..n]
  {
    if n == 0 then {}
    else
      assert mapIds[..n] == mapIds[..n - 1] + [mapIds[n - 1]];
      Listed(mapIds, n - 1) + {mapIds[n - 1]}
  }

  /** Before the first removal, the state is the initial state. */
  lemma ListedNone(mapIds: seq<string>, maps0: map<string, WarpedMap>, z0: map<string, int>, order0: seq<string>, rtree0: Option<RTreeItems>)
    ensures maps0 - Listed(mapIds, 0) == maps0 && z0 - Listed(mapIds, 0) == z0
    ensures Keep(order0, Listed(mapIds, 0)) == order0
    ensures rtree0 == if rtree0.Some? then Some(rtree0.value - (maps0.Keys * Listed(mapIds, 0))) else None
  {
    assert Listed(mapIds, 0) == {};
    KeepNothing(order0);
    if rtree0.Some? {
      assert rtree0.value - (maps0.Keys * {}) == rtree0.value;
    }
  }

  lemma {:induction false} KeepNothing(ids: seq<string>)
    ensures Keep(ids, {}) == ids
  {
    if ids != [] {
      KeepNothing(ids[1..]);
    }
  }

  /**
   * The computation of `removeZIndexHoles`: sort the entries by (z-index, position in
   * `order`) and number them in that order.
   */
  method CompactIndices(z: map<string, int>, ord: seq<string>) returns (ranks: map<string, int>)
    requires Keyed(z, ord)
    ensures HolesRemoved(z, ord, ranks) && Compact(ranks, |ord|)
  {
    var n := |ord|;
    var sortedZIndices := new ZEntry[n](k requires 0 <= k < n => ZEntry(ord[k], z[ord[k]], k));
    assert sortedZIndices[..] == Entries(z, ord);
    SortByKey(sortedZIndices, e => EntryKey(e, n));
    var sorted := sortedZIndices[..];
    SortedEntriesCover(z, ord, sorted);
    ranks := NumberInOrder(z, sorted);
    HolesFromSorted(z, ord, sorted, ranks);
    HolesRemovedProperties(z, ord, ranks);
  }

  /**
   * What `removeGeoreferenceAnnotation` reports for its `k`-th id: success when the map
   * existed and the id was not already removed earlier in the list, else the missing-map error.
   */
  function RemovalOutcome(maps: map<string, WarpedMap>, mapIds: seq<string>, k: int): (r: Result<string>)
    requires 0 <= k < |mapIds|
    ensures r.Success? <==> mapIds[k] in maps && mapIds[k] !in mapIds[..k]
    ensures r.Success? ==> r.value == mapIds[k]
    ensures r.Failure? ==> r.error == NoMapPrefix + mapIds[k]
  {
    if mapIds[k] in maps && mapIds[k] !in mapIds[..k] then Success(mapIds[k]) else Failure(NoMapPrefix + mapIds[k])
  }

  /**
   * The bookkeeping of adding a map keeps the state well-formed: the id is appended to
   * `order` when it is new, and on hole-free indices the new top index keeps them hole-free.
   */
  lemma AddedState(z: map<string, int>, order: seq<string>, maps: map<string, WarpedMap>, id: string, m: WarpedMap,
                   z': map<string, int>, order': seq<string>, maps': map<string, WarpedMap>)
    requires Keyed(z, order) && z.Keys == maps.Keys
    requires order' == (if id in order then order else order + [id])
    requires z' == z[id := |order'| - 1] && maps' == maps[id := m]
    ensures Keyed(z', order') && z'.Keys == maps'.Keys
    ensures id !in maps && Compact(z, |order|) ==> Compact(z', |order'|)
  {
    if id !in order {
      forall i, j | 0 <= i < j < |order'|
        ensures order'[i] != order'[j]
      {
        if j == |order| {
          assert order'[i] == order[i];
        } else {
          assert order'[i] == order[i] && order'[j] == order[j];
        }
      }
    }
  }

  /** Keys listed once in `order` number `|order|`. */
  lemma KeyedSize(z: map<string, int>, maps: map<string, WarpedMap>, order: seq<string>)
    requires Keyed(z, order) && z.Keys == maps.Keys
    ensures |maps| == |order|
  {
    assert maps.Keys == set id | id in order;
    DistinctCard(order);
  }

  lemma {:induction false} DistinctCard(ids: seq<string>)
    requires Distinct(ids)
    ensures |set id | id in ids| == |ids|
  {
    if ids != [] {
      var tail := ids[1..];
      assert Distinct(tail);
      DistinctCard(tail);
      assert (set id | id in ids) == (set id | id in tail) + {ids[0]};
      assert ids[0] !in tail;
    }
  }
}
