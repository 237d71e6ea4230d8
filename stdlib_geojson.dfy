/** GeoJSON guards, conversions and wrapping: packages/stdlib/src/geojson.ts. */
module StdGeojson {
  import opened Geometry
  import opened Wrappers

  /** A JavaScript value as it arrives from JSON. */
  datatype Json =
    | JNull
    | JBool(b: bool)
    | JNum(n: real)
    | JStr(s: string)
    | JArr(items: seq<Json>)
    | JObj(fields: map<string, Json>)

  /** `typeof input === 'object' && input !== null`: arrays are objects too. */
  predicate IsObject(j: Json)
  {
    j.JArr? || j.JObj?
  }

  /** `input[key]`; `None` is `undefined` (arrays have no `type` or `coordinates`). */
  function Field(j: Json, key: string): Option<Json>
  {
    if j.JObj? && key in j.fields then Some(j.fields[key]) else None
  }

  predicate IsArray(v: Option<Json>)
  {
    v.Some? && v.value.JArr?
  }

  /**
   * `isPosition`, `isLineString` and `isPolygon` of the geometry module, which is not
   * part of this model; `None` is the `undefined` they may be called with.
   */
  datatype GeometryChecks = GeometryChecks(
    isPosition: Option<Json> -> bool,
    isLineString: Option<Json> -> bool,
    isPolygon: Option<Json> -> bool)

  predicate IsGeojsonPoint(checks: GeometryChecks, input: Json)
  {
    IsObject(input) && Field(input, "type") == Some(JStr("Point"))
    && checks.isPosition(Field(input, "coordinates"))
  }

  predicate IsGeojsonLineString(checks: GeometryChecks, input: Json)
  {
    IsObject(input) && Field(input, "type") == Some(JStr("LineString"))
    && checks.isLineString(Field(input, "coordinates"))
  }

  predicate IsGeojsonPolygon(checks: GeometryChecks, input: Json)
  {
    IsObject(input) && Field(input, "type") == Some(JStr("Polygon"))
    && IsArray(Field(input, "coordinates")) && checks.isPolygon(Field(input, "coordinates"))
  }

  predicate IsGeojsonGeometry(input: Json)
  {
    var t := Field(input, "type");
    && IsObject(input)
    && t.Some? && t.value.JStr?
    && t.value.s in {"Point", "LineString", "Polygon"}
    && IsArray(Field(input, "coordinates"))
  }

  /** Each guard needs its own `type` tag, so no value passes two of them. */
  lemma GuardsExclusive(checks: GeometryChecks, input: Json)
    ensures !(IsGeojsonPoint(checks, input) && IsGeojsonLineString(checks, input))
    ensures !(IsGeojsonPoint(checks, input) && IsGeojsonPolygon(checks, input))
    ensures !(IsGeojsonLineString(checks, input) && IsGeojsonPolygon(checks, input))
  {
  }

  /** What a plain position or coordinate list (not an object with a `type`) gives the guards. */
  lemma GuardsRejectBareCoordinates(checks: GeometryChecks, items: seq<Json>)
    ensures !IsGeojsonPoint(checks, JArr(items))
    ensures !IsGeojsonLineString(checks, JArr(items))
    ensures !IsGeojsonPolygon(checks, JArr(items))
    ensures !IsGeojsonGeometry(JArr(items))
  {
  }

  /** A value that passes a specific guard also passes `isGeojsonGeometry`, when the check only accepts arrays. */
  lemma GuardsImplyGeometry(checks: GeometryChecks, input: Json)
    requires forall v :: checks.isPosition(v) ==> IsArray(v)
    requires forall v :: checks.isLineString(v) ==> IsArray(v)
    ensures IsGeojsonPoint(checks, input) ==> IsGeojsonGeometry(input)
    ensures IsGeojsonLineString(checks, input) ==> IsGeojsonGeometry(input)
    ensures IsGeojsonPolygon(checks, input) ==> IsGeojsonGeometry(input)
  {
  }

  /** A typed GeoJSON geometry. */
  datatype GeojsonGeometry =
    | GeojsonPoint(position: Pos)
    | GeojsonLineString(lineString: seq<Pos>)
    | GeojsonPolygon(polygon: seq<seq<Pos>>)

  /** `conformRing` / `conformPolygon` of the geometry module: the conformed value, or an error. */
  type Conform<!T> = T -> Result<T>

  /** What the geometry tests promise of a conformed ring: it is not empty. */
  ghost predicate ConformsToNonEmptyRings(conformPolygon: Conform<seq<seq<Pos>>>)
  {
    forall p :: conformPolygon(p).Success? ==>
      forall i :: 0 <= i < |conformPolygon(p).value| ==> |conformPolygon(p).value[i]| > 0
  }

  /**
   * `conformRing` as `convertGeojsonPolygonToRing` calls it: on `coordinates[0]`, which is
   * `undefined` (`None`) for a polygon with no rings.
   */
  type ConformRing = Option<seq<Pos>> -> Result<seq<Pos>>

  ghost predicate ConformsToNonEmptyRing(conformRing: ConformRing)
  {
    forall r :: conformRing(r).Success? ==> |conformRing(r).value| > 0
  }

  /** `coordinates[0]`: the outer ring, or `undefined` when there are no rings. */
  function OuterRing(polygon: seq<seq<Pos>>): (r: Option<seq<Pos>>)
    ensures r.None? <==> polygon == []
    ensures r.Some? ==> r.value == polygon[0]
  {
    if polygon == [] then None else Some(polygon[0])
  }

  /** A ring closed in the sense of section 3.1.6 of RFC 7946: its last position repeats its first. */
  predicate IsClosedRing(ring: seq<Pos>)
  {
    |ring| >= 2 && ring[0] == ring[|ring| - 1]
  }

  function CloseRing(ring: seq<Pos>): (r: seq<Pos>)
    requires |ring| > 0
    ensures |r| == |ring| + 1 && r[..|ring|] == ring && IsClosedRing(r)
  {
    ring + [ring[0]]
  }

  /** `convertGeojsonPolygonToRing`: the conformed outer ring, closed again only when asked. */
  function ConvertGeojsonPolygonToRing(
    conformRing: ConformRing, polygon: seq<seq<Pos>>, close: bool): (r: Result<seq<Pos>>)
    requires ConformsToNonEmptyRing(conformRing)
    ensures conformRing(OuterRing(polygon)).Failure? <==> r.Failure?
    ensures r.Success? && !close ==> r.value == conformRing(OuterRing(polygon)).value
    ensures r.Success? && close ==>
      var outer := conformRing(OuterRing(polygon)).value;
      |r.value| == |outer| + 1 && r.value[..|outer|] == outer && IsClosedRing(r.value)
  {
    var outerRing :- conformRing(OuterRing(polygon));
    Success(if close then CloseRing(outerRing) else outerRing)
  }

  function CloseRings(rings: seq<seq<Pos>>): (r: seq<seq<Pos>>)
    requires forall i :: 0 <= i < |rings| ==> |rings[i]| > 0
    ensures |r| == |rings|
    ensures forall i :: 0 <= i < |rings| ==> r[i] == CloseRing(rings[i])
  {
    seq(|rings|, i requires 0 <= i < |rings| => CloseRing(rings[i]))
  }

  /** `convertGeojsonPolygonToPolygon`: every conformed ring is closed again only when asked. */
  function ConvertGeojsonPolygonToPolygon(
    conformPolygon: Conform<seq<seq<Pos>>>, polygon: seq<seq<Pos>>, close: bool): (r: Result<seq<seq<Pos>>>)
    requires ConformsToNonEmptyRings(conformPolygon)
    ensures conformPolygon(polygon).Failure? <==> r.Failure?
    ensures r.Success? && !close ==> r.value == conformPolygon(polygon).value
    ensures r.Success? && close ==>
      var conformed := conformPolygon(polygon).value;
      |r.value| == |conformed|
      && forall i :: 0 <= i < |conformed| ==>
        |r.value[i]| == |conformed[i]| + 1 && r.value[i][..|conformed[i]|] == conformed[i]
        && IsClosedRing(r.value[i])
  {
    var conformed :- conformPolygon(polygon);
    Success(if close then CloseRings(conformed) else conformed)
  }

  /** An SVG shape; the ring of a polygon is `None` (`undefined`) for a polygon with no rings. */
  datatype SvgGeometry = SvgCircle(center: Pos) | SvgPolyline(points: seq<Pos>) | SvgPolygon(ring: Option<seq<Pos>>)

  /** `convertGeojsonToSvg`: Point to circle, LineString to polyline, Polygon to its outer ring. */
  function ConvertGeojsonToSvg(geometry: GeojsonGeometry): (r: SvgGeometry)
    ensures geometry.GeojsonPoint? <==> r.SvgCircle?
    ensures geometry.GeojsonLineString? <==> r.SvgPolyline?
    ensures geometry.GeojsonPolygon? <==> r.SvgPolygon?
    ensures r.SvgCircle? ==> r.center == geometry.position
    ensures r.SvgPolyline? ==> r.points == geometry.lineString
    ensures r.SvgPolygon? ==> r.ring == if geometry.polygon == [] then None else Some(geometry.polygon[0])
  {
    match geometry
    case GeojsonPoint(p) => SvgCircle(p)
    case GeojsonLineString(l) => SvgPolyline(l)
    case GeojsonPolygon(rings) => SvgPolygon(OuterRing(rings))
  }

  datatype Feature = Feature(properties: Json, geometry: GeojsonGeometry)
  datatype FeatureCollection = FeatureCollection(features: seq<Feature>)

  /** JavaScript truthiness of a value; `None` is `undefined`. */
  predicate Truthy(v: Option<Json>)
  {
    match v
    case None => false
    case Some(JNull) => false
    case Some(JBool(b)) => b
    case Some(JNum(n)) => n != 0.0
    case Some(JStr(s)) => s != ""
    case Some(_) => true
  }

  /** `geometryToFeature`: falsy or missing properties become `{}`. */
  function GeometryToFeature(geometry: GeojsonGeometry, properties: Option<Json>): (f: Feature)
    ensures f.geometry == geometry
    ensures Truthy(properties) ==> f.properties == properties.value
    ensures !Truthy(properties) ==> f.properties == JObj(map[])
  {
    Feature(if Truthy(properties) then properties.value else JObj(map[]), geometry)
  }

  datatype FeatureOrFeatures = OneFeature(feature: Feature) | Features(features: seq<Feature>)

  /** `featuresToFeatureCollection`: one feature is wrapped in a list, a list is kept. */
  function FeaturesToFeatureCollection(features: FeatureOrFeatures): (c: FeatureCollection)
    ensures features.OneFeature? ==> c.features == [features.feature]
    ensures features.Features? ==> c.features == features.features
  {
    match features
    case OneFeature(f) => FeatureCollection([f])
    case Features(fs) => FeatureCollection(fs)
  }

  /** `properties[i]`, `undefined` past the end of the list or when there is no list. */
  function PropertyAt(properties: Option<seq<Json>>, i: nat): Option<Json>
  {
    if properties.Some? && i < |properties.value| then Some(properties.value[i]) else None
  }

  /** `geometriesToFeatureCollection`: one feature per geometry, paired with the properties at the same index. */
  function GeometriesToFeatureCollection(geometries: seq<GeojsonGeometry>, properties: Option<seq<Json>>): (c: FeatureCollection)
    ensures |c.features| == |geometries|
    ensures forall i :: 0 <= i < |geometries| ==>
      c.features[i].geometry == geometries[i]
      && (Truthy(PropertyAt(properties, i)) ==> c.features[i].properties == properties.value[i])
      && (!Truthy(PropertyAt(properties, i)) ==> c.features[i].properties == JObj(map[]))
  {
    FeatureCollection(seq(|geometries|, i requires 0 <= i < |geometries| =>
      GeometryToFeature(geometries[i], PropertyAt(properties, i))))
  }
}
