/**
 * The projective GCP transformer (packages/transform/src/transformers/projective-transformer.ts):
 * the coordinates of the control points, and the forward and backward fits, each made on
 * first use and kept.
 */
module ProjectiveTransformer {
  import opened Geometry
  import opened Wrappers

  /** A control point: a resource position and its geo position. */
  datatype Gcp = Gcp(resource: Pos, geo: Pos)

  /** `new Projective(source, destination)`: the fit through the given pairs. It is not part of this model. */
  type Fit = (seq<Pos>, seq<Pos>) -> (Pos -> Pos)

  /** A fitted projective transformation: its control positions and its `interpolant`. */
  datatype Projective = Projective(sourcePositions: seq<Pos>, destinationPositions: seq<Pos>, interpolant: Pos -> Pos)

  function NewProjective(fit: Fit, sourcePositions: seq<Pos>, destinationPositions: seq<Pos>): (p: Projective)
    ensures p.sourcePositions == sourcePositions && p.destinationPositions == destinationPositions
    ensures p.interpolant == fit(sourcePositions, destinationPositions)
  {
    Projective(sourcePositions, destinationPositions, fit(sourcePositions, destinationPositions))
  }

  /** `gcps.map((gcp) => gcp.geo)`. */
  function GeoCoords(gcps: seq<Gcp>): (r: seq<Pos>)
    ensures |r| == |gcps| && forall i :: 0 <= i < |gcps| ==> r[i] == gcps[i].geo
  {
    if gcps == [] then [] else [gcps[0].geo] + GeoCoords(gcps[1..])
  }

  /** `gcps.map((gcp) => gcp.resource)`. */
  function ResourceCoords(gcps: seq<Gcp>): (r: seq<Pos>)
    ensures |r| == |gcps| && forall i :: 0 <= i < |gcps| ==> r[i] == gcps[i].resource
  {
    if gcps == [] then [] else [gcps[0].resource] + ResourceCoords(gcps[1..])
  }

  class ProjectiveGcpTransformer {
    const gcps: seq<Gcp>
    const gcpGeoCoords: seq<Pos>
    const gcpResourceCoords: seq<Pos>
    /** What `new Projective` computes. */
    const fit: Fit

    var toGeoProjective: Option<Projective>
    var toResourceProjective: Option<Projective>

    /** How often each fit has been made. */
    ghost var toGeoFits: nat
    ghost var toResourceFits: nat

    ghost predicate Valid()
      reads this
    {
      && gcpGeoCoords == GeoCoords(gcps) && gcpResourceCoords == ResourceCoords(gcps)
      && (toGeoProjective.Some? ==> toGeoProjective.value == NewProjective(fit, gcpResourceCoords, gcpGeoCoords))
      && (toResourceProjective.Some? ==> toResourceProjective.value == NewProjective(fit, gcpGeoCoords, gcpResourceCoords))
      && toGeoFits == (if toGeoProjective.Some? then 1 else 0)
      && toResourceFits == (if toResourceProjective.Some? then 1 else 0)
    }

    constructor(gcps: seq<Gcp>, fit: Fit)
      ensures Valid()
      ensures this.gcps == gcps && this.fit == fit
      ensures toGeoProjective.None? && toResourceProjective.None?
    {
      this.gcps := gcps;
      this.fit := fit;
      gcpGeoCoords := GeoCoords(gcps);
      gcpResourceCoords := ResourceCoords(gcps);
      toGeoProjective := None;
      toResourceProjective := None;
      toGeoFits := 0;
      toResourceFits := 0;
    }

    /** The forward fit maps resource positions to geo positions. */
    method CreateToGeoProjective() returns (p: Projective)
      ensures p.sourcePositions == gcpResourceCoords && p.destinationPositions == gcpGeoCoords
      ensures p.interpolant == fit(gcpResourceCoords, gcpGeoCoords)
    {
      p := NewProjective(fit, gcpResourceCoords, gcpGeoCoords);
    }

    /** The backward fit maps geo positions to resource positions. */
    method CreateToResourceProjective() returns (p: Projective)
      ensures p.sourcePositions == gcpGeoCoords && p.destinationPositions == gcpResourceCoords
      ensures p.interpolant == fit(gcpGeoCoords, gcpResourceCoords)
    {
      p := NewProjective(fit, gcpGeoCoords, gcpResourceCoords);
    }

    /**
     * `toGeo`: makes the forward fit only when there is none, and leaves the backward fit
     * alone; the answer is the same whether the fit was made now or earlier.
     */
    method ToGeo(point: Pos) returns (r: Pos)
      requires Valid()
      modifies this
      ensures Valid()
      ensures r == fit(gcpResourceCoords, gcpGeoCoords)(point)
      ensures toGeoProjective.Some?
      ensures old(toGeoProjective).Some? ==> toGeoProjective == old(toGeoProjective) && toGeoFits == old(toGeoFits)
      ensures toGeoFits == 1
      ensures toResourceProjective == old(toResourceProjective) && toResourceFits == old(toResourceFits)
    {
      if toGeoProjective.None? {
        var projective := CreateToGeoProjective();
        toGeoProjective := Some(projective);
        toGeoFits := toGeoFits + 1;
      }
      r := toGeoProjective.value.interpolant(point);
    }

    /** `toResource`, the same for the backward fit. */
    method ToResource(point: Pos) returns (r: Pos)
      requires Valid()
      modifies this
      ensures Valid()
      ensures r == fit(gcpGeoCoords, gcpResourceCoords)(point)
      ensures toResourceProjective.Some?
      ensures old(toResourceProjective).Some? ==> toResourceProjective == old(toResourceProjective) && toResourceFits == old(toResourceFits)
      ensures toResourceFits == 1
      ensures toGeoProjective == old(toGeoProjective) && toGeoFits == old(toGeoFits)
    {
      if toResourceProjective.None? {
        var projective := CreateToResourceProjective();
        toResourceProjective := Some(projective);
        toResourceFits := toResourceFits + 1;
      }
      r := toResourceProjective.value.interpolant(point);
    }
  }
}
