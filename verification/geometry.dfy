/** Geometries as tagged values whose coordinates are carried but never
    computed with, and the type normalisation applied to buffer results. */
module Geometry {

  datatype Position = Position(x: real, y: real)

  /** A polygon: an exterior ring and any interior rings. */
  datatype PolygonShape = PolygonShape(shell: seq<Position>, holes: seq<seq<Position>>)

  datatype Geometry =
    | Point(at: Position)
    | LineString(path: seq<Position>)
    | Polygon(shape: PolygonShape)
    | MultiPolygon(parts: seq<PolygonShape>)
    | GeometryCollection(members: seq<Geometry>)

  /** Shapely's `geom_type` name of a geometry. */
  function GeomType(g: Geometry): string
  {
    match g
    case Point(_) => "Point"
    case LineString(_) => "LineString"
    case Polygon(_) => "Polygon"
    case MultiPolygon(_) => "MultiPolygon"
    case GeometryCollection(_) => "GeometryCollection"
  }

  /** The polygons a polygonal geometry covers, in order; none for the others. */
  function PolygonsOf(g: Geometry): seq<PolygonShape>
  {
    match g
    case Polygon(p) => [p]
    case MultiPolygon(ps) => ps
    case _ => []
  }

  /** The buffer lambda: a bare polygon becomes a one-part multi-polygon,
      every other geometry passes through unchanged. */
  function NormalizeBuffer(g: Geometry): (r: Geometry)
    ensures GeomType(r) != "Polygon"
    ensures g.Polygon? ==> r == MultiPolygon([g.shape])
    ensures !g.Polygon? ==> r == g
    ensures PolygonsOf(r) == PolygonsOf(g)
  {
    if GeomType(g) == "Polygon" then MultiPolygon([g.shape]) else g
  }

  /** Normalising twice is normalising once. */
  lemma NormalizeIdempotent(g: Geometry)
    ensures NormalizeBuffer(NormalizeBuffer(g)) == NormalizeBuffer(g)
  {
  }

  /** The column-wide `apply` of the lambda. */
  function NormalizeAll(gs: seq<Geometry>): (rs: seq<Geometry>)
    ensures |rs| == |gs|
    ensures forall i | 0 <= i < |rs| :: GeomType(rs[i]) != "Polygon" && PolygonsOf(rs[i]) == PolygonsOf(gs[i])
    ensures forall i | 0 <= i < |rs| :: gs[i].Polygon? ==> rs[i] == MultiPolygon([gs[i].shape])
    ensures forall i | 0 <= i < |rs| :: !gs[i].Polygon? ==> rs[i] == gs[i]
  {
    seq(|gs|, i requires 0 <= i < |gs| => NormalizeBuffer(gs[i]))
  }
}
