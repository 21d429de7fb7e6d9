/**
 * The controller's fixed lookup tables: `type_geom` to drawing mode
 * (`standardGeometryTypes`), mode to the OpenLayers geometry type of the draw
 * interaction (`geometryTypes`), mode to the hint text (`geomTexts`), and the
 * choice of draw interaction in `addInteractions`.
 */
module Geometry {
  import opened Wrappers

  /** A drawing mode, as reported to the host toolbar. */
  datatype Mode = Point | Line | Polygon

  /** The three draw interactions the controller builds once, one per mode. */
  datatype DrawKind = DrawPoint | DrawLine | DrawPolygon

  /**
   * `standardGeometryTypes[type_geom]`: `point`, `length` and `area` are
   * mapped; any other value looks up nothing (`undefined`, here None).
   */
  function GeometryTypeOf(typeGeom: string): (m: Option<Mode>)
    ensures m == Some(Point) <==> typeGeom == "point"
    ensures m == Some(Line) <==> typeGeom == "length"
    ensures m == Some(Polygon) <==> typeGeom == "area"
  {
    if typeGeom == "point" then Some(Point)
    else if typeGeom == "length" then Some(Line)
    else if typeGeom == "area" then Some(Polygon)
    else None
  }

  /** The `switch` of `addInteractions`: `point`, `line`, and polygon for everything else. */
  function InteractionFor(m: Option<Mode>): (k: DrawKind)
    ensures k == DrawPoint <==> m == Some(Point)
    ensures k == DrawLine <==> m == Some(Line)
    ensures k == DrawPolygon <==> m !in {Some(Point), Some(Line)}
  {
    match m
    case Some(Point) => DrawPoint
    case Some(Line) => DrawLine
    case _ => DrawPolygon
  }

  /** `geometryTypes[mode]`: the OpenLayers geometry type for a mode. */
  function OlGeometryType(m: Mode): string
  {
    match m
    case Point => "Point"
    case Line => "LineString"
    case Polygon => "Polygon"
  }

  /** The geometry type each draw interaction is built with in `initInteractions`. */
  function DrawGeometryType(k: DrawKind): string
  {
    match k
    case DrawPoint => OlGeometryType(Point)
    case DrawLine => OlGeometryType(Line)
    case DrawPolygon => OlGeometryType(Polygon)
  }

  /** The hint text shown for a mode (its translation is not modelled); `undefined` shows as empty. */
  function GeomTextFor(m: Option<Mode>): string
  {
    match m
    case Some(Point) => "point geom text"
    case Some(Line) => "line geom text"
    case Some(Polygon) => "polygon geom text"
    case None => ""
  }

  /**
   * A geofunction's `type_geom` selects the interaction that draws the
   * geometry type of its mode; an unmapped `type_geom` gets the polygon one.
   */
  lemma InteractionForTypeGeom(typeGeom: string)
    ensures GeometryTypeOf(typeGeom).Some? ==>
              DrawGeometryType(InteractionFor(GeometryTypeOf(typeGeom))) == OlGeometryType(GeometryTypeOf(typeGeom).value)
    ensures typeGeom == "point" ==> InteractionFor(GeometryTypeOf(typeGeom)) == DrawPoint
    ensures typeGeom == "length" ==> InteractionFor(GeometryTypeOf(typeGeom)) == DrawLine
    ensures typeGeom != "point" && typeGeom != "length" ==> InteractionFor(GeometryTypeOf(typeGeom)) == DrawPolygon
  {
  }

  /** Different modes get different interactions and different hint texts. */
  lemma InteractionForInjective(m1: Mode, m2: Mode)
    ensures InteractionFor(Some(m1)) == InteractionFor(Some(m2)) <==> m1 == m2
    ensures GeomTextFor(Some(m1)) == GeomTextFor(Some(m2)) <==> m1 == m2
  {
  }
}
