/**
 * The GeoJSON shapes the pipeline reads and writes (RFC 7946). Coordinates are
 * kept in the order they are stored; section 3.1.1 of RFC 7946 asks for
 * longitude first, latitude second.
 */
module GeoJson {

  /** A two-coordinate position, in stored order. */
  datatype Position = Position(first: real, second: real)

  type Ring = seq<Position>

  /** A Polygon is a list of rings (section 3.1.6); other geometry types are kept opaque. */
  datatype Geometry =
    | Polygon(rings: seq<Ring>)
    | OtherGeometry(kind: string)

  /** A linear ring (section 3.1.6 of RFC 7946): four or more positions, closed. */
  predicate IsLinearRing(r: Ring) {
    |r| >= 4 && r[0] == r[|r| - 1]
  }
}
