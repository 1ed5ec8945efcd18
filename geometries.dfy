/**
 * The survey footprint (src/utils/geometries.py): a square around the surveyed
 * point whose sides come from four geodesic destination points, and the closed
 * (longitude, latitude) ring built from it.
 */
module Geometries {
  import opened GeoJson

  /** A point on the ellipsoid in decimal degrees. */
  datatype LatLon = LatLon(lat: real, lon: real)

  /**
   * geopy's `distance(kilometers=d).destination(start, bearing)`: the point reached
   * from `start` after d kilometres along the bearing (degrees). The geodesic
   * computation itself is not modelled; it is a parameter.
   */
  type Destination = (LatLon, real, real) -> LatLon

  /** Half the side of the footprint square, in kilometres, when the caller gives none. */
  const DefaultHalfSideKm: real := 0.5

  /** The tuple (min_lat, min_lon, max_lat, max_lon) that bounding_box returns. */
  datatype BBox = BBox(minLat: real, minLon: real, maxLat: real, maxLon: real)

  /**
   * bounding_box: the southern edge is the latitude reached going south (bearing 180),
   * the northern edge going north (0), the western edge's longitude going west (270)
   * and the eastern edge's going east (90).
   */
  function BoundingBox(destination: Destination, centerLat: real, centerLon: real, halfSideKm: real): BBox {
    var center := LatLon(centerLat, centerLon);
    BBox(
      destination(center, halfSideKm, 180.0).lat,
      destination(center, halfSideKm, 270.0).lon,
      destination(center, halfSideKm, 0.0).lat,
      destination(center, halfSideKm, 90.0).lon)
  }

  /** The four corners of a box, as (longitude, latitude) positions. */
  function SouthWest(b: BBox): Position { Position(b.minLon, b.minLat) }
  function SouthEast(b: BBox): Position { Position(b.maxLon, b.minLat) }
  function NorthEast(b: BBox): Position { Position(b.maxLon, b.maxLat) }
  function NorthWest(b: BBox): Position { Position(b.minLon, b.maxLat) }

  /** The exterior ring survey_polygon builds from a box: SW, SE, NE, NW and back to SW. */
  function BoxRing(b: BBox): Ring {
    [SouthWest(b), SouthEast(b), NorthEast(b), NorthWest(b), SouthWest(b)]
  }

  /**
   * survey_polygon: the footprint of a survey row, whose `y` column is the latitude
   * and whose `x` column is the longitude, with the default half side.
   */
  function SurveyPolygon(destination: Destination, x: real, y: real): (g: Geometry)
    ensures g.Polygon? && |g.rings| == 1
    ensures var ring := g.rings[0];
      && |ring| == 5 && IsLinearRing(ring)
      && (forall k :: 0 <= k < 4 ==> ring[k].first == ring[k + 1].first || ring[k].second == ring[k + 1].second)
    // The south-west corner comes first, the north-east corner third, each from the
    // destination points reached from (y, x) going west/south and east/north.
    ensures var c := LatLon(y, x);
      && g.rings[0][0] == Position(destination(c, DefaultHalfSideKm, 270.0).lon, destination(c, DefaultHalfSideKm, 180.0).lat)
      && g.rings[0][2] == Position(destination(c, DefaultHalfSideKm, 90.0).lon, destination(c, DefaultHalfSideKm, 0.0).lat)
  {
    var ring := BoxRing(BoundingBox(destination, y, x, DefaultHalfSideKm));
    Polygon([ring])
  }

  // ---------------------------------------------------------------------------
  // Properties of the ring
  // ---------------------------------------------------------------------------

  /** Twice the signed area of a ring by the shoelace formula; positive when counterclockwise. */
  function TwiceSignedArea(r: Ring): real
    decreases |r|
  {
    if |r| < 2 then 0.0
    else r[0].first * r[1].second - r[1].first * r[0].second + TwiceSignedArea(r[1..])
  }

  /** The smallest and largest first/second coordinates of a non-empty ring. */
  function MinFirst(r: Ring): real
    requires r != []
    decreases |r|
  {
    if |r| == 1 then r[0].first else Min(r[0].first, MinFirst(r[1..]))
  }

  function MaxFirst(r: Ring): real
    requires r != []
    decreases |r|
  {
    if |r| == 1 then r[0].first else Max(r[0].first, MaxFirst(r[1..]))
  }

  function MinSecond(r: Ring): real
    requires r != []
    decreases |r|
  {
    if |r| == 1 then r[0].second else Min(r[0].second, MinSecond(r[1..]))
  }

  function MaxSecond(r: Ring): real
    requires r != []
    decreases |r|
  {
    if |r| == 1 then r[0].second else Max(r[0].second, MaxSecond(r[1..]))
  }

  function Min(a: real, b: real): real { if a <= b then a else b }
  function Max(a: real, b: real): real { if a >= b then a else b }

  predicate Ordered(b: BBox) {
    b.minLat <= b.maxLat && b.minLon <= b.maxLon
  }

  /**
   * The ring spans exactly the box: its longitudes range over [min_lon, max_lon]
   * and its latitudes over [min_lat, max_lat].
   */
  lemma BoxRingExtent(b: BBox)
    requires Ordered(b)
    ensures var r := BoxRing(b);
      && MinFirst(r) == b.minLon && MaxFirst(r) == b.maxLon
      && MinSecond(r) == b.minLat && MaxSecond(r) == b.maxLat
  {
    var r := BoxRing(b);
    var r1, r2, r3, r4 := r[1..], r[2..], r[3..], r[4..];
    assert r1[1..] == r2 && r2[1..] == r3 && r3[1..] == r4;
    assert MinFirst(r4) == b.minLon && MaxFirst(r4) == b.minLon;
    assert MinSecond(r4) == b.minLat && MaxSecond(r4) == b.minLat;
    assert MinFirst(r3) == b.minLon && MaxFirst(r3) == b.minLon;
    assert MinSecond(r3) == b.minLat && MaxSecond(r3) == b.maxLat;
    assert MinFirst(r2) == b.minLon && MaxFirst(r2) == b.maxLon;
    assert MinSecond(r2) == b.minLat && MaxSecond(r2) == b.maxLat;
    assert MinFirst(r1) == b.minLon && MaxFirst(r1) == b.maxLon;
    assert MinSecond(r1) == b.minLat && MaxSecond(r1) == b.maxLat;
  }

  /**
   * The ring winds counterclockwise (the right-hand rule of section 3.2 of RFC 7946
   * for exterior rings): its shoelace sum is twice the box's width times its height.
   */
  lemma BoxRingCounterclockwise(b: BBox)
    ensures TwiceSignedArea(BoxRing(b)) == 2.0 * (b.maxLon - b.minLon) * (b.maxLat - b.minLat)
    ensures b.minLon < b.maxLon && b.minLat < b.maxLat ==> TwiceSignedArea(BoxRing(b)) > 0.0
  {
    var r := BoxRing(b);
    var r1, r2, r3, r4 := r[1..], r[2..], r[3..], r[4..];
    assert r1[1..] == r2 && r2[1..] == r3 && r3[1..] == r4;
    assert TwiceSignedArea(r4) == 0.0;
    assert TwiceSignedArea(r3) == b.minLon * b.minLat - b.minLon * b.maxLat;
    assert TwiceSignedArea(r2) == b.maxLon * b.maxLat - b.minLon * b.maxLat + TwiceSignedArea(r3);
    assert TwiceSignedArea(r1) == b.maxLon * b.maxLat - b.maxLon * b.minLat + TwiceSignedArea(r2);
    assert TwiceSignedArea(r) == b.minLon * b.minLat - b.maxLon * b.minLat + TwiceSignedArea(r1);
    var w, h := b.maxLon - b.minLon, b.maxLat - b.minLat;
    if w > 0.0 && h > 0.0 {
      assert w * h > 0.0;
    }
  }

  /**
   * With a destination that moves the way its bearing says (north raises the
   * latitude, south lowers it, east raises the longitude, west lowers it), the
   * box is non-degenerate and holds its centre strictly inside.
   */
  lemma BoundingBoxContainsCenter(destination: Destination, lat: real, lon: real, halfSideKm: real)
    requires var c := LatLon(lat, lon);
      && destination(c, halfSideKm, 0.0).lat > lat && destination(c, halfSideKm, 180.0).lat < lat
      && destination(c, halfSideKm, 90.0).lon > lon && destination(c, halfSideKm, 270.0).lon < lon
    ensures var b := BoundingBox(destination, lat, lon, halfSideKm);
      b.minLat < lat < b.maxLat && b.minLon < lon < b.maxLon
  {
  }

  /**
   * The footprint of a survey row, under the same assumption about the destination
   * at (y, x) with the default half side: its ring has non-zero extent in both
   * directions, holds the surveyed point strictly inside, and winds counterclockwise.
   */
  lemma SurveyPolygonEnclosesPoint(destination: Destination, x: real, y: real)
    requires var c := LatLon(y, x);
      && destination(c, DefaultHalfSideKm, 0.0).lat > y && destination(c, DefaultHalfSideKm, 180.0).lat < y
      && destination(c, DefaultHalfSideKm, 90.0).lon > x && destination(c, DefaultHalfSideKm, 270.0).lon < x
    ensures var ring := SurveyPolygon(destination, x, y).rings[0];
      && MinFirst(ring) < x < MaxFirst(ring)
      && MinSecond(ring) < y < MaxSecond(ring)
      && TwiceSignedArea(ring) > 0.0
  {
    var b := BoundingBox(destination, y, x, DefaultHalfSideKm);
    BoundingBoxContainsCenter(destination, y, x, DefaultHalfSideKm);
    BoxRingExtent(b);
    BoxRingCounterclockwise(b);
  }
}
