/** Points, the four-corner polygons built from two diagonal corners, and the
    metres-to-degrees translation along both axes (src/grid.py, lines 8-71).
    Coordinates are reals: floating-point rounding is not modelled. */
module Geo {

  /** A latitude/longitude pair in degrees. */
  datatype Point = Point(lat: real, lon: real)

  /** The dictionary returned by create_polygon, one field per key. */
  datatype Polygon = Polygon(leftUp: Point, rightUp: Point, leftDown: Point, rightDown: Point)

  /** The transcendental parts of Python's math module that the tiling uses.
      cosDeg(x) stands for math.cos(math.radians(x)), degPerRad for
      180 / math.pi, and sqrt for math.sqrt. */
  datatype Maths = Maths(cosDeg: real -> real, degPerRad: real, sqrt: real -> real) {
    /** What the model assumes of them: a cosine in (0, 1] (no pole is ever
        reached), a positive conversion factor, and an exact square root. */
    ghost predicate Valid() {
      && degPerRad > 0.0
      && (forall x :: 0.0 < cosDeg(x) <= 1.0)
      && (forall x :: 0.0 <= x ==> 0.0 <= sqrt(x) && sqrt(x) * sqrt(x) == x)
    }
  }

  /** Earth radius, in metres, used by the conversion. */
  const EarthRadius: real := 6378137.0

  function Corners(q: Polygon): set<Point> {
    {q.leftUp, q.rightUp, q.leftDown, q.rightDown}
  }

  /** The four corners form a rectangle whose sides follow meridians and
      parallels: the "up" corners share a latitude, the "down" corners share
      a latitude, the "left" corners share a longitude, and so do the "right"
      ones. */
  predicate AxisAligned(q: Polygon) {
    && q.leftUp.lat == q.rightUp.lat
    && q.leftDown.lat == q.rightDown.lat
    && q.leftUp.lon == q.leftDown.lon
    && q.rightUp.lon == q.rightDown.lon
  }

  /** x lies on the closed segment between u and v, in either order. */
  predicate Between(x: real, u: real, v: real) {
    (u <= x <= v) || (v <= x <= u)
  }

  /** x lies strictly inside the segment between u and v, in either order. */
  predicate StrictlyBetween(x: real, u: real, v: real) {
    (u < x < v) || (v < x < u)
  }

  /** p lies in the closed lat/lon rectangle spanned by the polygon's
      rightUp and leftDown corners. */
  predicate InRect(p: Point, q: Polygon) {
    Between(p.lat, q.rightUp.lat, q.leftDown.lat) && Between(p.lon, q.rightUp.lon, q.leftDown.lon)
  }

  /** p lies in the interior of that rectangle. */
  predicate InInterior(p: Point, q: Polygon) {
    StrictlyBetween(p.lat, q.rightUp.lat, q.leftDown.lat) && StrictlyBetween(p.lon, q.rightUp.lon, q.leftDown.lon)
  }

  /** create_polygon: point1 is stored as "right_up", point2 as "left_down",
      and the two remaining corners mix their coordinates. */
  function CreatePolygon(point1: Point, point2: Point): (q: Polygon)
    ensures q.rightUp == point1 && q.leftDown == point2
    ensures AxisAligned(q)
  {
    Polygon(Point(point1.lat, point2.lon), point1, point2, Point(point2.lat, point1.lon))
  }

  /** The polygon is the only axis-aligned one with the given diagonal. */
  lemma CreatePolygonUnique(point1: Point, point2: Point, q: Polygon)
    ensures q == CreatePolygon(point1, point2) <==>
            (AxisAligned(q) && q.rightUp == point1 && q.leftDown == point2)
  {
  }

  /** Rebuilding a polygon from its own diagonal gives it back. */
  lemma CreatePolygonFromDiagonal(q: Polygon)
    requires AxisAligned(q)
    ensures CreatePolygon(q.rightUp, q.leftDown) == q
  {
    CreatePolygonUnique(q.rightUp, q.leftDown, q);
  }

  /** Swapping the arguments keeps the four corner points and permutes
      their labels. */
  lemma CreatePolygonSwap(point1: Point, point2: Point)
    ensures var q, s := CreatePolygon(point1, point2), CreatePolygon(point2, point1);
            && s.leftUp == q.rightDown && s.rightDown == q.leftUp
            && s.rightUp == q.leftDown && s.leftDown == q.rightUp
            && Corners(s) == Corners(q)
  {
  }

  /** Two equal points give a degenerate polygon whose corners all coincide. */
  lemma CreatePolygonDegenerate(p: Point)
    ensures Corners(CreatePolygon(p, p)) == {p}
  {
  }

  /** Every corner takes its latitude from one argument and its longitude
      from one argument, so it lies in the rectangle the arguments span. */
  lemma CreatePolygonCorners(point1: Point, point2: Point)
    ensures forall c :: c in Corners(CreatePolygon(point1, point2)) ==>
              && (c.lat == point1.lat || c.lat == point2.lat)
              && (c.lon == point1.lon || c.lon == point2.lon)
              && InRect(c, CreatePolygon(point1, point2))
  {
  }

  /** Python's int() on a float: truncation toward zero. */
  function Trunc(x: real): (n: int)
    ensures 0.0 <= x ==> n as real <= x < n as real + 1.0
    ensures x < 0.0 ==> n as real - 1.0 < x <= n as real
  {
    if x >= 0.0 then x.Floor else -((-x).Floor)
  }

  /** An angle split into whole degrees, whole minutes and seconds. */
  datatype Dms = Dms(degrees: int, minutes: int, seconds: real)

  /** The value an angle in degrees/minutes/seconds stands for. */
  function DmsValue(d: Dms): real {
    d.degrees as real + d.minutes as real / 60.0 + d.seconds / 3600.0
  }

  /** The split performed on each delta by diagonal_point_45. Read back, it
      gives the delta exactly; minutes and seconds stay below 60 in
      magnitude and carry the delta's sign. */
  function ToDms(delta: real): (d: Dms)
    ensures DmsValue(d) == delta
    ensures 0.0 <= delta ==> 0 <= d.minutes < 60 && 0.0 <= d.seconds < 60.0
    ensures delta < 0.0 ==> -60 < d.minutes <= 0 && -60.0 < d.seconds <= 0.0
  {
    var degrees := Trunc(delta);
    var minutes := Trunc((delta - degrees as real) * 60.0);
    var seconds := ((delta - degrees as real) * 60.0 - minutes as real) * 60.0;
    Dms(degrees, minutes, seconds)
  }

  /** Degrees of latitude covered by `meters` along a meridian: read back
      as an arc of the earth's radius, they give the metres again. */
  function DeltaLat(m: Maths, meters: real): (deg: real)
    requires m.Valid()
    ensures deg / m.degPerRad * EarthRadius == meters
  {
    var rad := meters / EarthRadius;
    assert rad * m.degPerRad / m.degPerRad == rad;
    rad * m.degPerRad
  }

  /** Degrees of longitude covered by `meters` along the parallel at
      latitude `refLat`: read back as an arc of that parallel's radius,
      they give the metres again. */
  function DeltaLon(m: Maths, meters: real, refLat: real): (deg: real)
    requires m.Valid()
    ensures deg / m.degPerRad * (EarthRadius * m.cosDeg(refLat)) == meters
  {
    var radius := EarthRadius * m.cosDeg(refLat);
    var rad := meters / radius;
    assert rad * m.degPerRad / m.degPerRad == rad;
    rad * m.degPerRad
  }

  /** Both deltas share the sign of `meters`, and the longitude delta is at
      least the latitude delta in size (the cosine is at most one). */
  lemma DeltaSigns(m: Maths, meters: real, refLat: real)
    requires m.Valid()
    ensures meters > 0.0 ==> 0.0 < DeltaLat(m, meters) <= DeltaLon(m, meters, refLat)
    ensures meters == 0.0 ==> DeltaLat(m, meters) == 0.0 && DeltaLon(m, meters, refLat) == 0.0
    ensures meters < 0.0 ==> DeltaLon(m, meters, refLat) <= DeltaLat(m, meters) < 0.0
  {
    var c := m.cosDeg(refLat);
    var k := meters / EarthRadius;
    assert 0.0 < c <= 1.0;
    assert meters / (EarthRadius * c) == k / c;
    if meters > 0.0 {
      assert k * c <= k by { assert k * (1.0 - c) >= 0.0; }
      assert k / c >= k by { assert k / c * c == k; }
    } else if meters < 0.0 {
      assert k <= k * c by { assert k * (1.0 - c) <= 0.0; }
      assert k / c <= k by { assert k / c * c == k; }
    }
  }

  /** The point `meters` north and `meters` east of the reference, with each
      distance converted to degrees directly. */
  function Offset45(m: Maths, meters: real, refLat: real, refLon: real): Point
    requires m.Valid()
  {
    Point(refLat + DeltaLat(m, meters), refLon + DeltaLon(m, meters, refLat))
  }

  /** diagonal_point_45: the point `meters` north and `meters` east of the
      reference, computed through the degrees/minutes/seconds split. */
  function DiagonalPoint45(m: Maths, meters: real, refLat: real, refLon: real): (p: Point)
    requires m.Valid()
    ensures p == Offset45(m, meters, refLat, refLon)
    ensures meters == 0.0 ==> p == Point(refLat, refLon)
    ensures meters > 0.0 ==> refLat < p.lat && refLon < p.lon
    ensures meters < 0.0 ==> p.lat < refLat && p.lon < refLon
  {
    DeltaSigns(m, meters, refLat);
    var lat := ToDms(DeltaLat(m, meters));
    var lon := ToDms(DeltaLon(m, meters, refLat));
    Point(refLat + lat.degrees as real + lat.minutes as real / 60.0 + lat.seconds / 3600.0,
          refLon + lon.degrees as real + lon.minutes as real / 60.0 + lon.seconds / 3600.0)
  }
}
