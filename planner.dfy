/** grid (src/grid.py, lines 156-230): chooses between one cell, a fixed
    2x2 split around the midpoint, and the full fill of create_grid, by
    comparing the distance between the two input points with the ideal
    distance. */
module Planner {
  import opened Geo
  import opened Filler

  datatype Option<T> = None | Some(value: T)

  /** The ideal distance, in metres, used when no distance is given. */
  const DefaultIdealDistance: real := 1040.0

  /** ideal_distance_meters: the argument when one is given, else the
      default. */
  function IdealDistance(distanceArg: Option<real>): (ideal: real)
    ensures distanceArg.None? ==> ideal == DefaultIdealDistance
    ensures distanceArg.Some? ==> ideal == distanceArg.value
  {
    match distanceArg
    case Some(d) => d
    case None => DefaultIdealDistance
  }

  /** The point whose coordinates are the averages of those of a and b. */
  function Midpoint(a: Point, b: Point): Point {
    Point((a.lat + b.lat) / 2.0, (a.lon + b.lon) / 2.0)
  }

  lemma NonNegativeSquare(x: real)
    ensures 0.0 <= x * x
  {
  }

  /** square_side: the side of a square whose diagonal is `ideal`. */
  function SquareSide(m: Maths, ideal: real): (s: real)
    requires m.Valid()
    ensures 0.0 <= s && 2.0 * s * s == ideal * ideal
  {
    NonNegativeSquare(ideal);
    m.sqrt(ideal * ideal / 2.0)
  }

  /** The side is positive exactly when the ideal distance is not zero. */
  lemma SquareSidePositive(m: Maths, ideal: real)
    requires m.Valid()
    ensures SquareSide(m, ideal) > 0.0 <==> ideal != 0.0
  {
    var s := SquareSide(m, ideal);
    if s > 0.0 {
      if ideal == 0.0 {
        calc { 0.0; < 2.0 * s * s; == ideal * ideal; == 0.0; }
      }
    } else if ideal > 0.0 {
      calc { 0.0; == 2.0 * s * s; == ideal * ideal; > 0.0; }
    } else if ideal < 0.0 {
      calc { 0.0; == 2.0 * s * s; == ideal * ideal; == (-ideal) * (-ideal); > 0.0; }
    }
  }

  /** The 2x2 split: four polygons, each spanned by the midpoint and one
      corner of the rectangle of a and b, listed in the order of the source
      (the corner at b, the one at (b.lat, a.lon), the one at (a.lat, b.lon),
      the one at a). */
  function SplitFour(a: Point, b: Point): (r: seq<Polygon>)
    ensures |r| == 4
    ensures forall i :: 0 <= i < 4 ==> AxisAligned(r[i]) && Midpoint(a, b) in Corners(r[i])
    ensures && b in Corners(r[0]) && Point(b.lat, a.lon) in Corners(r[1])
            && Point(a.lat, b.lon) in Corners(r[2]) && a in Corners(r[3])
  {
    var mid := Midpoint(a, b);
    [CreatePolygon(mid, b),
     CreatePolygon(Point(mid.lat, a.lon), Point(b.lat, mid.lon)),
     CreatePolygon(Point(a.lat, mid.lon), Point(mid.lat, b.lon)),
     CreatePolygon(a, mid)]
  }

  /** Every corner of the split takes its latitude from a, b or the
      midpoint and its longitude likewise, so it lies in the rectangle of
      a and b. */
  lemma SplitFourCorners(a: Point, b: Point)
    ensures forall i, c :: 0 <= i < 4 && c in Corners(SplitFour(a, b)[i]) ==>
              && (c.lat == a.lat || c.lat == b.lat || c.lat == Midpoint(a, b).lat)
              && (c.lon == a.lon || c.lon == b.lon || c.lon == Midpoint(a, b).lon)
              && InRect(c, CreatePolygon(a, b))
  {
  }

  /** The four polygons cover the rectangle of a and b. */
  lemma SplitFourCovers(a: Point, b: Point, p: Point)
    requires InRect(p, CreatePolygon(a, b))
    ensures exists i :: 0 <= i < 4 && InRect(p, SplitFour(a, b)[i])
  {
    var r, mid := SplitFour(a, b), Midpoint(a, b);
    var north := Between(p.lat, mid.lat, a.lat);
    var east := Between(p.lon, mid.lon, a.lon);
    if north && east {
      assert InRect(p, r[3]);
    } else if north {
      assert Between(p.lon, mid.lon, b.lon);
      assert InRect(p, r[2]);
    } else if east {
      assert Between(p.lat, mid.lat, b.lat);
      assert InRect(p, r[1]);
    } else {
      assert InRect(p, r[0]);
    }
  }

  /** No point lies inside two of the four polygons. */
  lemma SplitFourDisjoint(a: Point, b: Point, p: Point, i: int, j: int)
    requires 0 <= i < j < 4
    ensures !(InInterior(p, SplitFour(a, b)[i]) && InInterior(p, SplitFour(a, b)[j]))
  {
  }

  /** The check before the big fill: a must be at a positive distance both
      from the polygon's "left_up" and from its "right_down" corner. For a
      distance that is zero exactly between equal points, that is when a and
      b differ in both latitude and longitude. */
  predicate BigGridGuard(distance: (Point, Point) -> real, a: Point, b: Point)
    ensures (forall p, q :: 0.0 <= distance(p, q) && (distance(p, q) == 0.0 <==> p == q)) ==>
              (BigGridGuard(distance, a, b) <==> a.lat != b.lat && a.lon != b.lon)
  {
    var box := CreatePolygon(a, b);
    assert a == box.leftUp <==> a.lon == b.lon;
    assert a == box.rightDown <==> a.lat == b.lat;
    distance(a, box.leftUp) > 0.0 && distance(a, box.rightDown) > 0.0
  }

  /** The inputs on which grid returns. With an ideal distance of zero the
      fill's step is zero, and create_grid never leaves its inner loop once
      it has started it, that is when b lies strictly south-west of a. */
  predicate Returns(distance: (Point, Point) -> real, a: Point, b: Point, ideal: real) {
    ideal == 0.0 && distance(a, b) > 0.0 && BigGridGuard(distance, a, b) ==> !SouthWestOf(b, a)
  }

  /** The polygons grid returns for the points a and b and the ideal
      distance `ideal`. In every branch each of them has its sides on
      meridians and parallels. */
  function Tiles(m: Maths, distance: (Point, Point) -> real, a: Point, b: Point, ideal: real): (r: seq<Polygon>)
    requires m.Valid() && Returns(distance, a, b, ideal)
    ensures forall i :: 0 <= i < |r| ==> AxisAligned(r[i])
  {
    var d := distance(a, b);
    var box := CreatePolygon(a, b);
    if d > ideal then
      if d < ideal * 2.0 then SplitFour(a, b)
      else if BigGridGuard(distance, a, b) then
        SquareSidePositive(m, ideal);
        Fill(m, box, SquareSide(m, ideal))
      else []
    else [box]
  }

  /** What each branch returns: the rectangle itself up to the ideal
      distance (equality included), four polygons around the midpoint
      strictly between one and two ideal distances, and from twice the
      ideal distance on (equality included) either nothing or the fill
      with the square side, which is nonempty exactly when b is strictly
      south-west of a. */
  lemma TilesBranches(m: Maths, distance: (Point, Point) -> real, a: Point, b: Point, ideal: real)
    requires m.Valid() && Returns(distance, a, b, ideal)
    ensures distance(a, b) <= ideal ==> Tiles(m, distance, a, b, ideal) == [CreatePolygon(a, b)]
    ensures ideal < distance(a, b) < 2.0 * ideal ==>
              && Tiles(m, distance, a, b, ideal) == SplitFour(a, b)
              && |Tiles(m, distance, a, b, ideal)| == 4
              && forall i :: 0 <= i < 4 ==> Midpoint(a, b) in Corners(Tiles(m, distance, a, b, ideal)[i])
    ensures ideal < distance(a, b) && 2.0 * ideal <= distance(a, b) ==>
              (Tiles(m, distance, a, b, ideal) != [] <==>
               BigGridGuard(distance, a, b) && SouthWestOf(b, a))
    ensures ideal < distance(a, b) && 2.0 * ideal <= distance(a, b) && BigGridGuard(distance, a, b) ==>
              && (SouthWestOf(b, a) ==> SquareSide(m, ideal) > 0.0)
              && Tiles(m, distance, a, b, ideal) == Fill(m, CreatePolygon(a, b), SquareSide(m, ideal))
  {
    var box := CreatePolygon(a, b);
    if ideal < distance(a, b) && 2.0 * ideal <= distance(a, b) && BigGridGuard(distance, a, b) {
      SquareSidePositive(m, ideal);
    }
  }

  /** With a distance that is zero exactly between equal points, the fill
      branch returns something exactly when b is strictly south-west of a:
      the guard is then implied. */
  lemma BigTilesNonEmpty(m: Maths, distance: (Point, Point) -> real, a: Point, b: Point, ideal: real)
    requires forall p, q :: 0.0 <= distance(p, q) && (distance(p, q) == 0.0 <==> p == q)
    requires m.Valid() && Returns(distance, a, b, ideal)
    requires ideal < distance(a, b) && 2.0 * ideal <= distance(a, b)
    ensures Tiles(m, distance, a, b, ideal) != [] <==> SouthWestOf(b, a)
  {
    TilesBranches(m, distance, a, b, ideal);
  }

  /** grid: sets the ideal distance (the module global of the source, here
      an out-parameter), then builds the polygons of the chosen branch. */
  method Grid(m: Maths, distance: (Point, Point) -> real,
              latP1: real, longP1: real, latP2: real, longP2: real, distanceArg: Option<real>)
    returns (cells: seq<Polygon>, ideal: real)
    requires m.Valid()
    requires Returns(distance, Point(latP1, longP1), Point(latP2, longP2), IdealDistance(distanceArg))
    ensures distanceArg.None? ==> ideal == DefaultIdealDistance
    ensures distanceArg.Some? ==> ideal == distanceArg.value
    ensures cells == Tiles(m, distance, Point(latP1, longP1), Point(latP2, longP2), ideal)
  {
    if distanceArg.Some? {
      ideal := distanceArg.value;
    } else {
      ideal := DefaultIdealDistance;
    }
    var pointA := Point(latP1, longP1);
    var pointB := Point(latP2, longP2);
    var distancePoints := distance(pointA, pointB);
    var squareSide := SquareSide(m, ideal);
    cells := [];
    var polygonPoints := CreatePolygon(pointA, pointB);
    if distancePoints > ideal {
      if distancePoints < ideal * 2.0 {
        cells := SplitFour(pointA, pointB);
      } else {
        if distance(pointA, polygonPoints.leftUp) > 0.0 && distance(pointA, polygonPoints.rightDown) > 0.0 {
          SquareSidePositive(m, ideal);
          cells := CreateGrid(m, polygonPoints, squareSide);
        }
      }
    } else {
      cells := [polygonPoints];
    }
  }
}
