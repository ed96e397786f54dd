/** create_grid (src/grid.py, lines 109-153): the nested while loops that walk a
    polygon from its "left_down" corner and lay down one cell per step.

    The recursive functions RowFrom and Rows are the specification of the two
    loops; CreateGrid is the imperative loop proved equal to them. */
module Filler {
  import opened Geo

  /** The loop guard of create_grid: `start` is strictly south and strictly
      west of `final`. */
  predicate SouthWestOf(start: Point, final: Point) {
    start.lat < final.lat && start.lon < final.lon
  }

  /** What one row of the inner loop leaves behind: the cells it appended
      and the final values of left_down_point and diagonal_point. */
  datatype RowEnd = RowEnd(cells: seq<Polygon>, leftDown: Point, diagonal: Point)

  /** The inner loop from the state (latSum, lonSum, leftDown, diagonal):
      while lonSum <= finalLon, build the diagonal point of (latSum, lonSum),
      append create_polygon(leftDown, diagonal), and move both lonSum and
      leftDown to the diagonal's longitude. */
  function RowFrom(m: Maths, meters: real, finalLon: real,
                   latSum: real, lonSum: real, leftDown: Point, diagonal: Point): (r: RowEnd)
    requires m.Valid() && meters > 0.0
    decreases StepsLeft(finalLon, lonSum, DeltaLon(m, meters, latSum))
    ensures lonSum > finalLon ==> r == RowEnd([], leftDown, diagonal)
    ensures lonSum <= finalLon ==>
      && |r.cells| >= 1
      && r.diagonal.lat == latSum + DeltaLat(m, meters)
      && r.leftDown.lat == latSum
  {
    if lonSum > finalLon then RowEnd([], leftDown, diagonal)
    else
      var diagonal' := Offset45(m, meters, latSum, lonSum);
      var cell := CreatePolygon(leftDown, diagonal');
      var leftDown' := Point(latSum, diagonal'.lon);
      DeltaSigns(m, meters, latSum);
      Advance(finalLon, lonSum, diagonal'.lon, DeltaLon(m, meters, latSum));
      var rest := RowFrom(m, meters, finalLon, latSum, diagonal'.lon, leftDown', diagonal');
      RowEnd([cell] + rest.cells, rest.leftDown, rest.diagonal)
  }

  /** The number of whole steps of size `step` from `cur` up to `bound`. */
  function StepsLeft(bound: real, cur: real, step: real): int {
    if step > 0.0 then ((bound - cur) / step).Floor else 0
  }

  /** Moving a cursor from `cur` one step d to `next` lowers the number of
      whole steps left before `bound` by exactly one. */
  lemma Advance(bound: real, cur: real, next: real, d: real)
    requires d > 0.0 && cur <= bound && next == cur + d
    ensures 0 <= StepsLeft(bound, cur, d)
    ensures StepsLeft(bound, next, d) == StepsLeft(bound, cur, d) - 1
  {
    assert (bound - next) / d == (bound - cur) / d - d / d;
    assert d / d == 1.0;
  }

  /** One row in detail. It has floor((finalLon - lonSum) / step) + 1
      cells, where step is the longitude delta at latSum. The first cell is
      anchored at whatever leftDown was on entry; each later one starts on
      the row's latitude where the previous cell's diagonal ended. Every
      diagonal lies one latitude step north of the row and one longitude
      step east of the previous one, and the row stops at the first
      diagonal east of finalLon. */
  lemma {:induction false} RowShape(m: Maths, meters: real, finalLon: real,
                                    latSum: real, lonSum: real, leftDown: Point, diagonal: Point)
    requires m.Valid() && meters > 0.0 && lonSum <= finalLon
    decreases StepsLeft(finalLon, lonSum, DeltaLon(m, meters, latSum))
    ensures var r := RowFrom(m, meters, finalLon, latSum, lonSum, leftDown, diagonal);
            var dLat, dLon := DeltaLat(m, meters), DeltaLon(m, meters, latSum);
      && |r.cells| == StepsLeft(finalLon, lonSum, dLon) + 1
      && r.cells[0].rightUp == leftDown
      && r.cells[0].leftDown == Point(latSum + dLat, lonSum + dLon)
      && (forall i :: 0 <= i < |r.cells| ==>
            && r.cells[i].leftDown.lat == latSum + dLat
            && (0 < i ==> r.cells[i].rightUp.lat == latSum))
      && (forall i, j {:trigger r.cells[i], r.cells[j]} :: 0 <= i && j == i + 1 && j < |r.cells| ==>
            && r.cells[j].rightUp.lon == r.cells[i].leftDown.lon
            && r.cells[j].leftDown.lon == r.cells[i].leftDown.lon + dLon)
      && (forall i :: 0 <= i < |r.cells| - 1 ==> r.cells[i].leftDown.lon <= finalLon)
      && finalLon < r.cells[|r.cells| - 1].leftDown.lon
      && (forall i :: 0 <= i < |r.cells| ==> AxisAligned(r.cells[i]))
      && r.diagonal == r.cells[|r.cells| - 1].leftDown
      && r.leftDown == Point(latSum, r.diagonal.lon)
  {
    var dLon := DeltaLon(m, meters, latSum);
    var diagonal' := Offset45(m, meters, latSum, lonSum);
    DeltaSigns(m, meters, latSum);
    Advance(finalLon, lonSum, diagonal'.lon, dLon);
    if diagonal'.lon <= finalLon {
      RowShape(m, meters, finalLon, latSum, diagonal'.lon, Point(latSum, diagonal'.lon), diagonal');
    } else {
      LastStep(finalLon, lonSum, dLon);
    }
  }

  /** A cursor less than one step d short of `bound` has no whole step left. */
  lemma LastStep(bound: real, cur: real, d: real)
    requires cur <= bound < cur + d
    ensures StepsLeft(bound, cur, d) == 0
  {
  }

  /** The outer loop from latitude latSum, with the longitude cursor reset to
      start.lon and leftDown carried over from the previous row. */
  function Rows(m: Maths, meters: real, start: Point, final: Point,
                latSum: real, leftDown: Point): (cells: seq<Polygon>)
    requires m.Valid() && meters > 0.0 && start.lon <= final.lon
    decreases StepsLeft(final.lat, latSum, DeltaLat(m, meters))
    ensures latSum > final.lat <==> cells == []
  {
    if latSum > final.lat then []
    else
      var row := RowFrom(m, meters, final.lon, latSum, start.lon, leftDown, leftDown);
      DeltaSigns(m, meters, latSum);
      Advance(final.lat, latSum, row.diagonal.lat, DeltaLat(m, meters));
      row.cells + Rows(m, meters, start, final, row.diagonal.lat, row.leftDown)
  }

  /** One turn of the outer loop: the rows from latSum are the row started
      there followed by the rows from the latitude that row ends on, one
      step fewer. The diagonal the row starts with is irrelevant, because
      the first cell always replaces it. */
  lemma RowsStep(m: Maths, meters: real, start: Point, final: Point,
                 latSum: real, leftDown: Point, diagonal: Point)
    requires m.Valid() && meters > 0.0 && start.lon <= final.lon && latSum <= final.lat
    ensures var row := RowFrom(m, meters, final.lon, latSum, start.lon, leftDown, diagonal);
            && Rows(m, meters, start, final, latSum, leftDown)
               == row.cells + Rows(m, meters, start, final, row.diagonal.lat, row.leftDown)
            && 0 <= StepsLeft(final.lat, latSum, DeltaLat(m, meters))
            && StepsLeft(final.lat, row.diagonal.lat, DeltaLat(m, meters))
               == StepsLeft(final.lat, latSum, DeltaLat(m, meters)) - 1
  {
    var row := RowFrom(m, meters, final.lon, latSum, start.lon, leftDown, diagonal);
    assert row == RowFrom(m, meters, final.lon, latSum, start.lon, leftDown, leftDown);
    DeltaSigns(m, meters, latSum);
    Advance(final.lat, latSum, row.diagonal.lat, DeltaLat(m, meters));
  }

  /** What create_grid returns: the rows from "left_down" when "left_down"
      is strictly south-west of "right_up", and nothing otherwise. Every
      cell is an axis-aligned rectangle. */
  function Fill(m: Maths, polygon: Polygon, meters: real): (cells: seq<Polygon>)
    requires m.Valid()
    requires SouthWestOf(polygon.leftDown, polygon.rightUp) ==> meters > 0.0
    ensures cells == [] <==> !SouthWestOf(polygon.leftDown, polygon.rightUp)
    ensures forall i :: 0 <= i < |cells| ==> AxisAligned(cells[i])
  {
    var start, final := polygon.leftDown, polygon.rightUp;
    if SouthWestOf(start, final) then
      RowsCells(m, meters, start, final, start.lat, start);
      Rows(m, meters, start, final, start.lat, start)
    else []
  }

  /** A cell as create_grid lays it: an axis-aligned rectangle whose
      "left_down" corner (the diagonal point) lies strictly north of `lo`, at
      most `hi`, and strictly north of its "right_up" corner. */
  predicate CellInBand(c: Polygon, lo: real, hi: real) {
    && AxisAligned(c)
    && lo < c.leftDown.lat <= hi
    && c.rightUp.lat < c.leftDown.lat
  }

  /** Every cell of the rows from latSum is an axis-aligned rectangle whose
      "left_down" corner (the diagonal point) is north of the row it was
      laid from, at most one latitude step past final, and strictly north of
      its "right_up" corner. */
  lemma {:induction false} RowsCells(m: Maths, meters: real, start: Point, final: Point,
                                     latSum: real, leftDown: Point)
    requires m.Valid() && meters > 0.0 && start.lon <= final.lon
    requires leftDown.lat <= latSum
    decreases StepsLeft(final.lat, latSum, DeltaLat(m, meters))
    ensures forall i :: 0 <= i < |Rows(m, meters, start, final, latSum, leftDown)| ==>
      CellInBand(Rows(m, meters, start, final, latSum, leftDown)[i], latSum, final.lat + DeltaLat(m, meters))
  {
    if latSum <= final.lat {
      var row := RowFrom(m, meters, final.lon, latSum, start.lon, leftDown, leftDown);
      var dLat := DeltaLat(m, meters);
      RowLatitudes(m, meters, final.lon, latSum, start.lon, leftDown);
      DeltaSigns(m, meters, latSum);
      assert 0.0 < dLat && row.diagonal.lat == latSum + dLat;
      Advance(final.lat, latSum, row.diagonal.lat, dLat);
      RowsCells(m, meters, start, final, row.diagonal.lat, row.leftDown);
      var rest := Rows(m, meters, start, final, row.diagonal.lat, row.leftDown);
      var cells := Rows(m, meters, start, final, latSum, leftDown);
      assert cells == row.cells + rest;
      forall i | 0 <= i < |cells|
        ensures CellInBand(cells[i], latSum, final.lat + dLat)
      {
        if i < |row.cells| {
          assert cells[i] == row.cells[i];
          assert row.cells[i].leftDown.lat == latSum + dLat;
          assert row.cells[i].rightUp.lat <= latSum;
        } else {
          var j := i - |row.cells|;
          assert cells[i] == rest[j];
          assert CellInBand(rest[j], row.diagonal.lat, final.lat + dLat);
        }
      }
    }
  }

  /** The latitudes of one row: all diagonals one step north of latSum, all
      "right_up" corners at or south of latSum (given the entry leftDown
      is). */
  lemma RowLatitudes(m: Maths, meters: real, finalLon: real, latSum: real, lonSum: real, leftDown: Point)
    requires m.Valid() && meters > 0.0 && lonSum <= finalLon && leftDown.lat <= latSum
    ensures var r := RowFrom(m, meters, finalLon, latSum, lonSum, leftDown, leftDown);
      && r.diagonal.lat == latSum + DeltaLat(m, meters)
      && r.leftDown.lat == latSum
      && forall i :: 0 <= i < |r.cells| ==>
           && AxisAligned(r.cells[i])
           && r.cells[i].leftDown.lat == latSum + DeltaLat(m, meters)
           && r.cells[i].rightUp.lat <= latSum
  {
    var r := RowFrom(m, meters, finalLon, latSum, lonSum, leftDown, leftDown);
    RowShape(m, meters, finalLon, latSum, lonSum, leftDown, leftDown);
    forall i | 0 < i < |r.cells|
      ensures r.cells[i].leftDown.lat == latSum + DeltaLat(m, meters) && r.cells[i].rightUp.lat <= latSum
    {
    }
  }

  /** Every cell create_grid returns is axis-aligned, and the point it
      stores under "right_up" is strictly south of the one under
      "left_down"; no cell's north edge overshoots the polygon by more than
      one latitude step. */
  lemma FillCells(m: Maths, polygon: Polygon, meters: real)
    requires m.Valid()
    requires SouthWestOf(polygon.leftDown, polygon.rightUp) ==> meters > 0.0
    ensures var cells := Fill(m, polygon, meters);
      forall i :: 0 <= i < |cells| ==>
        CellInBand(cells[i], polygon.leftDown.lat, polygon.rightUp.lat + DeltaLat(m, meters))
  {
    var start, final := polygon.leftDown, polygon.rightUp;
    if SouthWestOf(start, final) {
      RowsCells(m, meters, start, final, start.lat, start);
    }
  }

  /** left_down_point is not reset between rows: the first cell of the
      second row is anchored on the first row's latitude, east of the
      polygon, and spans two latitude steps. */
  lemma SecondRowCarriesCorner(m: Maths, polygon: Polygon, meters: real)
    requires m.Valid()
    requires SouthWestOf(polygon.leftDown, polygon.rightUp) && meters > 0.0
    requires polygon.leftDown.lat + DeltaLat(m, meters) <= polygon.rightUp.lat
    ensures var start, final := polygon.leftDown, polygon.rightUp;
            var dLat := DeltaLat(m, meters);
            var n := |RowFrom(m, meters, final.lon, start.lat, start.lon, start, start).cells|;
            var cells := Fill(m, polygon, meters);
      && n < |cells|
      && cells[n].rightUp.lat == start.lat
      && final.lon < cells[n].rightUp.lon
      && cells[n].leftDown == Point(start.lat + 2.0 * dLat, start.lon + DeltaLon(m, meters, start.lat + dLat))
  {
    var start, final := polygon.leftDown, polygon.rightUp;
    var dLat := DeltaLat(m, meters);
    var row := RowFrom(m, meters, final.lon, start.lat, start.lon, start, start);
    RowShape(m, meters, final.lon, start.lat, start.lon, start, start);
    var lat1 := row.diagonal.lat;
    assert lat1 == start.lat + dLat;
    var row2 := RowFrom(m, meters, final.lon, lat1, start.lon, row.leftDown, row.leftDown);
    RowShape(m, meters, final.lon, lat1, start.lon, row.leftDown, row.leftDown);
    var rest := Rows(m, meters, start, final, lat1, row.leftDown);
    assert rest == row2.cells + Rows(m, meters, start, final, row2.diagonal.lat, row2.leftDown);
    assert Fill(m, polygon, meters) == row.cells + rest;
    assert Fill(m, polygon, meters)[|row.cells|] == row2.cells[0];
  }

  /** Longitudes in one row: every diagonal lies at or east of x when the
      first one does, every "right_up" point after the first one does too,
      and so does the left_down_point the row hands on. */
  lemma {:induction false} RowEastOf(m: Maths, meters: real, finalLon: real, latSum: real,
                                     lonSum: real, leftDown: Point, diagonal: Point, x: real)
    requires m.Valid() && meters > 0.0 && x <= lonSum + DeltaLon(m, meters, latSum)
    decreases StepsLeft(finalLon, lonSum, DeltaLon(m, meters, latSum))
    ensures var r := RowFrom(m, meters, finalLon, latSum, lonSum, leftDown, diagonal);
      && (forall i :: 0 <= i < |r.cells| ==>
            x <= r.cells[i].leftDown.lon && (0 < i || x <= leftDown.lon ==> x <= r.cells[i].rightUp.lon))
      && (lonSum <= finalLon ==> x <= r.leftDown.lon)
  {
    if lonSum <= finalLon {
      var dLon := DeltaLon(m, meters, latSum);
      var diagonal' := Offset45(m, meters, latSum, lonSum);
      var leftDown' := Point(latSum, diagonal'.lon);
      DeltaSigns(m, meters, latSum);
      Advance(finalLon, lonSum, diagonal'.lon, dLon);
      RowEastOf(m, meters, finalLon, latSum, diagonal'.lon, leftDown', diagonal', x);
      var rest := RowFrom(m, meters, finalLon, latSum, diagonal'.lon, leftDown', diagonal');
      var r := RowFrom(m, meters, finalLon, latSum, lonSum, leftDown, diagonal);
      assert r.cells == [CreatePolygon(leftDown, diagonal')] + rest.cells;
      forall i | 0 < i < |r.cells|
        ensures x <= r.cells[i].leftDown.lon && x <= r.cells[i].rightUp.lon
      {
        assert r.cells[i] == rest.cells[i - 1];
      }
    }
  }

  /** From the second row on, with a carried left_down_point at or east of
      x = start.lon + one latitude step, every cell lies at or east of x. */
  lemma {:induction false} RowsEastOf(m: Maths, meters: real, start: Point, final: Point,
                                      latSum: real, leftDown: Point)
    requires m.Valid() && meters > 0.0 && start.lon <= final.lon
    requires start.lon + DeltaLat(m, meters) <= leftDown.lon
    decreases StepsLeft(final.lat, latSum, DeltaLat(m, meters))
    ensures forall i :: 0 <= i < |Rows(m, meters, start, final, latSum, leftDown)| ==>
      && start.lon + DeltaLat(m, meters) <= Rows(m, meters, start, final, latSum, leftDown)[i].rightUp.lon
      && start.lon + DeltaLat(m, meters) <= Rows(m, meters, start, final, latSum, leftDown)[i].leftDown.lon
  {
    if latSum <= final.lat {
      var x := start.lon + DeltaLat(m, meters);
      var row := RowFrom(m, meters, final.lon, latSum, start.lon, leftDown, leftDown);
      DeltaSigns(m, meters, latSum);
      RowEastOf(m, meters, final.lon, latSum, start.lon, leftDown, leftDown, x);
      RowsStep(m, meters, start, final, latSum, leftDown, leftDown);
      RowsEastOf(m, meters, start, final, row.diagonal.lat, row.leftDown);
      var rest := Rows(m, meters, start, final, row.diagonal.lat, row.leftDown);
      var cells := Rows(m, meters, start, final, latSum, leftDown);
      assert cells == row.cells + rest;
      forall i | 0 <= i < |cells|
        ensures x <= cells[i].rightUp.lon && x <= cells[i].leftDown.lon
      {
        if i < |row.cells| {
          assert cells[i] == row.cells[i];
        } else {
          assert cells[i] == rest[i - |row.cells|];
        }
      }
    }
  }

  /** create_grid does not cover its polygon. Once the polygon is 1.5
      latitude steps tall and half a step wide, the point 1.5 steps north
      and half a step east of "left_down" lies in the polygon but in no
      returned cell: the first row ends one step north of "left_down", and
      every later row starts from the left_down_point carried past the east
      edge and goes on from its own diagonals, so all its cells keep at least
      one step east of "left_down". */
  lemma FillMissesWestStrip(m: Maths, polygon: Polygon, meters: real)
    requires m.Valid() && meters > 0.0
    requires SouthWestOf(polygon.leftDown, polygon.rightUp)
    requires polygon.leftDown.lat + 1.5 * DeltaLat(m, meters) <= polygon.rightUp.lat
    requires polygon.leftDown.lon + 0.5 * DeltaLat(m, meters) <= polygon.rightUp.lon
    ensures var p := Point(polygon.leftDown.lat + 1.5 * DeltaLat(m, meters),
                           polygon.leftDown.lon + 0.5 * DeltaLat(m, meters));
      && InRect(p, polygon)
      && forall c :: c in Fill(m, polygon, meters) ==> !InRect(p, c)
  {
    var start, final := polygon.leftDown, polygon.rightUp;
    var dLat := DeltaLat(m, meters);
    var p := Point(start.lat + 1.5 * dLat, start.lon + 0.5 * dLat);
    DeltaSigns(m, meters, start.lat);
    var row := RowFrom(m, meters, final.lon, start.lat, start.lon, start, start);
    RowLatitudes(m, meters, final.lon, start.lat, start.lon, start);
    RowEastOf(m, meters, final.lon, start.lat, start.lon, start, start, start.lon + dLat);
    RowsStep(m, meters, start, final, start.lat, start, start);
    RowsEastOf(m, meters, start, final, row.diagonal.lat, row.leftDown);
    var rest := Rows(m, meters, start, final, row.diagonal.lat, row.leftDown);
    var cells := Fill(m, polygon, meters);
    assert cells == row.cells + rest;
    forall c | c in cells
      ensures !InRect(p, c)
    {
      var i :| 0 <= i < |cells| && cells[i] == c;
      if i < |row.cells| {
        assert c == row.cells[i];
      } else {
        assert c == rest[i - |row.cells|];
      }
    }
  }

  /** lon_sum after n steps of the inner loop at latitude latSum. */
  function LonAfter(m: Maths, meters: real, latSum: real, lonSum: real, n: nat): real
    requires m.Valid()
    decreases n
  {
    if n == 0 then lonSum
    else LonAfter(m, meters, latSum, Offset45(m, meters, latSum, lonSum).lon, n - 1)
  }

  /** Why create_grid needs a positive side once its guard passes: with
      meters <= 0 the longitude cursor never moves east, so the inner loop's
      condition lon_sum <= final_point.lon holds after any number of steps. */
  lemma {:induction false} NonPositiveSideNeverEndsRow(m: Maths, meters: real, finalLon: real,
                                                      latSum: real, lonSum: real, n: nat)
    requires m.Valid() && meters <= 0.0 && lonSum <= finalLon
    decreases n
    ensures LonAfter(m, meters, latSum, lonSum, n) <= lonSum
    ensures LonAfter(m, meters, latSum, lonSum, n) <= finalLon
  {
    if n > 0 {
      var next := Offset45(m, meters, latSum, lonSum).lon;
      NonPositiveSideNeverEndsRow(m, meters, finalLon, latSum, next, n - 1);
    }
  }

  /** The inner while loop of create_grid: from the state (latSum, lonSum,
      leftDown, diagonal), append one cell per step to `grid` until lonSum
      passes finalLon, and hand back the cursors it leaves behind. */
  method FillRow(m: Maths, meters: real, finalLon: real, latSum: real,
                 lonSum0: real, leftDown0: Point, diagonal0: Point, grid0: seq<Polygon>)
    returns (grid: seq<Polygon>, lonSum: real, leftDown: Point, diagonal: Point)
    requires m.Valid() && meters > 0.0
    ensures var row := RowFrom(m, meters, finalLon, latSum, lonSum0, leftDown0, diagonal0);
            grid == grid0 + row.cells && leftDown == row.leftDown && diagonal == row.diagonal
    ensures finalLon < lonSum
    ensures lonSum0 <= finalLon ==> lonSum == diagonal.lon
  {
    grid, lonSum, leftDown, diagonal := grid0, lonSum0, leftDown0, diagonal0;
    ghost var row := RowFrom(m, meters, finalLon, latSum, lonSum0, leftDown0, diagonal0);
    while lonSum <= finalLon
      invariant lonSum0 <= finalLon && lonSum != lonSum0 ==> lonSum == diagonal.lon
      invariant lonSum0 <= lonSum
      invariant var rest := RowFrom(m, meters, finalLon, latSum, lonSum, leftDown, diagonal);
                grid + rest.cells == grid0 + row.cells && rest.leftDown == row.leftDown && rest.diagonal == row.diagonal
      decreases StepsLeft(finalLon, lonSum, DeltaLon(m, meters, latSum))
    {
      ghost var before := RowFrom(m, meters, finalLon, latSum, lonSum, leftDown, diagonal);
      diagonal := DiagonalPoint45(m, meters, latSum, lonSum);
      var cell := CreatePolygon(leftDown, diagonal);
      DeltaSigns(m, meters, latSum);
      Advance(finalLon, lonSum, diagonal.lon, DeltaLon(m, meters, latSum));
      lonSum := diagonal.lon;
      leftDown := Point(latSum, lonSum);
      ghost var after := RowFrom(m, meters, finalLon, latSum, lonSum, leftDown, diagonal);
      assert before.cells == [cell] + after.cells;
      assert (grid + [cell]) + after.cells == grid + before.cells;
      grid := grid + [cell];
    }
  }

  /** create_grid: the nested loops as written, including the two quirks
      of the source. left_down_point is not reset at the start of a row, and
      each cell is create_polygon(left_down_point, diagonal_point), so the
      cell's southern point is stored under "right_up" and the diagonal under
      "left_down". The southern point is south-west of the diagonal, except
      in the first cell of every row after the first: there it is the point
      carried past the east edge, which lies south-east of the diagonal when
      that diagonal is at or west of the east edge, and can lie at or west of
      it in a polygon narrower than one longitude step. */
  method CreateGrid(m: Maths, polygon: Polygon, distance: real) returns (grid: seq<Polygon>)
    requires m.Valid()
    requires SouthWestOf(polygon.leftDown, polygon.rightUp) ==> distance > 0.0
    ensures grid == Fill(m, polygon, distance)
  {
    var start := polygon.leftDown;
    var final := polygon.rightUp;
    grid := [];
    if start.lat < final.lat && start.lon < final.lon {
      var leftDown := start;
      var latSum := leftDown.lat;
      var lonSum := leftDown.lon;
      // overwritten by the first inner iteration, which always runs
      var diagonal := start;
      ghost var all := Rows(m, distance, start, final, start.lat, start);
      while latSum <= final.lat
        invariant lonSum == start.lon
        invariant grid + Rows(m, distance, start, final, latSum, leftDown) == all
        decreases StepsLeft(final.lat, latSum, DeltaLat(m, distance))
      {
        RowsStep(m, distance, start, final, latSum, leftDown, diagonal);
        grid, lonSum, leftDown, diagonal := FillRow(m, distance, final.lon, latSum, lonSum, leftDown, diagonal, grid);
        latSum := diagonal.lat;
        lonSum := start.lon;
      }
    }
  }
}
