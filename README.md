# Grid tiling of a bounding box

A model of the tiling logic in `src/grid.py`. This code splits the
rectangle spanned by two geographic points into polygons. Each polygon is a
record of four corner points, and the polygons are later used as search
areas. It has three parts:

- `Geo` (`geo.dfy`) covers points and polygons. It holds `create_polygon`,
  which builds the four corners from two diagonal ones, and
  `diagonal_point_45`, which moves a point a number of metres north and east.
  That conversion goes through a degrees/minutes/seconds split, and the
  model proves the split reads back to the same delta exactly.
- `Filler` (`filler.dfy`) covers `create_grid`, the two nested `while`
  loops that walk the polygon row by row from its `"left_down"` corner and
  append one cell per step.
  - The recursive functions `RowFrom` and `Rows` say what the loops compute.
  - `FillRow` (the inner loop) and `CreateGrid` (the outer loop) are
    imperative methods proved equal to those functions.
  - The model keeps two quirks of the code. `left_down_point` is not reset
    when a row starts. And each cell is `create_polygon(left_down_point,
    diagonal_point)`, so the diagonal (the cell's northern point) is stored
    under `"left_down"` and `left_down_point` (its southern point) under
    `"right_up"`. In the first row that southern point is south-west of the
    diagonal. In the first cell of each later row it is the point carried
    over from the previous row, past the east edge. It lies south-east of
    the diagonal when that diagonal is at or west of the east edge. In a
    polygon narrower than one longitude step it can lie at or west of the
    diagonal instead.
  - Because of the carried point, the cells do not cover the polygon: a
    strip along its west edge, above the first row, is left out
    (`FillMissesWestStrip`).
- `Planner` (`planner.dfy`) covers `grid`. It picks the ideal distance
  (1040 m by default) and compares it with the distance between the two
  points. Depending on the result it returns:
  - the rectangle itself;
  - a fixed 2×2 split around the midpoint;
  - or the `create_grid` fill, with side `s` where `2·s² = ideal²`.

  `Tiles` is the value `grid` returns. The method `Grid` is proved to
  return it.

Coordinates and distances are Dafny `real`s. Python's `int()` on a float is
`Trunc`, which truncates toward zero. The transcendental functions are
fields of a `Maths` record:

- `math.cos(math.radians(x))` as `cosDeg`, assumed to lie in (0, 1];
- `180 / math.pi` as `degPerRad`, assumed positive;
- `math.sqrt` as `sqrt`, assumed exact on non-negative arguments.

`get_distance_meters` is a function parameter, `distance`.

The code validates nothing. It has no coordinate range check, no rejection
of a non-positive side and no iteration cap. The model follows the code as
written, except where the cosine abstraction makes it return on latitudes
whose cosine is not positive (see "## Left out").

## Model

| member | source | states |
|---|---|---|
| Geo.CreatePolygon | src/grid.py:8-28 | The first point is stored as "right_up" and the second as "left_down". The polygon is an axis-aligned rectangle: the up corners share a latitude, the down corners share one, and so do the left and right longitudes. |
| Geo.CreatePolygonUnique | src/grid.py:20-27 | The result is the one and only axis-aligned polygon with the given "right_up" and "left_down" corners (both directions). |
| Geo.CreatePolygonFromDiagonal | src/grid.py:20-27 | Rebuilding any axis-aligned polygon from its own "right_up" and "left_down" corners gives that polygon back. |
| Geo.CreatePolygonSwap | src/grid.py:20-27 | Swapping the two arguments keeps the same four corner points and permutes their labels: left_up and right_down trade places, as do right_up and left_down. |
| Geo.CreatePolygonDegenerate | src/grid.py:20-27 | With two equal points, all four corners are that point. |
| Geo.CreatePolygonCorners | src/grid.py:20-27 | Every corner takes its latitude from one argument and its longitude from one argument, so it lies inside the rectangle the arguments span. |
| Geo.Trunc | src/grid.py:57-58 | Python int() on a float truncates toward zero. For x ≥ 0 the result is the largest integer ≤ x. For x < 0 it is the smallest integer ≥ x. |
| Geo.ToDms | src/grid.py:57-63 | The degrees/minutes/seconds split reads back to the original delta exactly. Minutes and seconds have magnitude below 60 and carry the sign of the delta. |
| Geo.DeltaSigns | src/grid.py:50-54 | The latitude and longitude deltas have the sign of the metres. The longitude delta is at least as large in magnitude, because the cosine is at most 1. |
| Geo.DeltaLat | src/grid.py:50 | The latitude delta, read back from degrees to radians and multiplied by the earth radius, gives the metres again. |
| Geo.DeltaLon | src/grid.py:53-54 | The longitude delta, read back from degrees to radians and multiplied by the radius of the parallel at the reference latitude, gives the metres again. |
| Geo.DiagonalPoint45 | src/grid.py:31-71 | The result is the reference point shifted by the latitude delta and the longitude delta (Offset45), with no loss through the split. Zero metres return the reference point. Positive metres give a point strictly north and east; negative metres give one strictly south and west. |
| Filler.RowFrom | src/grid.py:134-145 | The inner loop appends nothing when lon_sum is already past the east edge. Otherwise it appends at least one cell. It ends with the diagonal one latitude step north of lat_sum and left_down_point on lat_sum. |
| Filler.RowShape | src/grid.py:134-145 | One row has floor((east edge − lon_sum)/step) + 1 cells. The first cell is anchored at the incoming left_down_point. Each later cell is anchored where the previous diagonal ended. Each diagonal is one latitude step north and one longitude step east of the previous one. Every cell but the last has its diagonal at or before the east edge, and the last has it past the edge. All cells are axis-aligned. The final cursors are the last diagonal and the point at (lat_sum, its longitude). |
| Filler.Rows | src/grid.py:132-149 | The outer loop appends nothing exactly when lat_sum is already north of the final point. |
| Filler.RowsStep | src/grid.py:132-149 | One outer iteration gives the row starting at lat_sum, followed by the rows from that row's diagonal latitude, with one step fewer left. The stale diagonal_point carried in does not matter. |
| Filler.Fill | src/grid.py:121-149 | create_grid returns no cells exactly when "left_down" is not strictly south and strictly west of "right_up". Every cell it returns is an axis-aligned rectangle. |
| Filler.RowsCells | src/grid.py:132-149 | Every cell from lat_sum on is axis-aligned. Its "left_down" corner lies strictly north of lat_sum and at most one latitude step past the final point. That corner is strictly north of the cell's "right_up" corner. |
| Filler.RowLatitudes | src/grid.py:134-145 | In one row, every diagonal is one latitude step north of lat_sum. Every "right_up" corner is at or south of lat_sum. |
| Filler.FillCells | src/grid.py:126-149 | Every cell create_grid returns is an axis-aligned rectangle. Its stored "right_up" point is strictly south of its "left_down" point. Cells overshoot the polygon's north edge by at most one latitude step. |
| Filler.SecondRowCarriesCorner | src/grid.py:141-149 | left_down_point is not reset between rows. The first cell of the second row has its "right_up" point on the starting latitude and east of the polygon. It spans two latitude steps. |
| Filler.NonPositiveSideNeverEndsRow | src/grid.py:134-143 | With a side ≤ 0, lon_sum never moves east of where it started, so after any number of steps it is still at most the east edge and the inner loop condition still holds. |
| Filler.RowEastOf | src/grid.py:134-145 | Within one row, if the first diagonal lies at or east of a longitude x, every diagonal does. So does every "right_up" point after the first cell, and so does the left_down_point the row hands on. |
| Filler.RowsEastOf | src/grid.py:132-149 | From any row whose carried left_down_point has a longitude of at least "left_down".lon plus one latitude step (in degrees), every later cell has both stored points at or east of that longitude. |
| Filler.FillMissesWestStrip | src/grid.py:128-149 | If the polygon is at least 1.5 latitude steps tall and half a step wide, the point 1.5 steps north and half a step east of "left_down" lies in the polygon but in none of the returned cells. |
| Filler.FillRow | src/grid.py:134-145 | The inner while loop appends exactly the cells of RowFrom. It leaves left_down_point and diagonal_point where RowFrom ends and lon_sum past the east edge. |
| Filler.CreateGrid | src/grid.py:109-153 | The nested loops return exactly Fill: nothing unless the guard holds, otherwise the rows from "left_down". |
| Planner.IdealDistance | src/grid.py:173-177 | The ideal distance is the argument when one is given, else 1040. |
| Planner.SquareSide | src/grid.py:192 | square_side is non-negative and satisfies 2·s² = ideal². |
| Planner.SquareSidePositive | src/grid.py:192 | square_side is positive exactly when the ideal distance is not zero. |
| Planner.SplitFour | src/grid.py:203-215 | The 2×2 split has four axis-aligned polygons. Each has the coordinate midpoint as a corner. Each also has its own corner of the rectangle of a and b: b, (b.lat, a.lon), (a.lat, b.lon) and a, in that order. |
| Planner.SplitFourCorners | src/grid.py:203-213 | Every corner of the split takes its latitude from a.lat, b.lat or the average. It takes its longitude from a.lon, b.lon or the average. So it lies in the rectangle of a and b. |
| Planner.SplitFourCovers | src/grid.py:203-215 | Every point of the rectangle of a and b lies in one of the four polygons. |
| Planner.SplitFourDisjoint | src/grid.py:203-215 | No point lies in the interior of two of the four polygons. |
| Planner.BigGridGuard | src/grid.py:217-220 | For a distance that is non-negative and zero exactly between equal points, the big-grid guard holds exactly when a and b differ in both latitude and longitude: it fails when they share a latitude or a longitude. |
| Planner.TilesBranches | src/grid.py:199-227 | When the distance is ≤ the ideal (equality included), grid returns exactly [create_polygon(a, b)]. Strictly between one and two ideals, it returns the 2×2 split: four polygons that each have the midpoint as a corner. Above the ideal and from two ideals on (equality included), the result is nonempty exactly when the guard holds and b is strictly south-west of a. When the guard holds there, the result is create_grid of create_polygon(a, b) with the square side. |
| Planner.BigTilesNonEmpty | src/grid.py:217-224 | For a distance that is zero exactly between equal points, the big-grid branch returns cells exactly when b is strictly south-west of a. |
| Planner.Tiles | src/grid.py:199-227 | Every polygon grid returns, in every branch, is an axis-aligned rectangle. |
| Planner.Grid | src/grid.py:156-230 | The ideal distance is the argument when one is given, else 1040. The cells returned are Tiles for the two input points and that ideal distance. |

## Left out

- get_distance_meters (src/grid.py:74-106) is not modelled. Its haversine formula uses sin, cos, atan2 and sqrt on floats, so it is the parameter `distance`. Properties that depend on it assume only what they state: it is non-negative and zero exactly between equal points.
- math.cos, math.radians, math.pi and math.sqrt have no concrete values. They are the `Maths` record: a cosine in (0, 1], so no pole is ever reached; a positive 180/π; and an exact square root.
- Floating-point rounding is not modelled. Over reals the degrees/minutes/seconds split is exact, and the loops advance by exact steps. So the model returns where the code stalls on a very small side: when the longitude step is below half an ulp of lon_sum, `lon_sum = diagonal_point.lon` (src/grid.py:141) leaves lon_sum unchanged and the loop at src/grid.py:134 never ends (for example grid(6.38, -75.45, 6.08, -75.70, 1e-10)).
- The print calls (src/grid.py:150-151, 189, 194, 222, 229) have no effect on the result and are left out. So is square_pythagoras (src/grid.py:193), which is only printed.
- The module global ideal_distance_meters (src/grid.py:171) is the out-parameter `ideal` of Planner.Grid.
- point.py is not part of this model. Its Point class is the datatype Geo.Point. The polygon dictionary is the datatype Geo.Polygon, with one field per key.
- Filler.CreateGrid: requires a positive side whenever its guard passes. With a side ≤ 0 the inner loop never ends (Filler.NonPositiveSideNeverEndsRow), so the code does not return on those inputs.
- Filler.FillRow: requires a positive side, for the same reason.
- Planner.Grid: requires Planner.Returns. That excludes a distance argument of 0 when the points are apart, the guard holds and b is strictly south-west of a. There the side is 0 and create_grid never returns. A negative distance argument gives a positive side and is modelled.
- Planner.Tiles: requires Planner.Returns, for the same reason.
- Planner.Grid: the cosine abstraction assumes cos(radians(x)) in (0, 1] for every x, so the model returns on every input that Planner.Returns admits. The code also loops forever when a row latitude has cos(radians(lat)) < 0, for example any latitude in (90°, 270°). There the longitude step is negative and lon_sum never passes the east edge (for example grid(101, 1, 100, 0, None)). Over the reals the cosine is 0 at ±90°, where src/grid.py:53-54 would divide by zero. The model does not capture these inputs.
- Filler.Fill: the cells do not cover the polygon. The model keeps the code's behaviour and proves the gap (Filler.FillMissesWestStrip): from the second row on, each row's first cell starts from the left_down_point carried past the east edge, and its other cells start from earlier diagonals of that row, at or east of the west edge plus one step (Filler.RowEastOf). So a strip along the west edge above the first row stays uncovered.
