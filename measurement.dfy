/**
 * The polynomial part of the planar-geometry helpers: which side of a directed
 * line a landmark lies on, the squared distance between two landmarks, and the
 * two arguments that the angle at a shared vertex hands to atan2.
 *
 * Coordinates are `real`. The square root, atan2 and the conversion to degrees
 * are not modelled; `IsDistance` states what the square root must return.
 */
module Measurement {

  /** A landmark's position in normalised image coordinates. */
  datatype Point = Point(x: real, y: real)

  /** The two arguments of atan2(y, x). */
  datatype Atan2Args = Atan2Args(y: real, x: real)

  function Abs(v: real): real
  {
    if v < 0.0 then -v else v
  }

  /** The 2-D cross product of (linePt2 - linePt1) and (point - linePt1). */
  function SideValue(point: Point, linePt1: Point, linePt2: Point): real
  {
    (linePt2.x - linePt1.x) * (point.y - linePt1.y) - (linePt2.y - linePt1.y) * (point.x - linePt1.x)
  }

  /** "left" when the point is on the line or to its left (counter-clockwise of the
      direction linePt1 -> linePt2, with y growing upwards), "right" otherwise. */
  function PointPosition(point: Point, linePt1: Point, linePt2: Point): (side: string)
    ensures side == "left" || side == "right"
    ensures side == "left" <==> SideValue(point, linePt1, linePt2) >= 0.0
  {
    if SideValue(point, linePt1, linePt2) >= 0.0 then "left" else "right"
  }

  /** The squared Euclidean distance between two landmarks: never negative, and 0
      from a landmark to itself. */
  function SquaredDistance(point1: Point, point2: Point): (d2: real)
    ensures d2 >= 0.0
    ensures point1 == point2 ==> d2 == 0.0
  {
    var dx := point1.x - point2.x;
    var dy := point1.y - point2.y;
    dx * dx + dy * dy
  }

  /** `d` is what the square root of the squared distance returns. */
  predicate IsDistance(d: real, point1: Point, point2: Point)
  {
    d >= 0.0 && d * d == SquaredDistance(point1, point2)
  }

  /** The angle at `point2` between the edges point1 -> point2 and point2 -> point3,
      as the arguments of atan2: |cross| and dot of the two edge vectors. */
  function AngleArguments(point1: Point, point2: Point, point3: Point): (r: Atan2Args)
    ensures r.y >= 0.0
  {
    var ux := point2.x - point1.x;
    var uy := point2.y - point1.y;
    var vx := point3.x - point2.x;
    var vy := point3.y - point2.y;
    var dot := ux * vx + uy * vy;
    var cross := ux * vy - uy * vx;
    Atan2Args(Abs(cross), dot)
  }

  function Translate(p: Point, dx: real, dy: real): Point
  {
    Point(p.x + dx, p.y + dy)
  }

  // ---------------------------------------------------------------------------
  // Side of a line

  /** The side test read geometrically (the same cross product, regrouped as a dot
      product with the normal): the point is "left" exactly when it lies in the closed
      half-plane that the left-hand normal (-dy, dx) of the line's direction points
      into. */
  lemma PointPositionIsNormalHalfPlane(point: Point, linePt1: Point, linePt2: Point)
    ensures var nx := -(linePt2.y - linePt1.y); var ny := linePt2.x - linePt1.x;
      PointPosition(point, linePt1, linePt2) == "left"
      <==> nx * (point.x - linePt1.x) + ny * (point.y - linePt1.y) >= 0.0
  {
  }

  /** Every point of the infinite line through both points, inside the segment or
      beyond it, is "left". */
  lemma PointOnLineIsLeft(linePt1: Point, linePt2: Point, t: real)
    ensures var p := Point(linePt1.x + t * (linePt2.x - linePt1.x), linePt1.y + t * (linePt2.y - linePt1.y));
      PointPosition(p, linePt1, linePt2) == "left"
  {
    var dx := linePt2.x - linePt1.x;
    var dy := linePt2.y - linePt1.y;
    var p := Point(linePt1.x + t * dx, linePt1.y + t * dy);
    assert p.y - linePt1.y == t * dy;
    assert p.x - linePt1.x == t * dx;
    assert dx * (t * dy) == dy * (t * dx);
  }

  /** A line of zero length puts every point "left". */
  lemma DegenerateLineIsLeft(point: Point, linePt: Point)
    ensures PointPosition(point, linePt, linePt) == "left"
  {
  }

  /** Reversing the line's direction swaps the two sides for every point off the line. */
  lemma ReversedLineSwapsSides(point: Point, linePt1: Point, linePt2: Point)
    ensures SideValue(point, linePt2, linePt1) == -SideValue(point, linePt1, linePt2)
    ensures SideValue(point, linePt1, linePt2) != 0.0 ==>
      PointPosition(point, linePt2, linePt1) != PointPosition(point, linePt1, linePt2)
  {
    var ax := linePt2.x - linePt1.x;
    var ay := linePt2.y - linePt1.y;
    var px := point.x - linePt1.x;
    var py := point.y - linePt1.y;
    assert point.x - linePt2.x == px - ax;
    assert point.y - linePt2.y == py - ay;
    calc {
      SideValue(point, linePt2, linePt1);
      (-ax) * (py - ay) - (-ay) * (px - ax);
      -(ax * py) + ax * ay + ay * px - ay * ax;
      -(ax * py - ay * px);
    }
  }

  /** Moving the point and the line by the same offset does not change the side. */
  lemma PointPositionTranslation(point: Point, linePt1: Point, linePt2: Point, dx: real, dy: real)
    ensures PointPosition(Translate(point, dx, dy), Translate(linePt1, dx, dy), Translate(linePt2, dx, dy))
            == PointPosition(point, linePt1, linePt2)
  {
  }

  // The cases of the unit tests, one lemma each.

  lemma PointAboveHorizontalLineIsLeft()
    ensures PointPosition(Point(0.5, 1.0), Point(0.0, 0.0), Point(1.0, 0.0)) == "left"
  {
  }

  lemma PointBelowHorizontalLineIsRight()
    ensures PointPosition(Point(0.5, -1.0), Point(0.0, 0.0), Point(1.0, 0.0)) == "right"
  {
  }

  lemma PointOnDiagonalLineIsLeft()
    ensures PointPosition(Point(0.5, 0.5), Point(0.0, 0.0), Point(1.0, 1.0)) == "left"
  {
  }

  lemma PointWestOfUpwardLineIsLeft()
    ensures PointPosition(Point(-1.0, 0.5), Point(0.0, 0.0), Point(0.0, 1.0)) == "left"
  {
  }

  lemma PointEastOfUpwardLineIsRight()
    ensures PointPosition(Point(1.0, 0.5), Point(0.0, 0.0), Point(0.0, 1.0)) == "right"
  {
  }

  lemma PointBeyondSegmentKeepsSide()
    ensures PointPosition(Point(2.0, 1.0), Point(0.0, 0.0), Point(1.0, 0.0)) == "left"
  {
  }

  // ---------------------------------------------------------------------------
  // Distance

  /** The squared distance does not depend on the order of the points. */
  lemma SquaredDistanceSymmetric(point1: Point, point2: Point)
    ensures SquaredDistance(point1, point2) == SquaredDistance(point2, point1)
  {
    var dx := point1.x - point2.x;
    var dy := point1.y - point2.y;
    assert (-dx) * (-dx) == dx * dx;
    assert (-dy) * (-dy) == dy * dy;
  }

  /** At most one value qualifies as the distance, and it is the same in both
      directions. */
  lemma DistanceUniqueAndSymmetric(d: real, e: real, point1: Point, point2: Point)
    requires IsDistance(d, point1, point2)
    requires IsDistance(e, point2, point1)
    ensures d == e
  {
    SquaredDistanceSymmetric(point1, point2);
    assert (d - e) * (d + e) == d * d - e * e == 0.0;
    if d + e == 0.0 {
      assert d == 0.0 && e == 0.0;
    } else {
      assert d - e == 0.0;
    }
  }

  // The distances of the unit tests, one lemma each.

  lemma HorizontalDistance()
    ensures IsDistance(3.0, Point(0.0, 0.0), Point(3.0, 0.0))
  {
  }

  lemma VerticalDistance()
    ensures IsDistance(4.0, Point(0.0, 0.0), Point(0.0, 4.0))
  {
  }

  lemma DiagonalDistance()
    ensures IsDistance(5.0, Point(0.0, 0.0), Point(3.0, 4.0))
  {
  }

  lemma SamePointDistance()
    ensures IsDistance(0.0, Point(2.5, -1.2), Point(2.5, -1.2))
  {
  }

  /** The distance across (-1, -1) and (1, 1) is the square root of 8. */
  lemma NegativeCoordinatesDistance()
    ensures SquaredDistance(Point(-1.0, -1.0), Point(1.0, 1.0)) == 8.0
  {
  }

  // ---------------------------------------------------------------------------
  // Angle at a shared vertex

  /** The atan2 arguments have the length |a| * |b| of the two edge vectors (Lagrange's
      identity), so atan2 of them is the angle between the edges. */
  lemma AngleArgumentsMagnitude(point1: Point, point2: Point, point3: Point)
    ensures var r := AngleArguments(point1, point2, point3);
      r.y * r.y + r.x * r.x == SquaredDistance(point1, point2) * SquaredDistance(point2, point3)
  {
    var ux := point2.x - point1.x;
    var uy := point2.y - point1.y;
    var vx := point3.x - point2.x;
    var vy := point3.y - point2.y;
    var cross := ux * vy - uy * vx;
    assert Abs(cross) * Abs(cross) == cross * cross;
    assert SquaredDistance(point1, point2) == ux * ux + uy * uy by {
      assert (point1.x - point2.x) * (point1.x - point2.x) == ux * ux;
      assert (point1.y - point2.y) * (point1.y - point2.y) == uy * uy;
    }
    assert SquaredDistance(point2, point3) == vx * vx + vy * vy by {
      assert (point2.x - point3.x) * (point2.x - point3.x) == vx * vx;
      assert (point2.y - point3.y) * (point2.y - point3.y) == vy * vy;
    }
    assert cross * cross + (ux * vx + uy * vy) * (ux * vx + uy * vy)
           == (ux * ux + uy * uy) * (vx * vx + vy * vy);
  }

  /** The angle does not depend on the direction in which the three points are
      walked. */
  lemma AngleArgumentsReversed(point1: Point, point2: Point, point3: Point)
    ensures AngleArguments(point3, point2, point1) == AngleArguments(point1, point2, point3)
  {
    var ux := point2.x - point1.x;
    var uy := point2.y - point1.y;
    var vx := point3.x - point2.x;
    var vy := point3.y - point2.y;
    assert (-vx) * (-ux) + (-vy) * (-uy) == ux * vx + uy * vy;
    assert (-vx) * (-uy) - (-vy) * (-ux) == -(ux * vy - uy * vx);
  }

  /** Three points on one line: the cross product vanishes and the dot product is
      t times the squared length of the first edge. The dot product is therefore
      non-negative going forward (t >= 0), where atan2(0, x >= 0) is 0 degrees, and
      non-positive turning back (t <= 0); it gives 180 degrees there only when the
      first edge's squared length is positive, which is not proved here. */
  lemma AngleArgumentsCollinear(point1: Point, ux: real, uy: real, t: real)
    ensures var point2 := Point(point1.x + ux, point1.y + uy);
      var point3 := Point(point2.x + t * ux, point2.y + t * uy);
      var r := AngleArguments(point1, point2, point3);
      r.y == 0.0 && r.x == t * SquaredDistance(point1, point2)
      && (t >= 0.0 ==> r.x >= 0.0) && (t <= 0.0 ==> r.x <= 0.0)
  {
    var point2 := Point(point1.x + ux, point1.y + uy);
    var point3 := Point(point2.x + t * ux, point2.y + t * uy);
    assert point2.x - point1.x == ux && point2.y - point1.y == uy;
    assert point3.x - point2.x == t * ux && point3.y - point2.y == t * uy;
    assert ux * (t * uy) - uy * (t * ux) == 0.0;
    assert ux * (t * ux) + uy * (t * uy) == t * (ux * ux + uy * uy);
    assert SquaredDistance(point1, point2) == ux * ux + uy * uy by {
      assert (point1.x - point2.x) * (point1.x - point2.x) == ux * ux;
      assert (point1.y - point2.y) * (point1.y - point2.y) == uy * uy;
    }
  }

  /** Perpendicular edges give dot 0, and |cross| squared is then the product of the
      two squared edge lengths: atan2 gives 90 degrees provided that product is
      positive, which is not proved here. */
  lemma AngleArgumentsPerpendicular(point1: Point, point2: Point, point3: Point)
    requires (point2.x - point1.x) * (point3.x - point2.x) + (point2.y - point1.y) * (point3.y - point2.y) == 0.0
    ensures var r := AngleArguments(point1, point2, point3);
      r.x == 0.0 && r.y * r.y == SquaredDistance(point1, point2) * SquaredDistance(point2, point3)
  {
    AngleArgumentsMagnitude(point1, point2, point3);
  }

  /** A coincident point leaves an edge of zero length: both arguments are 0, for
      which atan2 gives 0 degrees. */
  lemma AngleArgumentsDegenerate(point1: Point, point2: Point, point3: Point)
    requires point1 == point2 || point2 == point3
    ensures AngleArguments(point1, point2, point3) == Atan2Args(0.0, 0.0)
  {
  }

  // The cases of the unit tests as atan2 arguments, one lemma each: atan2(0, x > 0)
  // is 0 degrees, atan2(y > 0, 0) is 90 degrees, atan2(1, 1) is 45 degrees.

  lemma HorizontalLineAngleArguments()
    ensures AngleArguments(Point(0.0, 0.0), Point(1.0, 0.0), Point(2.0, 0.0)) == Atan2Args(0.0, 1.0)
  {
  }

  lemma RightAngleArguments()
    ensures AngleArguments(Point(0.0, 0.0), Point(1.0, 0.0), Point(1.0, 1.0)) == Atan2Args(1.0, 0.0)
  {
  }

  lemma ApexAngleArguments()
    ensures AngleArguments(Point(0.0, 0.0), Point(1.0, 1.0), Point(2.0, 0.0)) == Atan2Args(2.0, 0.0)
  {
  }

  lemma CoincidentPointsAngleArguments()
    ensures AngleArguments(Point(0.0, 0.0), Point(0.0, 0.0), Point(0.0, 0.0)) == Atan2Args(0.0, 0.0)
  {
  }

  lemma DiagonalLineAngleArguments()
    ensures AngleArguments(Point(0.0, 0.0), Point(1.0, 1.0), Point(2.0, 2.0)) == Atan2Args(0.0, 2.0)
  {
  }

  lemma UpwardTurnAngleArguments()
    ensures AngleArguments(Point(0.0, 0.0), Point(1.0, 0.0), Point(2.0, 1.0)) == Atan2Args(1.0, 1.0)
  {
  }

  lemma DownwardTurnAngleArguments()
    ensures AngleArguments(Point(0.0, 0.0), Point(1.0, 0.0), Point(2.0, -1.0)) == Atan2Args(1.0, 1.0)
  {
  }
}
