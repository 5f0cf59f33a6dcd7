/**
  Geometry of the checkbox's draw pass: the ring (a full circle inscribed in the
  shorter side of the bounds, inset by the stroke width) and the tick (an open
  three-point polyline inside a centred square).

  Coordinates are real numbers; the y axis grows downwards, as in UIKit, so the
  "bottom" edge of a rectangle is at `y + height`.
*/
module Geometry {

  datatype Point = Point(x: real, y: real)

  /** A rectangle as CGRectMake builds it: origin and size are stored as given, never standardised. */
  datatype Rect = Rect(x: real, y: real, width: real, height: real)

  /** The outline of a shape layer.
      A `Circle` is an arc from angle 0 to 2π drawn clockwise, i.e. a closed circle;
      a `Polyline` is an open chain of line segments through its points. */
  datatype Path =
    | Circle(center: Point, radius: real)
    | Polyline(points: seq<Point>)

  /** Layer bounds never have a negative width or height. */
  predicate ValidBounds(width: real, height: real)
  {
    width >= 0.0 && height >= 0.0
  }

  /** The shorter side of the bounds: the diameter of the largest circle that fits.
      (The source calls this value `biggestRadius`.) */
  function ShortestSide(width: real, height: real): (d: real)
    ensures d <= width && d <= height
    ensures d == width || d == height
  {
    if width < height then width else height
  }

  /** `side` is the side of the largest square inscribed in a circle of the given
      diameter: by Pythagoras side² = diameter² / 2. The draw pass obtains it with a
      square root, which this model takes as an input characterised by this predicate. */
  predicate IsInscribedSquareSide(side: real, diameter: real)
  {
    side >= 0.0 && side * side == diameter * diameter / 2.0
  }

  function SquaredDistance(p: Point, q: Point): real
  {
    (p.x - q.x) * (p.x - q.x) + (p.y - q.y) * (p.y - q.y)
  }

  /** The ring: centred in the bounds, its radius leaves `strokeWidth` between
      the circle and the half of the shorter side. */
  function RingPath(width: real, height: real, strokeWidth: real): (p: Path)
    ensures p.Circle?
    ensures 2.0 * p.center.x == width && 2.0 * p.center.y == height
    ensures p.radius + strokeWidth == ShortestSide(width, height) / 2.0
  {
    Circle(Point(width / 2.0, height / 2.0), (ShortestSide(width, height) - strokeWidth * 2.0) / 2.0)
  }

  /** The square that bounds the tick: 80% of the largest square inscribed in the
      ring's bounding circle, deflated by twice the stroke width, centred in the bounds. */
  function TickSquare(width: real, height: real, strokeWidth: real, biggestSide: real): (sq: Rect)
    ensures sq.width == sq.height
    ensures sq.x + sq.width / 2.0 == width / 2.0
    ensures sq.y + sq.height / 2.0 == height / 2.0
    ensures 5.0 * (sq.width + 2.0 * strokeWidth) == 4.0 * biggestSide
  {
    var side := (biggestSide / 100.0 * 80.0) - (strokeWidth * 2.0);
    Rect((width / 2.0) - (side / 2.0), (height / 2.0) - (side / 2.0), side, side)
  }

  /** The tick: from the left edge 60% down, to the bottom edge 40% across, to the top-right corner. */
  function TickPath(sq: Rect): (p: Path)
    ensures p.Polyline? && |p.points| == 3
    ensures p.points[0].x == sq.x && 5.0 * (p.points[0].y - sq.y) == 3.0 * sq.height
    ensures p.points[1].y == sq.y + sq.height && 5.0 * (p.points[1].x - sq.x) == 2.0 * sq.width
    ensures p.points[2] == Point(sq.x + sq.width, sq.y)
  {
    Polyline([
      Point(sq.x, sq.y + (sq.height / 100.0 * 60.0)),
      Point(sq.x + (sq.width / 100.0 * 40.0), sq.y + sq.height),
      Point(sq.x + sq.width, sq.y)
    ])
  }

  /** With a non-negative stroke and a non-negative radius, the stroked ring
      (which extends half the stroke width on either side of the circle) stays inside the bounds. */
  lemma RingFitsBounds(width: real, height: real, strokeWidth: real)
    requires ValidBounds(width, height) && strokeWidth >= 0.0
    requires RingPath(width, height, strokeWidth).radius >= 0.0
    ensures var c := RingPath(width, height, strokeWidth);
            var outer := c.radius + strokeWidth / 2.0;
            0.0 <= c.center.x - outer && c.center.x + outer <= width &&
            0.0 <= c.center.y - outer && c.center.y + outer <= height
  {
  }

  /** The inscribed-square side lies between 0.7 and 0.71 of the diameter. */
  lemma InscribedSquareBounds(side: real, diameter: real)
    requires diameter >= 0.0 && IsInscribedSquareSide(side, diameter)
    ensures 7.0 * diameter <= 10.0 * side
    ensures 100.0 * side <= 71.0 * diameter
  {
    if 10.0 * side < 7.0 * diameter {
      SquareMonotone(10.0 * side, 7.0 * diameter);
      assert false;
    }
    if 71.0 * diameter < 100.0 * side {
      SquareMonotone(71.0 * diameter, 100.0 * side);
      assert false;
    }
  }

  lemma SquareMonotone(a: real, b: real)
    requires 0.0 <= a < b
    ensures a * a < b * b
  {
    assert a * (b - a) >= 0.0;
    assert b * (b - a) > 0.0;
  }

  /** The arithmetic core of `TickInsideRing`: with s = 0.8·b - 2w and r = m/2 - w,
      s² <= 2r² whenever b is the inscribed-square side of m, w >= 0 and s >= 0. */
  lemma HalfSquaredSideBelowSquaredRadius(m: real, w: real, b: real)
    requires m >= 0.0 && w >= 0.0 && IsInscribedSquareSide(b, m)
    requires 0.8 * b - 2.0 * w >= 0.0
    ensures (0.8 * b - 2.0 * w) * (0.8 * b - 2.0 * w) <= 2.0 * (m / 2.0 - w) * (m / 2.0 - w)
  {
    InscribedSquareBounds(b, m);
    var s, r := 0.8 * b - 2.0 * w, m / 2.0 - w;
    // With X = w·b, Y = w·m, Z = w², M = m²:
    // 2r² - s² = 0.18 M + 3.2 X - 2 Y - 2 Z, and the bounds on b make this non-negative.
    var X, Y, Z, M := w * b, w * m, w * w, m * m;
    assert 2.0 * r * r - s * s == 0.18 * M + 3.2 * X - 2.0 * Y - 2.0 * Z;
    var d1 := 3.2 * b - 2.24 * m;
    assert d1 >= 0.0;
    ProductNonNegative(w, d1);
    var d2 := 0.284 * m - w;
    assert d2 >= 0.0;
    ProductNonNegative(w, d2);
    ProductNonNegative(m, d2);
    ProductNonNegative(m, m);
  }

  lemma ProductNonNegative(a: real, b: real)
    requires a >= 0.0 && b >= 0.0
    ensures a * b >= 0.0
  {
  }

  /** Whenever the tick square is not degenerate (side >= 0) and the stroke is
      non-negative, every point of the tick lies inside the ring's circle. */
  lemma TickInsideRing(width: real, height: real, strokeWidth: real, biggestSide: real)
    requires ValidBounds(width, height) && strokeWidth >= 0.0
    requires IsInscribedSquareSide(biggestSide, ShortestSide(width, height))
    requires TickSquare(width, height, strokeWidth, biggestSide).width >= 0.0
    ensures var ring := RingPath(width, height, strokeWidth);
            var tick := TickPath(TickSquare(width, height, strokeWidth, biggestSide));
            forall i :: 0 <= i < |tick.points| ==>
              SquaredDistance(tick.points[i], ring.center) <= ring.radius * ring.radius
  {
    var ring := RingPath(width, height, strokeWidth);
    var sq := TickSquare(width, height, strokeWidth, biggestSide);
    var tick := TickPath(sq);
    var s, r, c := sq.width, ring.radius, ring.center;
    HalfSquaredSideBelowSquaredRadius(ShortestSide(width, height), strokeWidth, biggestSide);
    assert s * s <= 2.0 * r * r;
    assert tick.points[0].x - c.x == -0.5 * s && tick.points[0].y - c.y == 0.1 * s;
    assert tick.points[1].x - c.x == -0.1 * s && tick.points[1].y - c.y == 0.5 * s;
    assert tick.points[2].x - c.x == 0.5 * s && tick.points[2].y - c.y == -0.5 * s;
    assert SquaredDistance(tick.points[0], c) == 0.26 * s * s;
    assert SquaredDistance(tick.points[1], c) == 0.26 * s * s;
    assert SquaredDistance(tick.points[2], c) == 0.5 * s * s;
  }

  /** The 100 x 100 widget with stroke width 1: ring radius 49, tick square side about 54.57. */
  lemma HundredPointWidget(biggestSide: real)
    requires IsInscribedSquareSide(biggestSide, ShortestSide(100.0, 100.0))
    ensures RingPath(100.0, 100.0, 1.0).radius == 49.0
    ensures RingPath(100.0, 100.0, 1.0).center == Point(50.0, 50.0)
    ensures 54.56 < TickSquare(100.0, 100.0, 1.0, biggestSide).width < 54.58
  {
    assert biggestSide * biggestSide == 5000.0;
    if biggestSide <= 70.7 {
      SquareMonotoneWeak(biggestSide, 70.7);
      assert false;
    }
    if biggestSide >= 70.725 {
      SquareMonotoneWeak(70.725, biggestSide);
      assert false;
    }
  }

  lemma SquareMonotoneWeak(a: real, b: real)
    requires 0.0 <= a <= b
    ensures a * a <= b * b
  {
  }
}
