/** Plane geometry shared by every part of the arm model.

    The arm code relies on two foreign libraries whose source is not part of
    this model: a 2D geometry library (circle intersection, point-in-polygon,
    segment-crosses-polygon, cartesian/polar conversion) and the C maths
    library (atan2, cos, sin). Both are modelled as records of functions
    passed in as parameters, so that nothing about them is assumed except the
    laws stated below, which lemmas take as preconditions. */
module Geometry {

  /** A point or vector of the plane (point_t and vect2_cart), in millimetres. */
  datatype Point = Point(x: real, y: real) {
    /** Vector subtraction (vect2_sub_cart). */
    function Minus(o: Point): Point {
      Point(x - o.x, y - o.y)
    }

    /** The squared euclidean norm; squared so that no square root is needed. */
    function Norm2(): real {
      x * x + y * y
    }
  }

  const Origin: Point := Point(0.0, 0.0)

  /** A circle given by its centre and radius (circle_t). */
  datatype Circle = Circle(x: real, y: real, r: real) {
    function Centre(): Point {
      Point(x, y)
    }

    predicate Contains(p: Point) {
      p.Minus(Centre()).Norm2() == r * r
    }
  }

  /** A vector in polar form (vect2_pol). */
  datatype Polar = Polar(r: real, theta: real)

  /** What circle_intersect reports: a count and its two out-parameters. */
  datatype Intersection = Intersection(count: int, p1: Point, p2: Point)

  /** The foreign geometry library. */
  datatype GeometryLib = GeometryLib(
    circleIntersect: (Circle, Circle) -> Intersection,
    isInPoly: (Point, seq<Point>) -> bool,
    isCrossingPoly: (Point, Point, seq<Point>) -> bool,
    cart2pol: Point -> Polar,
    pol2cart: Polar -> Point)

  /** The foreign maths library, and the constant pi. */
  datatype Trig = Trig(atan2: (real, real) -> real, cos: real -> real, sin: real -> real, pi: real)

  /** A polar angle decreased by `delta` (the `theta -= delta` of the frame
      conversions); named so that the angle-difference laws have a term to
      be triggered on. */
  function Turn(theta: real, delta: real): real {
    theta - delta
  }

  /** The number of points two circles with radii r1, r2 > 0 share, from the
      squared distance d2 between their centres. Concentric circles meet
      nowhere or, when the radii are equal, everywhere; circle_intersect is
      taken to report no point for them in both cases. */
  function SharedPoints(d2: real, r1: real, r2: real): int {
    var outer := (r1 + r2) * (r1 + r2);
    var inner := (r1 - r2) * (r1 - r2);
    if d2 == 0.0 || d2 > outer || d2 < inner then 0
    else if d2 == outer || d2 == inner then 1
    else 2
  }

  function ExpectedCount(c1: Circle, c2: Circle): int {
    SharedPoints(c2.Centre().Minus(c1.Centre()).Norm2(), c1.r, c2.r)
  }

  /** What circle_intersect must do for two circles: report as many points
      as the circles share, and report points that lie on both. */
  ghost predicate IntersectsCorrectly(c1: Circle, c2: Circle, s: Intersection) {
    && s.count == ExpectedCount(c1, c2)
    && (s.count >= 1 ==> c1.Contains(s.p1) && c2.Contains(s.p1))
    && (s.count == 2 ==> c1.Contains(s.p2) && c2.Contains(s.p2) && s.p1 != s.p2)
  }

  ghost predicate CircleLaws(geo: GeometryLib) {
    forall c1: Circle, c2: Circle :: c1.r > 0.0 && c2.r > 0.0 ==>
      IntersectsCorrectly(c1, c2, geo.circleIntersect(c1, c2))
  }

  /** q is a polar form of v: a non-negative radius and an angle whose
      cosine and sine scale back to v. */
  ghost predicate IsPolarOf(t: Trig, q: Polar, v: Point) {
    q.r >= 0.0 && q.r * t.cos(q.theta) == v.x && q.r * t.sin(q.theta) == v.y
  }

  /** cart2pol and pol2cart agree with cos and sin. */
  ghost predicate PolarLaws(geo: GeometryLib, t: Trig) {
    && (forall v: Point :: IsPolarOf(t, geo.cart2pol(v), v))
    && (forall q: Polar :: geo.pol2cart(q) == Point(q.r * t.cos(q.theta), q.r * t.sin(q.theta)))
  }

  /** cos^2 + sin^2 = 1. */
  ghost predicate PythagoreanLaw(t: Trig) {
    forall a :: t.cos(a) * t.cos(a) + t.sin(a) * t.sin(a) == 1.0
  }

  /** The cosine and sine of a difference of angles. */
  ghost predicate AngleDifferenceLaws(t: Trig) {
    && (forall a, b {:trigger Turn(a, b)} :: t.cos(Turn(a, b)) == t.cos(a) * t.cos(b) + t.sin(a) * t.sin(b))
    && (forall a, b {:trigger Turn(a, b)} :: t.sin(Turn(a, b)) == t.sin(a) * t.cos(b) - t.cos(a) * t.sin(b))
  }

  /** The values at 0, pi/4 and pi/2 that the unit tests rely on. */
  ghost predicate KnownValues(t: Trig) {
    && t.cos(0.0) == 1.0 && t.sin(0.0) == 0.0
    && t.cos(t.pi / 2.0) == 0.0 && t.sin(t.pi / 2.0) == 1.0
    && t.cos(t.pi / 4.0) == t.sin(t.pi / 4.0) && t.sin(t.pi / 4.0) > 0.0
    && (forall x :: x > 0.0 ==> t.atan2(0.0, x) == 0.0)
    && (forall d :: d > 0.0 ==> t.atan2(d, d) == t.pi / 4.0)
  }
}
