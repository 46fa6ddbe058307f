/** The elbow-choice policy and angle helpers of arm_cinematics.c. */
module Cinematics {
  import opened Geometry

  /** shoulder_mode_t: which of two elbow solutions is preferred. */
  datatype ShoulderMode = Front | Back

  /** compute_possible_elbow_positions: the elbow lies on the circle of
      radius l1 around the shoulder (the origin) and on the circle of radius
      l2 around the hand. */
  function ComputePossibleElbowPositions(geo: GeometryLib, target: Point, l1: real, l2: real): (r: Intersection)
    ensures CircleLaws(geo) && l1 > 0.0 && l2 > 0.0 ==>
      IntersectsCorrectly(Circle(0.0, 0.0, l1), Circle(target.x, target.y, l2), r)
  {
    geo.circleIntersect(Circle(0.0, 0.0, l1), Circle(target.x, target.y, l2))
  }

  /** With a correct circle intersection, the count is 0, 1 or 2 according to
      the squared distance of the target compared with the squared sum and
      difference of the link lengths. */
  lemma ElbowPositionCount(geo: GeometryLib, target: Point, l1: real, l2: real)
    requires CircleLaws(geo)
    requires l1 > 0.0 && l2 > 0.0
    ensures var count := ComputePossibleElbowPositions(geo, target, l1, l2).count;
      var d2, outer, inner := target.Norm2(), (l1 + l2) * (l1 + l2), (l1 - l2) * (l1 - l2);
      && (count == 2 <==> 0.0 < d2 && inner < d2 < outer)
      && (count == 1 <==> 0.0 < d2 && (d2 == inner || d2 == outer))
      && (count == 0 <==> d2 == 0.0 || d2 < inner || d2 > outer)
  {
    var c1, c2 := Circle(0.0, 0.0, l1), Circle(target.x, target.y, l2);
    assert IntersectsCorrectly(c1, c2, geo.circleIntersect(c1, c2));
    assert c2.Centre().Minus(c1.Centre()) == target;
    assert ExpectedCount(c1, c2) == SharedPoints(target.Norm2(), l1, l2);
  }

  /** An elbow position from which the two links reach the target: at
      distance l1 from the shoulder and at distance l2 from the target. */
  predicate ReachesWith(elbow: Point, target: Point, l1: real, l2: real) {
    elbow.Norm2() == l1 * l1 && target.Minus(elbow).Norm2() == l2 * l2
  }

  /** With a correct circle intersection, every reported elbow position lets
      the two links reach the target. */
  lemma ElbowPositionsOnBothLinks(geo: GeometryLib, target: Point, l1: real, l2: real)
    requires CircleLaws(geo)
    requires l1 > 0.0 && l2 > 0.0
    ensures var s := ComputePossibleElbowPositions(geo, target, l1, l2);
      s.count >= 1 ==> ReachesWith(s.p1, target, l1, l2)
    ensures var s := ComputePossibleElbowPositions(geo, target, l1, l2);
      s.count == 2 ==> ReachesWith(s.p2, target, l1, l2)
  {
    var c1, c2 := Circle(0.0, 0.0, l1), Circle(target.x, target.y, l2);
    var s := geo.circleIntersect(c1, c2);
    assert IntersectsCorrectly(c1, c2, s);
    if s.count >= 1 {
      OnLinkCircles(c1, c2, target, s.p1);
    }
    if s.count == 2 {
      OnLinkCircles(c1, c2, target, s.p2);
    }
  }

  lemma OnLinkCircles(c1: Circle, c2: Circle, target: Point, p: Point)
    requires c1 == Circle(0.0, 0.0, c1.r) && c2 == Circle(target.x, target.y, c2.r)
    requires c1.Contains(p) && c2.Contains(p)
    ensures ReachesWith(p, target, c1.r, c2.r)
  {
    assert p.Minus(c1.Centre()) == p;
    var d := p.Minus(c2.Centre());
    var e := target.Minus(p);
    assert e == Point(-d.x, -d.y);
    assert e.x * e.x == d.x * d.x;
    assert e.y * e.y == d.y * d.y;
  }

  /** Two elbow positions for a hand at (100, 100) with two 100 mm links. */
  lemma TwoElbowPositionsInReach(geo: GeometryLib)
    requires CircleLaws(geo)
    ensures ComputePossibleElbowPositions(geo, Point(100.0, 100.0), 100.0, 100.0).count == 2
  {
    ElbowPositionCount(geo, Point(100.0, 100.0), 100.0, 100.0);
    assert Point(100.0, 100.0).Norm2() == 20000.0;
  }

  /** A single elbow position when the arm is fully stretched. */
  lemma OneElbowPositionAtFullStretch(geo: GeometryLib)
    requires CircleLaws(geo)
    ensures ComputePossibleElbowPositions(geo, Point(100.0, 0.0), 50.0, 50.0).count == 1
  {
    ElbowPositionCount(geo, Point(100.0, 0.0), 50.0, 50.0);
  }

  /** No elbow position for a target out of reach. */
  lemma NoElbowPositionOutOfReach(geo: GeometryLib)
    requires CircleLaws(geo)
    ensures ComputePossibleElbowPositions(geo, Point(100.0, 100.0), 10.0, 10.0).count == 0
  {
    ElbowPositionCount(geo, Point(100.0, 100.0), 10.0, 10.0);
  }

  /** mode_for_orientation: the mode is kept for an arm mounted at a positive
      angle offset and mirrored otherwise, including at offset zero. */
  function ModeForOrientation(mode: ShoulderMode, armAngleOffset: real): (r: ShoulderMode)
    ensures r == mode <==> armAngleOffset > 0.0
  {
    if armAngleOffset > 0.0 then mode
    else if mode == Back then Front
    else Back
  }

  /** Re-orienting twice for the same arm gives back the original mode. */
  lemma ModeForOrientationInvolution(mode: ShoulderMode, armAngleOffset: real)
    ensures ModeForOrientation(ModeForOrientation(mode, armAngleOffset), armAngleOffset) == mode
  {
  }

  /** choose_shoulder_solution: picks one of the two candidate elbows, never
      a new point. For a target behind the shoulder (negative x) it takes the
      elbow further forward; otherwise BACK takes the higher elbow and FRONT
      the lower one. */
  function ChooseShoulderSolution(target: Point, elbow1: Point, elbow2: Point, mode: ShoulderMode): (r: Point)
    ensures r == elbow1 || r == elbow2
    ensures target.x < 0.0 ==> r.x >= elbow1.x && r.x >= elbow2.x
    ensures target.x >= 0.0 && mode == Back ==> r.y >= elbow1.y && r.y >= elbow2.y
    ensures target.x >= 0.0 && mode == Front ==> r.y <= elbow1.y && r.y <= elbow2.y
  {
    if target.x < 0.0 then
      if elbow1.x > elbow2.x then elbow1 else elbow2
    else if mode == Back then
      if elbow1.y > elbow2.y then elbow1 else elbow2
    else
      if elbow2.y > elbow1.y then elbow1 else elbow2
  }

  /** On a tie in the compared coordinate, the second elbow wins. */
  lemma ChooseShoulderSolutionTies(target: Point, elbow1: Point, elbow2: Point, mode: ShoulderMode)
    requires if target.x < 0.0 then elbow1.x == elbow2.x else elbow1.y == elbow2.y
    ensures ChooseShoulderSolution(target, elbow1, elbow2, mode) == elbow2
  {
  }

  /** When the compared coordinate differs, the choice does not depend on the
      order in which the candidates are given. */
  lemma ChooseShoulderSolutionSymmetric(target: Point, elbow1: Point, elbow2: Point, mode: ShoulderMode)
    requires if target.x < 0.0 then elbow1.x != elbow2.x else elbow1.y != elbow2.y
    ensures ChooseShoulderSolution(target, elbow1, elbow2, mode) == ChooseShoulderSolution(target, elbow2, elbow1, mode)
  {
  }

  /** compute_shoulder_angle: the polar angle of the elbow. */
  function ComputeShoulderAngle(t: Trig, elbow: Point, hand: Point): (r: real)
    ensures KnownValues(t) && elbow.y == 0.0 && elbow.x > 0.0 ==> r == 0.0
    ensures KnownValues(t) && elbow.y == elbow.x && elbow.x > 0.0 ==> r == t.pi / 4.0
  {
    t.atan2(elbow.y, elbow.x)
  }

  /** compute_elbow_angle: the polar angle of the forearm, which is the
      shoulder angle an elbow placed at the forearm vector would have. */
  function ComputeElbowAngle(t: Trig, elbow: Point, hand: Point): (r: real)
    ensures r == ComputeShoulderAngle(t, hand.Minus(elbow), hand)
  {
    var dx := hand.x - elbow.x;
    var dy := hand.y - elbow.y;
    t.atan2(dy, dx)
  }

  /** The shoulder angle ignores the hand. */
  lemma ShoulderAngleIgnoresHand(t: Trig, elbow: Point, hand1: Point, hand2: Point)
    ensures ComputeShoulderAngle(t, elbow, hand1) == ComputeShoulderAngle(t, elbow, hand2)
  {
  }

  /** The elbow angle depends only on the forearm vector hand - elbow. */
  lemma ElbowAngleDependsOnForearm(t: Trig, elbow1: Point, hand1: Point, elbow2: Point, hand2: Point)
    requires hand1.Minus(elbow1) == hand2.Minus(elbow2)
    ensures ComputeElbowAngle(t, elbow1, hand1) == ComputeElbowAngle(t, elbow2, hand2)
  {
  }

  /** An elbow straight ahead at (100, 0) gives a zero shoulder angle. */
  lemma ShoulderAngleStraightAhead(t: Trig, hand: Point)
    requires KnownValues(t)
    ensures ComputeShoulderAngle(t, Point(100.0, 0.0), hand) == 0.0
  {
  }

  /** A forearm from (10, 10) to (20, 20) points at 45 degrees. */
  lemma ElbowAngleDiagonal(t: Trig)
    requires KnownValues(t)
    ensures ComputeElbowAngle(t, Point(10.0, 10.0), Point(20.0, 20.0)) == t.pi / 4.0
  {
  }
}
