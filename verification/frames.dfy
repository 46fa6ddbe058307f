/** Conversion of trajectory coordinates into arm coordinates
    (arm_change_coordinate_system in arm.c). */
module Frames {
  import opened Geometry

  /** arm_coordinate_t: the frame a keyframe's x and y are expressed in. */
  datatype CoordinateSystem = ArmFrame | RobotFrame | TableFrame

  /** Where an arm is fixed on the robot: the position of its shoulder and the
      angle of its frame, both in robot coordinates. */
  datatype Mount = Mount(offset: Point, rotation: real)

  /** The robot's position and heading on the table, read from the odometry
      at the time of the conversion. */
  datatype Pose = Pose(x: real, y: real, heading: real)

  /** What a conversion needs besides the point itself. */
  datatype Context = Context(geo: GeometryLib, mount: Mount, pose: Pose)

  /** Rotates a vector by -angle through the polar conversions of the
      geometry library. */
  function RotateBy(geo: GeometryLib, v: Point, angle: real): Point {
    var q := geo.cart2pol(v);
    geo.pol2cart(Polar(q.r, Turn(q.theta, angle)))
  }

  /** The ROBOT case: translate by the mount offset, then rotate. */
  function RobotToArm(geo: GeometryLib, mount: Mount, p: Point): Point {
    RotateBy(geo, p.Minus(mount.offset), mount.rotation)
  }

  /** The first half of the WORLD case: translate by the robot position, then
      rotate by the robot heading. */
  function TableToRobot(geo: GeometryLib, pose: Pose, p: Point): Point {
    RotateBy(geo, Point(p.x - pose.x, p.y - pose.y), pose.heading)
  }

  /** arm_change_coordinate_system: ARM coordinates are kept, ROBOT
      coordinates are moved into the arm frame, and any other frame is treated
      as the table, converted to robot coordinates and then handled as ROBOT. */
  function ChangeCoordinateSystem(ctx: Context, p: Point, system: CoordinateSystem): (r: Point)
    ensures system == ArmFrame ==> r == p
    ensures system == RobotFrame ==> r == RobotToArm(ctx.geo, ctx.mount, p)
    ensures system != ArmFrame && system != RobotFrame ==>
      r == RobotToArm(ctx.geo, ctx.mount, TableToRobot(ctx.geo, ctx.pose, p))
    decreases if system == ArmFrame || system == RobotFrame then 0 else 1
  {
    if system == ArmFrame then p
    else if system == RobotFrame then
      RobotToArm(ctx.geo, ctx.mount, p)
    else
      ChangeCoordinateSystem(ctx, TableToRobot(ctx.geo, ctx.pose, p), RobotFrame)
  }

  /** The components of a vector rotated by -angle. */
  predicate IsRotation(t: Trig, v: Point, angle: real, w: Point) {
    && w.x == v.x * t.cos(angle) + v.y * t.sin(angle)
    && w.y == v.y * t.cos(angle) - v.x * t.sin(angle)
  }

  /** Changing only the polar angle is a rotation. */
  lemma RotateByIsRotation(geo: GeometryLib, t: Trig, v: Point, angle: real)
    requires IsPolarOf(t, geo.cart2pol(v), v)
    requires var q := geo.cart2pol(v); var turned := Polar(q.r, Turn(q.theta, angle));
      && geo.pol2cart(turned) == Point(turned.r * t.cos(turned.theta), turned.r * t.sin(turned.theta))
      && t.cos(turned.theta) == t.cos(q.theta) * t.cos(angle) + t.sin(q.theta) * t.sin(angle)
      && t.sin(turned.theta) == t.sin(q.theta) * t.cos(angle) - t.cos(q.theta) * t.sin(angle)
    ensures IsRotation(t, v, angle, RotateBy(geo, v, angle))
  {
    var q := geo.cart2pol(v);
    var turned := Turn(q.theta, angle);
    var w := geo.pol2cart(Polar(q.r, turned));
    RotationFromPolar(t, v, angle, w, q.r, t.cos(q.theta), t.sin(q.theta), t.cos(turned), t.sin(turned));
    assert RotateBy(geo, v, angle) == w;
  }

  /** The angle-difference formulas, scaled by the radius r of a vector v
      whose polar angle has cosine ct and sine st, give the rotated vector. */
  lemma RotationFromPolar(t: Trig, v: Point, angle: real, w: Point, r: real, ct: real, st: real, cd: real, sd: real)
    requires r * ct == v.x && r * st == v.y
    requires cd == ct * t.cos(angle) + st * t.sin(angle) && sd == st * t.cos(angle) - ct * t.sin(angle)
    requires w == Point(r * cd, r * sd)
    ensures IsRotation(t, v, angle, w)
  {
    var ca, sa := t.cos(angle), t.sin(angle);
    calc {
      r * cd;
      (r * ct) * ca + (r * st) * sa;
      v.x * ca + v.y * sa;
    }
    calc {
      r * sd;
      (r * st) * ca - (r * ct) * sa;
      v.y * ca - v.x * sa;
    }
  }

  /** Every rotation through the polar conversions is a rotation. */
  ghost predicate RotationLaw(geo: GeometryLib, t: Trig) {
    forall v: Point, angle: real :: IsRotation(t, v, angle, RotateBy(geo, v, angle))
  }

  /** The rotation law follows from the laws of the two libraries. */
  lemma RotationLawHolds(geo: GeometryLib, t: Trig)
    requires PolarLaws(geo, t) && AngleDifferenceLaws(t)
    ensures RotationLaw(geo, t)
  {
    forall v: Point, angle: real
      ensures IsRotation(t, v, angle, RotateBy(geo, v, angle))
    {
      var q := geo.cart2pol(v);
      assert IsPolarOf(t, q, v);
      var turned := Polar(q.r, Turn(q.theta, angle));
      assert geo.pol2cart(turned) == Point(turned.r * t.cos(turned.theta), turned.r * t.sin(turned.theta));
      RotateByIsRotation(geo, t, v, angle);
    }
  }

  /** A rotation keeps the length of the vector. */
  lemma RotationKeepsNorm(t: Trig, v: Point, angle: real, w: Point)
    requires PythagoreanLaw(t)
    requires IsRotation(t, v, angle, w)
    ensures w.Norm2() == v.Norm2()
  {
    var c, s := t.cos(angle), t.sin(angle);
    assert c * c + s * s == 1.0;
    RotatedSquares(v.x, v.y, c, s);
  }

  /** The sum of squares of a rotated pair, for a unit (c, s). */
  lemma RotatedSquares(x: real, y: real, c: real, s: real)
    requires c * c + s * s == 1.0
    ensures (x * c + y * s) * (x * c + y * s) + (y * c - x * s) * (y * c - x * s) == x * x + y * y
  {
    calc {
      (x * c + y * s) * (x * c + y * s) + (y * c - x * s) * (y * c - x * s);
      x * x * (c * c + s * s) + y * y * (c * c + s * s);
      x * x + y * y;
    }
  }

  /** ROBOT coordinates keep their distance to the shoulder: only the polar
      angle around the mount offset changes. */
  lemma RobotFrameKeepsDistanceToShoulder(ctx: Context, t: Trig, p: Point)
    requires RotationLaw(ctx.geo, t) && PythagoreanLaw(t)
    ensures ChangeCoordinateSystem(ctx, p, RobotFrame).Norm2() == p.Minus(ctx.mount.offset).Norm2()
  {
    var v := p.Minus(ctx.mount.offset);
    RotationKeepsNorm(t, v, ctx.mount.rotation, RotateBy(ctx.geo, v, ctx.mount.rotation));
  }

  /** Table coordinates keep their distance to the robot: only the polar
      angle around the robot's position changes. */
  lemma TableFrameKeepsDistanceToRobot(geo: GeometryLib, t: Trig, pose: Pose, p: Point)
    requires RotationLaw(geo, t) && PythagoreanLaw(t)
    ensures TableToRobot(geo, pose, p).Norm2() == Point(p.x - pose.x, p.y - pose.y).Norm2()
  {
    var v := Point(p.x - pose.x, p.y - pose.y);
    RotationKeepsNorm(t, v, pose.heading, RotateBy(geo, v, pose.heading));
  }

  /** An arm mounted at the robot's origin with no rotation sees ROBOT
      coordinates unchanged. */
  lemma IdentityMountKeepsRobotCoordinates(ctx: Context, t: Trig, p: Point)
    requires RotationLaw(ctx.geo, t) && KnownValues(t)
    requires ctx.mount == Mount(Origin, 0.0)
    ensures ChangeCoordinateSystem(ctx, p, RobotFrame) == p
  {
    assert IsRotation(t, p.Minus(Origin), 0.0, RotateBy(ctx.geo, p.Minus(Origin), 0.0));
  }

  /** The robot-to-arm example of the unit tests: (100, 100) seen from an arm
      mounted at (0, 100) and turned by pi/2 is (0, -100). */
  lemma RobotToArmExample(geo: GeometryLib, t: Trig)
    requires RotationLaw(geo, t) && KnownValues(t)
    ensures RobotToArm(geo, Mount(Point(0.0, 100.0), t.pi / 2.0), Point(100.0, 100.0)) == Point(0.0, -100.0)
  {
    assert IsRotation(t, Point(100.0, 0.0), t.pi / 2.0, RotateBy(geo, Point(100.0, 0.0), t.pi / 2.0));
  }

  /** The table-to-robot example of the unit tests: (100, 200) seen from a
      robot at (100, 100) heading pi/2 is (100, 0). */
  lemma TableToRobotExample(geo: GeometryLib, t: Trig)
    requires RotationLaw(geo, t) && KnownValues(t)
    ensures TableToRobot(geo, Pose(100.0, 100.0, t.pi / 2.0), Point(100.0, 200.0)) == Point(100.0, 0.0)
  {
    assert IsRotation(t, Point(0.0, 100.0), t.pi / 2.0, RotateBy(geo, Point(0.0, 100.0), t.pi / 2.0));
  }

  /** The 45-degree example of the unit tests: (100, 100) seen from a robot at
      the origin heading pi/4 is (100 * sqrt 2, 0). */
  lemma TableToRobotDiagonalExample(geo: GeometryLib, t: Trig)
    requires RotationLaw(geo, t) && PythagoreanLaw(t) && KnownValues(t)
    ensures var r := TableToRobot(geo, Pose(0.0, 0.0, t.pi / 4.0), Point(100.0, 100.0));
      r.x > 0.0 && r.x * r.x == 20000.0 && r.y == 0.0
  {
    var angle := t.pi / 4.0;
    var s := t.sin(angle);
    assert IsRotation(t, Point(100.0, 100.0), angle, RotateBy(geo, Point(100.0, 100.0), angle));
    assert s * s + s * s == 1.0;
    var r := TableToRobot(geo, Pose(0.0, 0.0, angle), Point(100.0, 100.0));
    assert r.x == 200.0 * s;
    assert r.x * r.x == 40000.0 * (s * s);
  }
}
