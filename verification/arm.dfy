/** The arm controller of arm.c as a record and pure step functions: the
    trajectory buffer and its lifecycle, the obstacle set, the inverse
    kinematics with obstacle filtering, and the per-tick trajectory player
    that drives the three axes. */
module ArmCore {
  import opened Wrappers
  import opened Geometry
  import opened Cinematics
  import opened Obstacles
  import opened Frames
  import opened Trajectory

  /** One control system as the tick sees it: whether it is enabled and the
      last consign posted to it. */
  datatype Axis = Axis(enabled: bool, consign: real)

  /** The z, shoulder and elbow control systems of an arm. */
  datatype Axes = Axes(z: Axis, shoulder: Axis, elbow: Axis) {
    predicate AllEnabled() {
      z.enabled && shoulder.enabled && elbow.enabled
    }

    predicate AllDisabled() {
      !z.enabled && !shoulder.enabled && !elbow.enabled
    }

    /** The consigns, whatever the enable flags. */
    function Consigns(): (real, real, real) {
      (z.consign, shoulder.consign, elbow.consign)
    }

    /** cs_disable on all three axes: the consigns stay as they were. */
    function DisableAll(): Axes {
      Axes(z.(enabled := false), shoulder.(enabled := false), elbow.(enabled := false))
    }
  }

  /** The trajectory buffer: an owned copy of the keyframes, or a released
      buffer (a NULL pointer) next to the keyframe count the arm still holds. */
  datatype Buffer = Owned(frames: seq<Keyframe>) | Released(frameCount: nat) {
    /** The arm's frame_count field. */
    function Count(): nat {
      if Owned? then |frames| else frameCount
    }
  }

  /** arm_t, as far as the trajectory player uses it. Lengths are in mm, the
      conversion factors in encoder impulses per mm or per radian. */
  datatype Arm = Arm(
    l1: real, l2: real,
    mount: Mount,
    zImpPerMm: real, shoulderImpPerRad: real, elbowImpPerRad: real,
    obstacles: seq<Obstacle>,
    trajectory: Buffer,
    lastLoop: int,
    axes: Axes)

  /** What the arm reads from the rest of the robot: the geometry and
      trigonometry libraries and the odometry. */
  datatype Env = Env(geo: GeometryLib, trig: Trig, pose: Pose)

  /** The shoulder and elbow angles computed by the inverse kinematics. */
  datatype Angles = Angles(alpha: real, beta: real)

  function ContextOf(env: Env, arm: Arm): Context {
    Context(env.geo, arm.mount, env.pose)
  }

  /** The conversion of a float to the int parameter z of
      compute_inverse_cinematics: C truncates toward zero. */
  function TruncateTowardZero(x: real): (r: int)
    ensures 0.0 <= x ==> 0 <= r && r as real <= x < r as real + 1.0
    ensures x < 0.0 ==> r <= 0 && r as real - 1.0 < x <= r as real
  {
    if x >= 0.0 then x.Floor else -((-x).Floor)
  }

  /** Well-formedness kept by every corrected operation: a keyframe count
      is never left behind a released buffer. */
  predicate Sound(arm: Arm) {
    arm.trajectory.Released? ==> arm.trajectory.frameCount == 0
  }

  // ---------------------------------------------------------------------
  // Trajectory lifecycle

  /** arm_execute_movement: the arm takes its own copy of the keyframes,
      dropping any previous trajectory. */
  function ExecuteMovement(arm: Arm, frames: seq<Keyframe>): (r: Arm)
    ensures r.trajectory.Owned? && r.trajectory.frames == frames
    ensures r.trajectory.Count() == |frames|
    ensures r == arm.(trajectory := r.trajectory)
    ensures Sound(arm) ==> Sound(r)
  {
    arm.(trajectory := Owned(frames))
  }

  /** arm_trajectory_finished at date now: true without keyframes or once the
      last keyframe's date has passed; reading the last date through a
      released buffer is a NULL dereference. */
  function TrajectoryFinished(arm: Arm, now: int): (r: Result<bool, Fault>)
    ensures arm.trajectory.Count() == 0 ==> r == Ok(true)
    ensures r.Err? <==> arm.trajectory.Released? && arm.trajectory.frameCount > 0
    ensures r.Err? ==> r.error == NullDereference
    ensures r.Ok? && arm.trajectory.Count() > 0 ==>
      (r.value <==> now > arm.trajectory.frames[|arm.trajectory.frames| - 1].date)
  {
    if arm.trajectory.Count() == 0 then Ok(true)
    else match arm.trajectory
      case Released(_) => Err(NullDereference)
      case Owned(frames) => Ok(now > frames[|frames| - 1].date)
  }

  /** arm_shutdown as written: the buffer is released but frame_count is
      left as it was. */
  function ShutdownAsWritten(arm: Arm): (r: Arm)
    ensures r.trajectory.Count() == arm.trajectory.Count()
    ensures arm.trajectory.Count() != 0 ==> r.trajectory.Released?
    ensures r == arm.(trajectory := r.trajectory)
  {
    if arm.trajectory.Count() != 0 then arm.(trajectory := Released(arm.trajectory.Count()))
    else arm
  }

  /** arm_shutdown as intended: the buffer is released and the arm holds no
      keyframes any more. */
  function Shutdown(arm: Arm): (r: Arm)
    ensures r.trajectory.Count() == 0
    ensures arm.trajectory.Count() != 0 ==> r.trajectory.Released?
    ensures r == arm.(trajectory := r.trajectory)
    ensures Sound(arm) ==> Sound(r)
  {
    if arm.trajectory.Count() != 0 then arm.(trajectory := Released(0))
    else arm
  }

  // ---------------------------------------------------------------------
  // Obstacles

  /** arm_create_obstacle: fewer than three vertices is refused and changes
      nothing; otherwise one obstacle with pointsCount vertices is appended
      and its index returned. The C leaves the new vertices and height
      uninitialised for the caller to write through the returned pointer
      (SetObstacle); until then they are placeholders here, vertices at the
      origin and height 0. */
  function CreateObstacle(arm: Arm, pointsCount: int): (r: (Arm, Option<nat>))
    ensures pointsCount < 3 ==> r == (arm, None)
    ensures pointsCount >= 3 ==>
      && r.1 == Some(|arm.obstacles|)
      && |r.0.obstacles| == |arm.obstacles| + 1
      && r.0.obstacles[..|arm.obstacles|] == arm.obstacles
      && |r.0.obstacles[|arm.obstacles|].base| == pointsCount
      && r.0 == arm.(obstacles := r.0.obstacles)
    ensures Sound(arm) ==> Sound(r.0)
  {
    if pointsCount < 3 then (arm, None)
    else
      var o := Obstacle(seq(pointsCount, _ => Origin), 0.0);
      (arm.(obstacles := arm.obstacles + [o]), Some(|arm.obstacles|))
  }

  /** The caller's writes through the pointer arm_create_obstacle returns:
      the vertices (as many as were allocated) and the height of obstacle
      index are set; every other obstacle and the rest of the arm stay. */
  function SetObstacle(arm: Arm, index: nat, base: seq<Point>, height: real): (r: Arm)
    requires index < |arm.obstacles| && |base| == |arm.obstacles[index].base|
    ensures |r.obstacles| == |arm.obstacles|
    ensures r.obstacles[index] == Obstacle(base, height)
    ensures forall k :: 0 <= k < |arm.obstacles| && k != index ==> r.obstacles[k] == arm.obstacles[k]
    ensures r == arm.(obstacles := r.obstacles)
    ensures Sound(arm) ==> Sound(r)
  {
    arm.(obstacles := arm.obstacles[index := Obstacle(base, height)])
  }

  /** Creating an obstacle for a polygon and filling it in: the arm collides
      afterwards exactly when it collided before or the new polygon, at its
      height, blocks it. */
  lemma CreatedObstacleAddsOnlyItsOwnCollisions(geo: GeometryLib, arm: Arm, base: seq<Point>, height: real,
                                                 elbow: Point, hand: Point, z: real)
    requires |base| >= 3
    ensures var (created, index) := CreateObstacle(arm, |base|);
      && index.Some? && index.value < |created.obstacles|
      && var filled := SetObstacle(created, index.value, base, height);
         (CheckForObstacleCollision(geo, filled.obstacles, elbow, hand, z)
          <==> CheckForObstacleCollision(geo, arm.obstacles, elbow, hand, z)
               || Blocks(geo, Obstacle(base, height), elbow, hand, z))
  {
    var (created, index) := CreateObstacle(arm, |base|);
    var filled := SetObstacle(created, index.value, base, height);
    assert filled.obstacles == arm.obstacles + [Obstacle(base, height)];
    AddedObstacleBlocksOnlyByItself(geo, arm.obstacles, Obstacle(base, height), elbow, hand, z);
  }

  // ---------------------------------------------------------------------
  // Inverse kinematics

  /** The elbow position compute_inverse_cinematics settles on for a hand at
      target and height z: none without an intersection; with two, the first
      one unless an obstacle blocks it, then the second one unless it is
      blocked too; with one, that one, unchecked. */
  function ChooseElbow(geo: GeometryLib, arm: Arm, target: Point, z: int): (r: Option<Point>)
    ensures var s := ComputePossibleElbowPositions(geo, target, arm.l1, arm.l2);
      var blocked := (p: Point) => exists k :: 0 <= k < |arm.obstacles| && Blocks(geo, arm.obstacles[k], p, target, z as real);
      && (r.None? <==> s.count == 0 || (s.count == 2 && blocked(s.p1) && blocked(s.p2)))
      && (r.Some? ==> r.value == s.p1 || (s.count == 2 && r.value == s.p2))
      && (r.Some? && s.count == 2 ==> !blocked(r.value))
      && (s.count == 2 && !blocked(s.p1) ==> r == Some(s.p1))
      && (s.count != 0 && s.count != 2 ==> r == Some(s.p1))
  {
    var s := geo.circleIntersect(Circle(0.0, 0.0, arm.l1), Circle(target.x, target.y, arm.l2));
    if s.count == 0 then None
    else if s.count == 2 then
      if CheckForObstacleCollision(geo, arm.obstacles, s.p1, target, z as real) then
        if CheckForObstacleCollision(geo, arm.obstacles, s.p2, target, z as real) then None
        else Some(s.p2)
      else Some(s.p1)
    else Some(s.p1)
  }

  /** compute_inverse_cinematics: the shoulder angle points at the chosen
      elbow and the elbow angle along the forearm, both through atan2. The
      height is passed on as an int. */
  function ComputeInverseCinematics(env: Env, arm: Arm, p: Position): (r: Option<Angles>)
    ensures var target := Point(p.x, p.y);
      var e := ChooseElbow(env.geo, arm, target, TruncateTowardZero(p.z));
      && (r.Some? <==> e.Some?)
      && (r.Some? ==> r.value.alpha == env.trig.atan2(e.value.y, e.value.x)
                      && r.value.beta == env.trig.atan2(target.y - e.value.y, target.x - e.value.x))
  {
    var target := Point(p.x, p.y);
    match ChooseElbow(env.geo, arm, target, TruncateTowardZero(p.z))
    case None => None
    case Some(e) => Some(Angles(env.trig.atan2(e.y, e.x), env.trig.atan2(p.y - e.y, p.x - e.x)))
  }

  /** The angles of the inverse kinematics are the ones the angle helpers of
      arm_cinematics.c compute for the chosen elbow and the hand. */
  lemma InverseCinematicsUsesAngleHelpers(env: Env, arm: Arm, p: Position)
    requires ComputeInverseCinematics(env, arm, p).Some?
    ensures var target := Point(p.x, p.y);
      var e := ChooseElbow(env.geo, arm, target, TruncateTowardZero(p.z)).value;
      var a := ComputeInverseCinematics(env, arm, p).value;
      a == Angles(ComputeShoulderAngle(env.trig, e, target), ComputeElbowAngle(env.trig, e, target))
  {
  }

  /** With a correct circle intersection and positive link lengths, a chosen
      elbow lets both links reach the hand. */
  lemma ChosenElbowReachesTarget(geo: GeometryLib, arm: Arm, target: Point, z: int)
    requires CircleLaws(geo)
    requires arm.l1 > 0.0 && arm.l2 > 0.0
    ensures var e := ChooseElbow(geo, arm, target, z);
      e.Some? ==> ReachesWith(e.value, target, arm.l1, arm.l2)
  {
    ElbowPositionsOnBothLinks(geo, target, arm.l1, arm.l2);
  }

  /** With a correct circle intersection and positive link lengths, the
      inverse kinematics fails exactly when the hand is out of reach of the
      two links, or when it has two elbow positions and both are blocked. */
  lemma InverseCinematicsFailsOnlyOutOfReachOrBlocked(geo: GeometryLib, arm: Arm, target: Point, z: int)
    requires CircleLaws(geo)
    requires arm.l1 > 0.0 && arm.l2 > 0.0
    ensures var s := ComputePossibleElbowPositions(geo, target, arm.l1, arm.l2);
      var d2, outer, inner := target.Norm2(), (arm.l1 + arm.l2) * (arm.l1 + arm.l2), (arm.l1 - arm.l2) * (arm.l1 - arm.l2);
      ChooseElbow(geo, arm, target, z).None? <==>
        || d2 == 0.0 || d2 < inner || d2 > outer
        || (&& 0.0 < d2 && inner < d2 < outer
            && CheckForObstacleCollision(geo, arm.obstacles, s.p1, target, z as real)
            && CheckForObstacleCollision(geo, arm.obstacles, s.p2, target, z as real))
  {
    ElbowPositionCount(geo, target, arm.l1, arm.l2);
  }

  /** Without obstacles the inverse kinematics succeeds whenever the circles
      meet. */
  lemma NoObstacleNeverBlocks(geo: GeometryLib, arm: Arm, target: Point, z: int)
    requires arm.obstacles == []
    ensures ChooseElbow(geo, arm, target, z).Some?
      <==> ComputePossibleElbowPositions(geo, target, arm.l1, arm.l2).count != 0
  {
  }

  // ---------------------------------------------------------------------
  // The tick

  /** The lag-compensated date: the current date pushed one tick period
      (now - lastLoop) ahead. */
  function CompensatedDate(now: int, lastLoop: int): (c: int)
    ensures c - now == now - lastLoop
  {
    2 * now - lastLoop
  }

  /** Posting a position to the axes: all axes are enabled and receive the
      height and the angles scaled to impulses when the inverse kinematics
      succeeds, and all are disabled, their consigns untouched, when it
      fails. */
  function Actuate(env: Env, arm: Arm, p: Position): (r: Axes)
    ensures r.AllEnabled() <==> ComputeInverseCinematics(env, arm, p).Some?
    ensures r.AllEnabled() || r.AllDisabled()
    ensures r.AllDisabled() ==> r.Consigns() == arm.axes.Consigns()
    ensures r.AllEnabled() ==> var a := ComputeInverseCinematics(env, arm, p).value;
      && r.z.consign == p.z * arm.zImpPerMm
      && r.shoulder.consign == a.alpha * arm.shoulderImpPerRad
      && r.elbow.consign == a.beta * arm.elbowImpPerRad
  {
    var ik := ComputeInverseCinematics(env, arm, p);
    if ik.Some? then
      Axes(Axis(true, p.z * arm.zImpPerMm),
           Axis(true, ik.value.alpha * arm.shoulderImpPerRad),
           Axis(true, ik.value.beta * arm.elbowImpPerRad))
    else arm.axes.DisableAll()
  }

  /** Which sampling of the keyframes a tick uses. */
  datatype Sampling = AsWritten | Intended

  function SampleBy(sampling: Sampling, ctx: Context, frames: seq<Keyframe>, c: int): Result<Position, Fault>
    requires |frames| > 0
  {
    match sampling
    case AsWritten => SampleAsWritten(ctx, frames, c)
    case Intended => Sample(ctx, frames, c)
  }

  /** One run of arm_manage at date now: without keyframes all axes are
      disabled; otherwise the keyframes are sampled at the compensated date
      and the position is posted to the axes. The tick always ends by
      recording now as the date of the last loop. */
  function Tick(sampling: Sampling, env: Env, arm: Arm, now: int): (r: Result<Arm, Fault>)
    ensures r.Ok? ==> r.value == arm.(axes := r.value.axes, lastLoop := now)
    ensures arm.trajectory.Count() == 0 ==>
      r.Ok? && r.value.axes.AllDisabled() && r.value.axes.Consigns() == arm.axes.Consigns()
    ensures r.Ok? ==> r.value.axes.AllEnabled() || r.value.axes.AllDisabled()
    ensures r.Ok? && r.value.axes.AllEnabled() ==> arm.trajectory.Count() > 0
    ensures arm.trajectory.Released? && arm.trajectory.frameCount > 0 ==> r == Err(NullDereference)
    ensures arm.trajectory.Owned? && arm.trajectory.Count() > 0 ==>
      var s := SampleBy(sampling, ContextOf(env, arm), arm.trajectory.frames, CompensatedDate(now, arm.lastLoop));
      && (r.Err? <==> s.Err?)
      && (r.Err? ==> r.error == s.error)
      && (r.Ok? ==> r.value.axes == Actuate(env, arm, s.value))
  {
    var idle := arm.(axes := arm.axes.DisableAll(), lastLoop := now);
    if arm.trajectory.Count() == 0 then Ok(idle)
    else match arm.trajectory
      case Released(_) => Err(NullDereference)
      case Owned(frames) =>
        match SampleBy(sampling, ContextOf(env, arm), frames, CompensatedDate(now, arm.lastLoop))
        case Err(e) => Err(e)
        case Ok(p) => Ok(arm.(axes := Actuate(env, arm, p), lastLoop := now))
  }

  /** arm_manage as written. */
  function ManageAsWritten(env: Env, arm: Arm, now: int): (r: Result<Arm, Fault>)
    ensures r.Ok? ==> r.value.lastLoop == now
  {
    Tick(AsWritten, env, arm, now)
  }

  /** arm_manage with the corrected sampling. */
  function Manage(env: Env, arm: Arm, now: int): (r: Result<Arm, Fault>)
    ensures r.Ok? ==> r.value.lastLoop == now
    ensures Sound(arm) && r.Ok? ==> Sound(r.value)
  {
    Tick(Intended, env, arm, now)
  }

  /** A tick only depends on the date of the previous loop through the
      compensated date: two ticks with the same compensated date command the
      same axes. */
  lemma TickDependsOnlyOnCompensatedDate(sampling: Sampling, env: Env, arm: Arm, now1: int, now2: int, lastLoop2: int)
    requires CompensatedDate(now1, arm.lastLoop) == CompensatedDate(now2, lastLoop2)
    ensures var r1, r2 := Tick(sampling, env, arm, now1), Tick(sampling, env, arm.(lastLoop := lastLoop2), now2);
      && (r1.Err? <==> r2.Err?)
      && (r1.Err? ==> r1.error == r2.error)
      && (r1.Ok? ==> r1.value.axes == r2.value.axes)
  {
    var arm2 := arm.(lastLoop := lastLoop2);
    assert ContextOf(env, arm2) == ContextOf(env, arm);
    if arm.trajectory.Owned? && arm.trajectory.Count() > 0 {
      var s := SampleBy(sampling, ContextOf(env, arm), arm.trajectory.frames, CompensatedDate(now1, arm.lastLoop));
      if s.Ok? {
        ActuateIgnoresLastLoop(env, arm, lastLoop2, s.value);
      }
    }
  }

  lemma ActuateIgnoresLastLoop(env: Env, arm: Arm, lastLoop: int, p: Position)
    ensures Actuate(env, arm.(lastLoop := lastLoop), p) == Actuate(env, arm, p)
  {
    var arm2 := arm.(lastLoop := lastLoop);
    assert ContextOf(env, arm2) == ContextOf(env, arm);
    assert ComputeInverseCinematics(env, arm2, p) == ComputeInverseCinematics(env, arm, p);
  }

  /** On keyframes with strictly increasing dates the corrected tick never
      faults, as long as the buffer has not been released under a count. */
  lemma StrictTrajectoryNeverFaults(env: Env, arm: Arm, now: int)
    requires Sound(arm)
    requires arm.trajectory.Owned? ==> StrictlyIncreasing(arm.trajectory.frames)
    ensures Manage(env, arm, now).Ok?
  {
  }

  /** On strictly increasing dates the tick as written faults exactly on a
      single keyframe sampled at its own date. */
  lemma AsWrittenTickFaultsOnlyOnSingleKeyframe(env: Env, arm: Arm, now: int)
    requires arm.trajectory.Owned? && StrictlyIncreasing(arm.trajectory.frames)
    ensures var frames := arm.trajectory.frames;
      ManageAsWritten(env, arm, now).Err? <==>
        |frames| == 1 && CompensatedDate(now, arm.lastLoop) == frames[0].date
  {
  }

  /** Once the trajectory is finished and time does not run backwards, the
      tick holds the last keyframe. */
  lemma FinishedTrajectoryHoldsLastFrame(env: Env, arm: Arm, now: int)
    requires arm.trajectory.Owned? && arm.trajectory.Count() > 0
    requires arm.trajectory.frames[0].date <= arm.trajectory.frames[arm.trajectory.Count() - 1].date
    requires arm.lastLoop <= now
    requires TrajectoryFinished(arm, now) == Ok(true)
    ensures var frames := arm.trajectory.frames;
      Manage(env, arm, now)
        == Ok(arm.(axes := Actuate(env, arm, Place(ContextOf(env, arm), frames[|frames| - 1])), lastLoop := now))
  {
  }

  /** arm_shutdown as written followed by a tick or by
      arm_trajectory_finished: both read through the released buffer. */
  lemma TickAfterShutdownAsWrittenFaults(env: Env, arm: Arm, now: int)
    requires arm.trajectory.Count() > 0
    ensures ManageAsWritten(env, ShutdownAsWritten(arm), now) == Err(NullDereference)
    ensures TrajectoryFinished(ShutdownAsWritten(arm), now) == Err(NullDereference)
  {
  }

  /** After the corrected shutdown a tick disables every axis and the
      trajectory reads as finished. */
  lemma TickAfterShutdownIsIdle(env: Env, arm: Arm, now: int)
    ensures var r := Manage(env, Shutdown(arm), now);
      r.Ok? && r.value.axes.AllDisabled()
    ensures TrajectoryFinished(Shutdown(arm), now) == Ok(true)
  {
  }

  /** A sound arm never reads through a released buffer. */
  lemma SoundArmNeverDereferencesNull(env: Env, arm: Arm, now: int)
    requires Sound(arm)
    ensures TrajectoryFinished(arm, now).Ok?
    ensures Manage(env, arm, now) != Err(NullDereference)
  {
    if arm.trajectory.Owned? && arm.trajectory.Count() > 0 {
      var s := Sample(ContextOf(env, arm), arm.trajectory.frames, CompensatedDate(now, arm.lastLoop));
      assert s.Err? ==> s.error == DivisionByZero;
    }
  }

  /** A new trajectory reads as finished exactly when it is empty or its last
      date has passed. */
  lemma ExecutedTrajectoryFinishesAfterLastDate(arm: Arm, frames: seq<Keyframe>, now: int)
    ensures TrajectoryFinished(ExecuteMovement(arm, frames), now)
      == Ok(|frames| == 0 || now > frames[|frames| - 1].date)
  {
  }
}
