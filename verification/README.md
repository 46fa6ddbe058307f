# Arm controller of the debra robot, in Dafny

A model of the arm controller of the cvra "debra" competition robot. The
robot's arm is a planar two-link arm (shoulder and elbow) on a vertical z
axis, and the controller turns a timed list of keyframes into setpoints
("consigns") for three closed-loop axis controllers. The model covers:

- **Trajectory player** (`arm_manage` in `arm.c`). Each tick computes a
  lag-compensated date and holds the first or last keyframe outside the
  trajectory. Inside it, the tick scans for the bracketing pair of keyframes,
  converts both to arm coordinates and blends them. It then runs the inverse
  kinematics and either enables the three axes with new consigns or disables
  them all.
- **Trajectory lifecycle**: `arm_execute_movement`, `arm_trajectory_finished`,
  `arm_shutdown`.
- **Inverse kinematics** (`compute_inverse_cinematics`). It intersects two
  circles and finds zero, one or two elbow positions. With two positions it
  rejects any that an obstacle blocks; a single position is taken unchecked.
- **Obstacle set**: `arm_create_obstacle` and `check_for_obstacle_collision`.
- **Frame conversion** (`arm_change_coordinate_system`), which handles ARM,
  ROBOT and table (WORLD) coordinates.
- **Elbow-choice policy and angle helpers** of `arm_cinematics.c`.

The arm is an immutable record and every API call is a pure step function.

Modules:

| file | module | contents |
|---|---|---|
| wrappers.dfy | Wrappers | `Option`, `Result` |
| geometry.dfy | Geometry | points, circles, polar vectors; the geometry and trigonometry libraries as records of functions, with the laws the proofs assume about them |
| cinematics.dfy | Cinematics | `arm_cinematics.c` |
| obstacles.dfy | Obstacles | obstacles and the collision test |
| frames.dfy | Frames | coordinate systems and `arm_change_coordinate_system` |
| trajectory.dfy | Trajectory | keyframes and the sampling done by every tick, as written and corrected |
| arm.dfy | ArmCore | the arm record, lifecycle, obstacle creation, inverse kinematics, the tick |

### External libraries as parameters

The external libraries are unseen, so each is a parameter: a record of
function values that every operation receives.

- `GeometryLib` holds `circle_intersect`, `is_in_poly`, `is_crossing_poly`,
  `vect2_cart2pol` and `vect2_pol2cart`.
- `Trig` holds `atan2`, `cos`, `sin` and pi.
- `Pose` holds the robot's odometry (`position_get_*`).

What the libraries are expected to satisfy is stated as ghost predicates,
and only the lemmas that need a law require it:

- `CircleLaws`: a correct intersection count, with the reported points on
  both circles.
- `PolarLaws`: the polar conversions agree with cos and sin.
- `PythagoreanLaw`.
- `AngleDifferenceLaws`.
- `KnownValues`: the handful of values the unit tests rely on.

### Undefined behaviour

Behaviour C leaves undefined is a `Fault` in a `Result`:

- dereferencing a released (NULL) trajectory buffer;
- reading keyframes past the end of the buffer;
- dividing by a zero date difference.

### Code as written and corrected

Where the code is wrong (see "Findings"), the as-written behaviour and the
corrected one are both modelled. The tick is parametrised by the sampling it
uses: `ManageAsWritten` uses `AsWritten` and `Manage` uses `Intended`.
`ShutdownAsWritten` and `Shutdown` are kept side by side the same way.

### Obstacle creation

`arm_create_obstacle` receives only a point count. The caller fills the
vertices and height through the returned pointer, modelled as the separate
step `SetObstacle`.

## Model

| member | source | states |
|---|---|---|
| Cinematics.ElbowPositionCount | arm_cinematics.c:7-22 | with positive link lengths and a correct circle intersection, there are two elbow positions iff the squared target distance lies strictly between (l1-l2)² and (l1+l2)², one iff it equals either bound, none iff it lies outside them or the target is the shoulder itself |
| Cinematics.ComputePossibleElbowPositions | arm_cinematics.c:7-22 | intersects the circle of radius l1 around the shoulder with the circle of radius l2 around the hand; with a correct intersection and positive lengths the result is exactly the intersection of those two circles (concentric circles, the hand at the shoulder, report none) |
| Cinematics.ElbowPositionsOnBothLinks | arm_cinematics.c:7-22 | every reported elbow position is at distance l1 from the shoulder and l2 from the hand |
| Cinematics.TwoElbowPositionsInReach | tests/arm_cinematics.cpp:17-21 | hand (100, 100) with links 100 and 100 gives two elbow positions |
| Cinematics.OneElbowPositionAtFullStretch | tests/arm_cinematics.cpp:23-27 | hand (100, 0) with links 50 and 50 gives exactly one |
| Cinematics.NoElbowPositionOutOfReach | tests/arm_cinematics.cpp:29-33 | hand (100, 100) with links 10 and 10 gives none |
| Cinematics.ModeForOrientation | arm_cinematics.c:24-33 | the mode is kept iff the arm's angle offset is positive; at offset 0 or below it is flipped |
| Cinematics.ModeForOrientationInvolution | arm_cinematics.c:24-33 | re-orienting twice with the same offset gives back the original mode |
| Cinematics.ChooseShoulderSolution | arm_cinematics.c:35-58 | the result is one of the two candidates; for a target at negative x it has the larger x; otherwise BACK gives the larger y and FRONT the smaller y |
| Cinematics.ChooseShoulderSolutionTies | arm_cinematics.c:39-56 | when the compared coordinate is equal the second elbow is returned, in every branch |
| Cinematics.ChooseShoulderSolutionSymmetric | arm_cinematics.c:39-56 | when the compared coordinate differs, swapping the two candidates does not change the chosen point |
| Cinematics.ComputeElbowAngle | arm_cinematics.c:65-71 | the elbow angle is the shoulder angle of an elbow placed at the forearm vector hand - elbow |
| Cinematics.ComputeShoulderAngle | arm_cinematics.c:60-63 | the polar angle atan2(y, x) of the elbow: 0 for an elbow on the positive x axis, pi/4 on the positive diagonal |
| Cinematics.ShoulderAngleIgnoresHand | arm_cinematics.c:60-63 | the shoulder angle does not depend on the hand |
| Cinematics.ElbowAngleDependsOnForearm | arm_cinematics.c:65-71 | two elbow/hand pairs with the same forearm vector have the same elbow angle |
| Cinematics.ShoulderAngleStraightAhead | tests/arm_cinematics_get_angle.cpp:14-23 | an elbow at (100, 0) has shoulder angle 0 |
| Cinematics.ElbowAngleDiagonal | tests/arm_cinematics_get_angle.cpp:25-33 | a forearm from (10, 10) to (20, 20) has angle pi/4 |
| Obstacles.CollisionFrom | arm.c:346-362 | the scan from obstacle i reports a collision iff some later obstacle at least as high as z contains the elbow or the hand, or is crossed by the forearm or the upper arm |
| Obstacles.Blocks | arm.c:347-360 | an obstacle blocks only when it is at least as high as z, and then whenever it holds the elbow or the hand or is crossed by the forearm or the upper arm |
| Obstacles.CheckForObstacleCollision | arm.c:341-363 | a collision is reported iff some obstacle blocks the arm in that sense |
| Obstacles.LowerObstaclesNeverBlock | arm.c:347-348 | obstacles all lower than z never block, so an empty set never blocks |
| Obstacles.AddedObstacleBlocksOnlyByItself | arm.c:346-362 | with one more obstacle, the arm collides iff it collided before or the new obstacle blocks it |
| Frames.ChangeCoordinateSystem | arm.c:288-324 | ARM coordinates are returned unchanged; ROBOT ones are translated by the mount offset and turned by its rotation; every other tag is taken to robot coordinates through the odometry first and then handled as ROBOT |
| Frames.RotateBy | arm.c:301-303 | converts a vector to polar form, subtracts the angle from its polar angle and converts back |
| Frames.RobotToArm | arm.c:296-305 | subtracts the mount offset, then turns by the mount rotation |
| Frames.TableToRobot | arm.c:308-317 | subtracts the robot position, then turns by the robot heading |
| Frames.RotateByIsRotation | arm.c:300-303 | changing only the polar angle by -a through the polar conversions is the rotation (x cos a + y sin a, y cos a - x sin a) |
| Frames.RotationLawHolds | arm.c:300-303 | from the polar and angle-difference laws, every such polar turn is a rotation |
| Frames.RotationKeepsNorm | arm.c:301-303 | a rotation keeps the length of the vector |
| Frames.RobotFrameKeepsDistanceToShoulder | arm.c:295-306 | a ROBOT point keeps its distance to the mount offset, so only its polar angle around the shoulder changes |
| Frames.TableFrameKeepsDistanceToRobot | arm.c:308-317 | a table point keeps its distance to the robot's position, so only its polar angle around the robot changes |
| Frames.IdentityMountKeepsRobotCoordinates | arm.c:295-306 | an arm mounted at the robot origin with no rotation sees ROBOT coordinates unchanged |
| Frames.RobotToArmExample | tests/arm_utils.cpp:12-22 | (100, 100) seen from an arm mounted at (0, 100) with rotation pi/2 is (0, -100) |
| Frames.TableToRobotExample | tests/arm_utils.cpp:24-36 | (100, 200) seen from a robot at (100, 100) heading pi/2 is (100, 0) |
| Frames.TableToRobotDiagonalExample | tests/arm_utils.cpp:38-49 | (100, 100) seen from a robot at the origin heading pi/4 is (x, 0) with x positive and x² = 20000, that is x = 100·sqrt 2 |
| Trajectory.Scan | arm.c:162-165 | the scan from index i stops at the first index whose date is not before c, with every skipped date before c, or runs off the end |
| Trajectory.Place | arm.c:149-158 | a keyframe's x and y are converted to arm coordinates and its height kept; arm-frame keyframes are taken as they are |
| Trajectory.ScanBrackets | arm.c:160-168 | with at least two keyframes and c within the trajectory, the scan stops at 1 <= i <= count-1 with date[i-1] <= c <= date[i] |
| Trajectory.ScanFindsKeyframe | arm.c:162-165 | on strictly increasing dates, scanning for a keyframe's own date stops on that keyframe |
| Trajectory.FactorInUnitInterval | arm.c:167-168 | inside a bracketing pair with increasing dates the interpolation factor lies in [0, 1], and is 0 and 1 exactly at the two keyframes' dates |
| Trajectory.Factor | arm.c:167-168 | the factor t is the elapsed time since the earlier keyframe divided by the time between the two keyframes |
| Trajectory.LerpBetween | arm.c:183-189 | an interpolation with factor in [0, 1] lies between its two ends |
| Trajectory.BlendAsWritten | arm.c:184-189 | the blend as written: at t = 0 it gives the later keyframe's x and y with the earlier keyframe's z, at t = 1 the earlier x and y with the later z |
| Trajectory.BlendAsWrittenReversesPlane | arm.c:184-189 | the blend as written interpolates x and y from the later keyframe to the earlier one, and z from the earlier to the later |
| Trajectory.BlendAsWrittenAgreesOnlyAtMidpoint | arm.c:184-189 | the blend as written equals the intended one iff t = 1/2 or the keyframes share x and y |
| Trajectory.Blend | arm.c:183-189 | the corrected blend is the earlier keyframe at t = 0 and the later one at t = 1 |
| Trajectory.SampleAsWritten | arm.c:147-190 | a date before the first keyframe holds the first and one after the last holds the last; the read past the end happens iff there is one keyframe and c equals its date; on strictly increasing dates there is no division by zero; its value inside the trajectory is given by BlendAsWrittenReversesPlane and AsWrittenAtKeyframeDate |
| Trajectory.Sample | arm.c:147-190 | with the last keyframe held from its own date on, the only possible fault is a division by zero, and only on dates that do not strictly increase |
| Trajectory.SampleHitsKeyframes | arm.c:147-190 | on strictly increasing dates the sampled path passes through every keyframe at that keyframe's date |
| Trajectory.AsWrittenAtKeyframeDate | arm.c:160-189 | as written, on strictly increasing dates with two or more keyframes, the arm is sent at the first keyframe's date to the second keyframe's x and y, and at every later keyframe's date to the previous keyframe's x and y, each time at the keyframe's own height |
| Trajectory.AsWrittenDivisionIsZeroOverZero | arm.c:160-168 | as written, a zero date difference is only reached with two or more keyframes whose first two dates equal the date sampled, so numerator and divisor of the factor are both zero |
| Trajectory.SampleBetweenBracketingKeyframes | arm.c:160-189 | inside the trajectory every sampled coordinate lies between the coordinates of the two bracketing keyframes |
| Trajectory.SingleKeyframeAtItsDate | arm.c:148-165 | a single keyframe sampled at its own date reads index 1 as written, and holds the keyframe when corrected |
| Trajectory.AsWrittenStartsAtWrongKeyframe | arm.c:184-189 | keyframes x = 0 at date 0 and x = 100 at date 1000, sampled at date 0: the code commands x = 100, the corrected blend x = 0 |
| Trajectory.MidpointAsWritten | arm.c:160-189 | keyframes x = 0 at date 0 and x = 100 at date 1000, sampled at date 500: the code commands x = 50, the one date where the reversal does not show |
| Trajectory.Midpoint | arm.c:160-189 | the same sample with the intended blend also gives x = 50 |
| ArmCore.TruncateTowardZero | arm.c:193 | the float height passed as the int z is truncated toward zero: within 1 below a non-negative value and within 1 above a negative one |
| ArmCore.ExecuteMovement | arm.c:110-125 | the arm then owns exactly the given keyframes and its count is their number; nothing else changes |
| ArmCore.TrajectoryFinished | arm.c:226-236 | true without keyframes, otherwise iff now is past the last keyframe's date; a NULL dereference iff the buffer was released under a nonzero count |
| ArmCore.ExecutedTrajectoryFinishesAfterLastDate | arm.c:226-236 | right after a new trajectory is set, it reads as finished iff it is empty or now is past its last date |
| ArmCore.ShutdownAsWritten | arm.c:238-243 | the buffer is released but the keyframe count is kept |
| ArmCore.Shutdown | arm.c:238-243 | the buffer is released and the count becomes 0; soundness is kept |
| ArmCore.CreateObstacle | arm.c:326-339 | fewer than three points returns nothing and leaves the arm unchanged; otherwise exactly one obstacle with that many vertices is appended at the returned index and the earlier ones are untouched |
| ArmCore.SetObstacle | arm.c:336-338 | the caller's writes through the returned pointer: obstacle index gets the given vertices (as many as were allocated) and height; every other obstacle and the rest of the arm stay |
| ArmCore.CreatedObstacleAddsOnlyItsOwnCollisions | arm.c:326-363 | after creating an obstacle for a polygon and writing its vertices and height, the arm collides iff it collided before or that polygon, at that height, blocks it |
| ArmCore.ChooseElbow | arm.c:257-282 | there is no elbow iff the circles do not meet, or they meet twice and both positions are blocked; with two positions the first is taken whenever it is clear, and the chosen one is always clear; with one position it is taken unchecked |
| ArmCore.ComputeInverseCinematics | arm.c:246-286 | succeeds iff an elbow is chosen; then alpha = atan2 of the elbow and beta = atan2 of hand - elbow |
| ArmCore.InverseCinematicsUsesAngleHelpers | arm.c:283-284 | those angles are the ones compute_shoulder_angle and compute_elbow_angle give for the chosen elbow and the hand |
| ArmCore.ChosenElbowReachesTarget | arm.c:257-285 | with a correct circle intersection, the chosen elbow lets both links reach the hand |
| ArmCore.InverseCinematicsFailsOnlyOutOfReachOrBlocked | arm.c:257-270 | with a correct circle intersection the inverse kinematics fails iff the hand is at the shoulder or outside the annulus between radii abs(l1 - l2) and l1 + l2, or there are two elbow positions and both are blocked |
| ArmCore.NoObstacleNeverBlocks | arm.c:264-281 | without obstacles an elbow is chosen iff the circles meet (concentric circles, the hand at the shoulder, report none) |
| ArmCore.CompensatedDate | arm.c:139 | the compensated date is as far ahead of now as now is ahead of the previous loop |
| ArmCore.Actuate | arm.c:192-206 | all axes are enabled iff the inverse kinematics succeeds, and then carry z·imp/mm, alpha·imp/rad and beta·imp/rad; on failure all are disabled and keep their previous consigns |
| ArmCore.Tick | arm.c:127-214 | only the axes and the last-loop date change, and the last-loop date becomes now; without keyframes all axes are disabled; a released buffer under a nonzero count is a NULL dereference; otherwise the tick faults iff sampling at the compensated date faults and posts the sampled position to the axes |
| ArmCore.ManageAsWritten | arm.c:127-214 | a tick that completes records now as the last loop |
| ArmCore.Manage | arm.c:127-214 | the corrected tick records now as the last loop and keeps soundness |
| ArmCore.TickDependsOnlyOnCompensatedDate | arm.c:139-190 | two ticks with the same compensated date fault alike and command the same axes, whatever their now and last-loop dates |
| ArmCore.StrictTrajectoryNeverFaults | arm.c:141-213 | on a sound arm whose keyframe dates strictly increase, the corrected tick never faults |
| ArmCore.AsWrittenTickFaultsOnlyOnSingleKeyframe | arm.c:147-168 | on strictly increasing dates the tick as written faults iff there is one keyframe and the compensated date equals its date |
| ArmCore.FinishedTrajectoryHoldsLastFrame | arm.c:153-159 | once the trajectory is finished and time has not gone backwards, the tick posts the last keyframe, provided the first keyframe's date is not after the last one's (otherwise the first keyframe is held) |
| ArmCore.TickAfterShutdownAsWrittenFaults | arm.c:238-243 | after the shutdown as written, both the next tick and arm_trajectory_finished dereference the released buffer |
| ArmCore.TickAfterShutdownIsIdle | arm.c:238-243 | after the corrected shutdown the tick disables all axes and the trajectory reads as finished |
| ArmCore.SoundArmNeverDereferencesNull | arm.c:142-154 | on a sound arm neither arm_trajectory_finished nor the tick reads through a released buffer |

## Left out

- `CircleLaws` takes `circle_intersect` to report no point for concentric
  circles. With l1 == l2 and the hand at the shoulder the two circles
  coincide and every point of them is an elbow position, but under this law
  no position is reported and the inverse kinematics fails.
- Hardware and control-system wiring are not modelled: `arm_init`,
  `arm_highlevel_init`, `arm_connect_io` and `arm_manage_cs` only set
  constants and connect the external `cs_*`/`pid_*` controllers. An axis is
  modelled as an enable flag and its last consign. The link lengths and
  conversion factors are record fields rather than the constants `arm_init`
  writes.
- `arm_forward_cinematics` is not modelled: it is float trigonometry and
  nothing in the core calls it.
- Trigonometry and geometry are uninterpreted: `atan2`, `cos`, `sin`,
  `circle_intersect`, `is_in_poly`, `is_crossing_poly`, `vect2_cart2pol`,
  `vect2_pol2cart` and `position_get_*` live in libraries that are not part
  of this model. They are parameters, constrained only by the stated laws.
  Floats are modelled as exact reals, so rounding is not modelled.
- `uptime_get()` is not modelled: the clock is the `now` parameter of the
  tick and of `TrajectoryFinished`.
- Allocation is not modelled. `malloc`, `realloc` and `free` become sequence
  operations, and `panic()` on allocation failure is left out. A trajectory
  buffer is either owned or released.
- ArmCore.CompensatedDate: the int32 overflow of `2*now - last_loop` is not
  modelled, because dates are unbounded integers.
- ArmCore.Actuate: the conversion of the float consigns to the controllers'
  int32 inputs is not modelled. Consigns are reals.
- ArmCore.CreateObstacle: the C leaves the new obstacle's vertices and
  height uninitialised until the caller writes them. The model cannot hold
  indeterminate values, so it puts placeholders there (vertices at the
  origin, height 0). Collision properties are stated for the obstacle after
  `SetObstacle` has filled it in, not for the placeholder.
- ArmCore.CreateObstacle: the index it returns stays valid forever, unlike
  the C pointer. The `realloc` at arm.c:332 may move the obstacle array, so a
  pointer returned by an earlier call can dangle after a later call. The
  model does not represent that hazard.
- Obstacles are taken to be in arm coordinates, as the code does. The source
  marks their conversion as not implemented.
- A zero date difference makes arm.c:168 divide by zero. The scan stops on
  equal dates only at the first pair, sampled at their common date, so C
  computes a NaN factor (0/0) that feeds the rest of the tick; the model
  stops at a `DivisionByZero` fault instead.
- The timer-interrupt concurrency between the tick and console commands is
  not modelled.
- `shoulder_mode` and `choose_shoulder_solution` are modelled by themselves.
  The inverse kinematics of arm.c does not use them.

## Findings

| source | as written | input that shows it | evidently intended | confidence | as-written member | corrected member |
|---|---|---|---|---|---|---|
| arm.c:148-165 | the last keyframe is held only strictly after its date, and the bracket scan starts at index 1 | a trajectory of one keyframe, ticked when the compensated date equals that keyframe's date: the scan reads frames[1], past the end of the buffer | hold the last keyframe from its own date on, so a single keyframe never reaches the scan | high; not executed | Trajectory.SingleKeyframeAtItsDate | Trajectory.Sample |
| arm.c:184-189 | x and y are `t*previous + (1-t)*next`, while z is `t*next + (1-t)*previous` | keyframes x = 0 at date 0 and x = 100 at date 1000, sampled at date 0: the arm is sent to x = 100, the later keyframe | `(1-t)*previous + t*next` for every coordinate, as for z, so the path starts at the first keyframe | high; not executed | Trajectory.AsWrittenStartsAtWrongKeyframe | Trajectory.Blend |
| arm.c:238-243 | the shutdown frees the keyframes and clears the pointer but leaves frame_count unchanged | any arm with at least one keyframe, shut down and then ticked (or asked whether its trajectory is finished): frames[0] is read through the NULL pointer | the shutdown also sets frame_count to 0, leaving the arm idle | high; not executed | ArmCore.TickAfterShutdownAsWrittenFaults | ArmCore.Shutdown |
