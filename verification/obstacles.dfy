/** Polygonal, height-bounded obstacles and the collision test of the inverse
    kinematics (check_for_obstacle_collision in arm.c). Obstacle polygons are
    expressed in arm coordinates. */
module Obstacles {
  import opened Geometry

  /** arm_obstacle_t: a polygon and the height up to which it blocks. */
  datatype Obstacle = Obstacle(base: seq<Point>, height: real)

  /** An obstacle blocks an arm at height z with its elbow at `elbow` and its
      hand at `hand` when it is at least as high as the arm and holds either
      joint, or is crossed by the forearm or by the upper arm. */
  predicate Blocks(geo: GeometryLib, o: Obstacle, elbow: Point, hand: Point, z: real)
    ensures Blocks(geo, o, elbow, hand, z) ==> o.height >= z
    ensures o.height >= z && geo.isInPoly(hand, o.base) ==> Blocks(geo, o, elbow, hand, z)
  {
    && o.height >= z
    && (|| geo.isInPoly(elbow, o.base)
        || geo.isInPoly(hand, o.base)
        || geo.isCrossingPoly(elbow, hand, o.base)
        || geo.isCrossingPoly(Origin, elbow, o.base))
  }

  /** The scan of check_for_obstacle_collision from obstacle i on: obstacles
      lower than z are skipped, the first blocking one ends the scan. */
  function CollisionFrom(geo: GeometryLib, obstacles: seq<Obstacle>, i: nat, elbow: Point, hand: Point, z: real): (r: bool)
    requires i <= |obstacles|
    ensures r <==> exists k :: i <= k < |obstacles| && Blocks(geo, obstacles[k], elbow, hand, z)
    decreases |obstacles| - i
  {
    if i == |obstacles| then false
    else if obstacles[i].height < z then CollisionFrom(geo, obstacles, i + 1, elbow, hand, z)
    else if geo.isInPoly(elbow, obstacles[i].base) then true
    else if geo.isInPoly(hand, obstacles[i].base) then true
    else if geo.isCrossingPoly(elbow, hand, obstacles[i].base) then true
    else if geo.isCrossingPoly(Origin, elbow, obstacles[i].base) then true
    else CollisionFrom(geo, obstacles, i + 1, elbow, hand, z)
  }

  /** check_for_obstacle_collision: a collision is reported exactly when some
      obstacle blocks the arm. */
  function CheckForObstacleCollision(geo: GeometryLib, obstacles: seq<Obstacle>, elbow: Point, hand: Point, z: real): (r: bool)
    ensures r <==> exists k :: 0 <= k < |obstacles| && Blocks(geo, obstacles[k], elbow, hand, z)
  {
    CollisionFrom(geo, obstacles, 0, elbow, hand, z)
  }

  /** Obstacles lower than the arm never block it; in particular an empty
      obstacle set never does. */
  lemma LowerObstaclesNeverBlock(geo: GeometryLib, obstacles: seq<Obstacle>, elbow: Point, hand: Point, z: real)
    requires forall k :: 0 <= k < |obstacles| ==> obstacles[k].height < z
    ensures !CheckForObstacleCollision(geo, obstacles, elbow, hand, z)
  {
  }

  /** Adding an obstacle never removes a collision, and the new obstacle
      alone decides whether a clear arm becomes blocked. */
  lemma AddedObstacleBlocksOnlyByItself(geo: GeometryLib, obstacles: seq<Obstacle>, o: Obstacle, elbow: Point, hand: Point, z: real)
    ensures CheckForObstacleCollision(geo, obstacles + [o], elbow, hand, z)
        <==> CheckForObstacleCollision(geo, obstacles, elbow, hand, z) || Blocks(geo, o, elbow, hand, z)
  {
    var all := obstacles + [o];
    if CheckForObstacleCollision(geo, obstacles, elbow, hand, z) {
      var k :| 0 <= k < |obstacles| && Blocks(geo, obstacles[k], elbow, hand, z);
      assert all[k] == obstacles[k];
    }
    if Blocks(geo, o, elbow, hand, z) {
      assert all[|obstacles|] == o;
    }
    if CheckForObstacleCollision(geo, all, elbow, hand, z) {
      var k :| 0 <= k < |all| && Blocks(geo, all[k], elbow, hand, z);
      if k < |obstacles| {
        assert all[k] == obstacles[k];
      }
    }
  }
}
