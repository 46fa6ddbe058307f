/** The keyframe sampling done by every tick of the trajectory player
    (arm_manage in arm.c): clamping to the first or last keyframe, the scan
    for the bracketing pair, and the linear interpolation between them. */
module Trajectory {
  import opened Wrappers
  import opened Geometry
  import opened Frames

  /** arm_keyframe_t: a position in a tagged frame, reached at an absolute date. */
  datatype Keyframe = Keyframe(x: real, y: real, z: real, system: CoordinateSystem, date: int)

  /** A hand position in arm coordinates, with its height. */
  datatype Position = Position(x: real, y: real, z: real)

  /** What the C code does that has no defined result: dereferencing a
      released buffer, reading past the end of the keyframes, or dividing by
      a zero date difference (which yields a NaN factor, 0/0). */
  datatype Fault = NullDereference | OutOfBounds(index: int) | DivisionByZero

  /** The ordering callers must give keyframes in; nothing checks it. */
  ghost predicate StrictlyIncreasing(frames: seq<Keyframe>) {
    forall i, j :: 0 <= i < j < |frames| ==> frames[i].date < frames[j].date
  }

  /** A keyframe's position converted to arm coordinates; the height is
      taken as it is. */
  function Place(ctx: Context, f: Keyframe): (r: Position)
    ensures r.z == f.z
    ensures f.system == ArmFrame ==> r == Position(f.x, f.y, f.z)
  {
    var p := ChangeCoordinateSystem(ctx, Point(f.x, f.y), f.system);
    Position(p.x, p.y, f.z)
  }

  /** The scan `while (frames[i].date < c) i++` started at index i: the first
      index from i on whose date is not before c, or None when the scan runs
      off the end of the keyframes. */
  function Scan(frames: seq<Keyframe>, c: int, i: nat): (r: Option<nat>)
    requires 1 <= i
    ensures r.Some? ==> i <= r.value < |frames| && c <= frames[r.value].date
    ensures forall j :: i <= j < (if r.Some? then r.value else |frames|) ==> frames[j].date < c
    decreases |frames| - i
  {
    if i >= |frames| then None
    else if frames[i].date < c then Scan(frames, c, i + 1)
    else Some(i)
  }

  /** With at least two keyframes and a date within the trajectory, the scan
      stops on a pair (i-1, i) that brackets the date. */
  lemma ScanBrackets(frames: seq<Keyframe>, c: int)
    requires |frames| >= 2
    requires frames[0].date <= c <= frames[|frames| - 1].date
    ensures Scan(frames, c, 1).Some?
    ensures var i := Scan(frames, c, 1).value;
      1 <= i <= |frames| - 1 && frames[i - 1].date <= c <= frames[i].date
  {
    var r := Scan(frames, c, 1);
    if r.Some? && r.value > 1 {
      assert frames[r.value - 1].date < c;
    }
  }

  /** On strictly increasing dates the scan stops exactly on a keyframe whose
      date it is looking for. */
  lemma ScanFindsKeyframe(frames: seq<Keyframe>, i: nat, k: nat)
    requires StrictlyIncreasing(frames)
    requires 1 <= i <= k < |frames|
    ensures Scan(frames, frames[k].date, i) == Some(k)
  {
  }

  /** The interpolation factor between keyframes i-1 and i at date c. */
  function Factor(frames: seq<Keyframe>, i: nat, c: int): (t: real)
    requires 1 <= i < |frames| && frames[i].date != frames[i - 1].date
    ensures t * (frames[i].date - frames[i - 1].date) as real == (c - frames[i - 1].date) as real
  {
    (c - frames[i - 1].date) as real / (frames[i].date - frames[i - 1].date) as real
  }

  /** Within a bracketing pair of increasing dates the factor lies in [0, 1],
      and it is 0 and 1 exactly at the two keyframes' dates. */
  lemma FactorInUnitInterval(frames: seq<Keyframe>, i: nat, c: int)
    requires 1 <= i < |frames| && frames[i - 1].date < frames[i].date
    requires frames[i - 1].date <= c <= frames[i].date
    ensures 0.0 <= Factor(frames, i, c) <= 1.0
    ensures Factor(frames, i, c) == 0.0 <==> c == frames[i - 1].date
    ensures Factor(frames, i, c) == 1.0 <==> c == frames[i].date
  {
    var a := (c - frames[i - 1].date) as real;
    var b := (frames[i].date - frames[i - 1].date) as real;
    UnitRatio(a, b);
  }

  lemma UnitRatio(a: real, b: real)
    requires 0.0 <= a <= b && b > 0.0
    ensures 0.0 <= a / b <= 1.0
    ensures a / b == 0.0 <==> a == 0.0
    ensures a / b == 1.0 <==> a == b
  {
    assert (a / b) * b == a;
  }

  /** The linear interpolation from a (at t = 0) to b (at t = 1). */
  function Lerp(a: real, b: real, t: real): real {
    (1.0 - t) * a + t * b
  }

  /** For t in [0, 1] the interpolation stays between its two ends. */
  lemma LerpBetween(a: real, b: real, t: real)
    requires 0.0 <= t <= 1.0
    ensures a <= b ==> a <= Lerp(a, b, t) <= b
    ensures b <= a ==> b <= Lerp(a, b, t) <= a
  {
    if a <= b {
      WeightedGap(a, b, t);
    } else {
      WeightedGap(b, a, 1.0 - t);
      assert Lerp(a, b, t) == Lerp(b, a, 1.0 - t);
    }
  }

  /** The ends of an increasing interpolation, written as offsets. */
  lemma WeightedGap(a: real, b: real, t: real)
    requires 0.0 <= t <= 1.0 && a <= b
    ensures a <= Lerp(a, b, t) <= b
  {
    var d := b - a;
    NonnegativeProduct(t, d);
    NonnegativeProduct(1.0 - t, d);
    assert Lerp(a, b, t) - a == t * d;
    assert b - Lerp(a, b, t) == (1.0 - t) * d;
  }

  lemma NonnegativeProduct(x: real, y: real)
    requires 0.0 <= x && 0.0 <= y
    ensures 0.0 <= x * y
  {
  }

  /** The blend of arm.c as written: x and y weight the earlier keyframe by t
      and the later one by 1 - t, while z weights the later one by t. */
  function BlendAsWritten(prev: Position, next: Position, t: real): (r: Position)
    ensures t == 0.0 ==> r == Position(next.x, next.y, prev.z)
    ensures t == 1.0 ==> r == Position(prev.x, prev.y, next.z)
  {
    Position(t * prev.x + (1.0 - t) * next.x,
             t * prev.y + (1.0 - t) * next.y,
             t * next.z + (1.0 - t) * prev.z)
  }

  /** The blend as written interpolates x and y backwards, from the later
      keyframe to the earlier one, and z forwards. */
  lemma BlendAsWrittenReversesPlane(prev: Position, next: Position, t: real)
    ensures BlendAsWritten(prev, next, t)
      == Position(Lerp(next.x, prev.x, t), Lerp(next.y, prev.y, t), Lerp(prev.z, next.z, t))
  {
    WeightedFirst(prev.x, next.x, t);
    WeightedFirst(prev.y, next.y, t);
    WeightedFirst(next.z, prev.z, t);
  }

  /** Weighting the first term by t interpolates from the second one. */
  lemma WeightedFirst(a: real, b: real, t: real)
    ensures t * a + (1.0 - t) * b == Lerp(b, a, t)
  {
  }

  /** The intended blend: every coordinate moves from the earlier keyframe
      (t = 0) to the later one (t = 1). */
  function Blend(prev: Position, next: Position, t: real): (r: Position)
    ensures t == 0.0 ==> r == prev
    ensures t == 1.0 ==> r == next
  {
    Position(Lerp(prev.x, next.x, t), Lerp(prev.y, next.y, t), Lerp(prev.z, next.z, t))
  }

  /** The position commanded at compensated date c, as arm.c computes it. */
  function SampleAsWritten(ctx: Context, frames: seq<Keyframe>, c: int): (r: Result<Position, Fault>)
    requires |frames| > 0
    ensures c < frames[0].date ==> r == Ok(Place(ctx, frames[0]))
    ensures frames[0].date <= c && frames[|frames| - 1].date < c ==> r == Ok(Place(ctx, frames[|frames| - 1]))
    ensures r.Err? && r.error.OutOfBounds? <==> |frames| == 1 && c == frames[0].date
    ensures StrictlyIncreasing(frames) ==> r != Err(DivisionByZero)
  {
    var last := |frames| - 1;
    if c < frames[0].date then Ok(Place(ctx, frames[0]))
    else if c > frames[last].date then Ok(Place(ctx, frames[last]))
    else
      match Scan(frames, c, 1)
      case None => Err(OutOfBounds(|frames|))
      case Some(i) =>
        if frames[i].date == frames[i - 1].date then Err(DivisionByZero)
        else Ok(BlendAsWritten(Place(ctx, frames[i - 1]), Place(ctx, frames[i]), Factor(frames, i, c)))
  }

  /** The position commanded at compensated date c, with the last keyframe
      also held from its own date on (so a single keyframe never reaches the
      scan) and the intended blend. */
  function Sample(ctx: Context, frames: seq<Keyframe>, c: int): (r: Result<Position, Fault>)
    requires |frames| > 0
    ensures c < frames[0].date ==> r == Ok(Place(ctx, frames[0]))
    ensures frames[0].date <= c && frames[|frames| - 1].date <= c ==> r == Ok(Place(ctx, frames[|frames| - 1]))
    ensures r.Err? ==> r.error == DivisionByZero && !StrictlyIncreasing(frames)
  {
    var last := |frames| - 1;
    if c < frames[0].date then Ok(Place(ctx, frames[0]))
    else if c >= frames[last].date then Ok(Place(ctx, frames[last]))
    else
      match Scan(frames, c, 1)
      case None => Err(OutOfBounds(|frames|))
      case Some(i) =>
        if frames[i].date == frames[i - 1].date then Err(DivisionByZero)
        else Ok(Blend(Place(ctx, frames[i - 1]), Place(ctx, frames[i]), Factor(frames, i, c)))
  }

  /** On strictly increasing dates, the sampled path passes through every
      keyframe at that keyframe's date. */
  lemma SampleHitsKeyframes(ctx: Context, frames: seq<Keyframe>, k: nat)
    requires StrictlyIncreasing(frames)
    requires k < |frames|
    ensures Sample(ctx, frames, frames[k].date) == Ok(Place(ctx, frames[k]))
  {
    var c, last := frames[k].date, |frames| - 1;
    if k == 0 && last > 0 {
      ScanFindsKeyframe(frames, 1, 1);
      FactorInUnitInterval(frames, 1, c);
    } else if 0 < k < last {
      ScanFindsKeyframe(frames, 1, k);
      FactorInUnitInterval(frames, k, c);
    }
  }

  /** The as-written partner of SampleHitsKeyframes: at the first keyframe's
      date the arm is sent to the second keyframe's x and y, and at every
      later keyframe's date to the previous keyframe's x and y; only the
      height is the keyframe's own. */
  lemma AsWrittenAtKeyframeDate(ctx: Context, frames: seq<Keyframe>, k: nat)
    requires StrictlyIncreasing(frames)
    requires |frames| >= 2 && k < |frames|
    ensures k == 0 ==> var next := Place(ctx, frames[1]);
      SampleAsWritten(ctx, frames, frames[0].date) == Ok(Position(next.x, next.y, frames[0].z))
    ensures k >= 1 ==> var prev := Place(ctx, frames[k - 1]);
      SampleAsWritten(ctx, frames, frames[k].date) == Ok(Position(prev.x, prev.y, frames[k].z))
  {
    if k == 0 {
      ScanFindsKeyframe(frames, 1, 1);
      FactorInUnitInterval(frames, 1, frames[0].date);
    } else {
      ScanFindsKeyframe(frames, 1, k);
      FactorInUnitInterval(frames, k, frames[k].date);
    }
  }

  /** As written, the division at the factor faults only on two leading
      keyframes with one date, sampled at that date: the numerator is then
      zero too, so the C quotient is 0/0. */
  lemma AsWrittenDivisionIsZeroOverZero(ctx: Context, frames: seq<Keyframe>, c: int)
    requires |frames| > 0
    ensures SampleAsWritten(ctx, frames, c) == Err(DivisionByZero) ==>
      |frames| >= 2 && c == frames[0].date == frames[1].date
  {
    if SampleAsWritten(ctx, frames, c) == Err(DivisionByZero) {
      ScanBrackets(frames, c);
    }
  }

  /** Between two keyframes of increasing dates, each sampled coordinate lies
      between the two keyframes' coordinates. */
  lemma SampleBetweenBracketingKeyframes(ctx: Context, frames: seq<Keyframe>, c: int)
    requires StrictlyIncreasing(frames)
    requires |frames| >= 2 && frames[0].date <= c < frames[|frames| - 1].date
    ensures var i := Scan(frames, c, 1).value;
      var prev, next, p := Place(ctx, frames[i - 1]), Place(ctx, frames[i]), Sample(ctx, frames, c).value;
      && Between(prev.x, next.x, p.x) && Between(prev.y, next.y, p.y) && Between(prev.z, next.z, p.z)
  {
    ScanBrackets(frames, c);
    var i := Scan(frames, c, 1).value;
    FactorInUnitInterval(frames, i, c);
    var prev, next, t := Place(ctx, frames[i - 1]), Place(ctx, frames[i]), Factor(frames, i, c);
    LerpBetween(prev.x, next.x, t);
    LerpBetween(prev.y, next.y, t);
    LerpBetween(prev.z, next.z, t);
  }

  predicate Between(a: real, b: real, v: real) {
    (a <= v <= b) || (b <= v <= a)
  }

  /** A single keyframe sampled at its own date: arm.c reads the keyframe
      after it, past the end of the buffer, while the corrected sampling
      holds the keyframe. */
  lemma SingleKeyframeAtItsDate(ctx: Context, f: Keyframe)
    ensures SampleAsWritten(ctx, [f], f.date) == Err(OutOfBounds(1))
    ensures Sample(ctx, [f], f.date) == Ok(Place(ctx, f))
  {
  }

  /** Two arm-frame keyframes, x = 0 at date 0 and x = 100 at date 1000: at
      date 0 arm.c commands x = 100, the later keyframe, instead of x = 0. */
  lemma AsWrittenStartsAtWrongKeyframe(ctx: Context)
    ensures var frames := [Keyframe(0.0, 0.0, 0.0, ArmFrame, 0), Keyframe(100.0, 0.0, 0.0, ArmFrame, 1000)];
      && SampleAsWritten(ctx, frames, 0) == Ok(Position(100.0, 0.0, 0.0))
      && Place(ctx, frames[0]) == Position(0.0, 0.0, 0.0)
      && Sample(ctx, frames, 0) == Ok(Position(0.0, 0.0, 0.0))
  {
    var frames := [Keyframe(0.0, 0.0, 0.0, ArmFrame, 0), Keyframe(100.0, 0.0, 0.0, ArmFrame, 1000)];
    assert Scan(frames, 0, 1) == Some(1);
    assert Factor(frames, 1, 0) == 0.0;
    assert Place(ctx, frames[1]) == Position(100.0, 0.0, 0.0);
  }

  /** The blend as written agrees with the intended one only half-way
      between the keyframes, or when the keyframes share their x and y: the
      reversal is invisible at the midpoint and nowhere else. */
  lemma BlendAsWrittenAgreesOnlyAtMidpoint(prev: Position, next: Position, t: real)
    ensures BlendAsWritten(prev, next, t) == Blend(prev, next, t)
      <==> t == 0.5 || (prev.x == next.x && prev.y == next.y)
  {
    ReversedLerpGap(prev.x, next.x, t);
    ReversedLerpGap(prev.y, next.y, t);
  }

  /** Swapping the ends of an interpolation moves it by (2t - 1)(a - b). */
  lemma ReversedLerpGap(a: real, b: real, t: real)
    ensures Lerp(b, a, t) - Lerp(a, b, t) == (2.0 * t - 1.0) * (a - b)
    ensures Lerp(b, a, t) == Lerp(a, b, t) <==> t == 0.5 || a == b
  {
    assert Lerp(b, a, t) - Lerp(a, b, t) == (2.0 * t - 1.0) * (a - b);
    if t != 0.5 && a != b {
      NonzeroProduct(2.0 * t - 1.0, a - b);
    }
  }

  lemma NonzeroProduct(x: real, y: real)
    requires x != 0.0 && y != 0.0
    ensures x * y != 0.0
  {
  }

  /** Two arm-frame keyframes, x = 0 at date 0 and x = 100 at date 1000,
      sampled half-way at date 500: arm.c commands x = 50. Date 500 is the one
      date at which the blend as written and the intended blend agree
      (BlendAsWrittenAgreesOnlyAtMidpoint), so this example cannot expose the
      reversal of x and y. */
  lemma MidpointAsWritten(ctx: Context)
    ensures var frames := [Keyframe(0.0, 0.0, 0.0, ArmFrame, 0), Keyframe(100.0, 0.0, 0.0, ArmFrame, 1000)];
      SampleAsWritten(ctx, frames, 500) == Ok(Position(50.0, 0.0, 0.0))
  {
    var frames := [Keyframe(0.0, 0.0, 0.0, ArmFrame, 0), Keyframe(100.0, 0.0, 0.0, ArmFrame, 1000)];
    assert Scan(frames, 500, 1) == Some(1);
    assert Factor(frames, 1, 500) == 0.5;
    assert Place(ctx, frames[0]) == Position(0.0, 0.0, 0.0);
    assert Place(ctx, frames[1]) == Position(100.0, 0.0, 0.0);
  }

  /** The same half-way sample with the intended blend: x = 50 too. */
  lemma Midpoint(ctx: Context)
    ensures var frames := [Keyframe(0.0, 0.0, 0.0, ArmFrame, 0), Keyframe(100.0, 0.0, 0.0, ArmFrame, 1000)];
      Sample(ctx, frames, 500) == Ok(Position(50.0, 0.0, 0.0))
  {
    var frames := [Keyframe(0.0, 0.0, 0.0, ArmFrame, 0), Keyframe(100.0, 0.0, 0.0, ArmFrame, 1000)];
    assert Scan(frames, 500, 1) == Some(1);
    assert Factor(frames, 1, 500) == 0.5;
    assert Place(ctx, frames[0]) == Position(0.0, 0.0, 0.0);
    assert Place(ctx, frames[1]) == Position(100.0, 0.0, 0.0);
  }
}
