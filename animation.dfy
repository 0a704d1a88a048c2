/** The animation tick of the canyon fly-through: a cyclic clock maps the wall
    clock to two normalised curve parameters, and each tick moves the camera
    and the target ball along their closed paths and aims the camera at the
    target. Times are reals; the two paths are given as functions. */
module Animation {

  /** A point in world space (`THREE.Vector3`). */
  datatype Point3 = Point3(x: real, y: real, z: real)

  /** The origin, where three.js places a new object. */
  const Origin := Point3(0.0, 0.0, 0.0)

  /** Defaults of the `parameters` record. */
  const DefaultLoopDuration: real := 240000.0
  const DefaultTargetOffset: real := 0.06

  /** The ranges the GUI sliders allow for the two clock parameters. */
  const MinLoopDuration: real := 10000.0
  const MaxLoopDuration: real := 480000.0
  const MinTargetOffset: real := 0.0
  const MaxTargetOffset: real := 0.1

  function Abs(x: real): real {
    if x < 0.0 then -x else x
  }

  /** `y` is a whole number. */
  predicate IsIntegral(y: real) {
    y.Floor as real == y
  }

  /** Rounds toward zero. */
  function Trunc(y: real): (n: int)
    ensures 0.0 <= y ==> n as real <= y < n as real + 1.0
    ensures y <= 0.0 ==> n as real - 1.0 < y <= n as real
  {
    if y >= 0.0 then y.Floor else -((-y).Floor)
  }

  /** Multiplying by a non-zero `d` and dividing by it cancel. */
  lemma MulDiv(a: real, d: real)
    requires d != 0.0
    ensures (a * d) / d == a && (d * a) / d == a && (a / d) * d == a
  {
  }

  /** Division distributes over addition. */
  lemma DivAdd(a: real, b: real, d: real)
    requires d != 0.0
    ensures (a + b) / d == a / d + b / d
  {
  }

  /** Multiplication distributes over subtraction. */
  lemma Distrib(d: real, a: real, b: real)
    ensures d * a - d * b == d * (a - b)
  {
  }

  /** The sign of a quotient is the product of the operands' signs. */
  lemma QuotientSign(x: real, d: real)
    requires d != 0.0
    ensures 0.0 <= x && 0.0 < d ==> 0.0 <= x / d
    ensures 0.0 <= x && d < 0.0 ==> x / d <= 0.0
    ensures x <= 0.0 && 0.0 < d ==> x / d <= 0.0
    ensures x <= 0.0 && d < 0.0 ==> 0.0 <= x / d
  {
    MulDiv(x / d, d);
  }

  /** A proper fraction of `d` is smaller than `d` in magnitude and has the
      sign of the product. */
  lemma ScaledFraction(f: real, d: real)
    requires -1.0 < f < 1.0 && d != 0.0
    ensures Abs(d * f) < Abs(d)
    ensures 0.0 <= f && 0.0 < d ==> 0.0 <= d * f
    ensures 0.0 <= f && d < 0.0 ==> d * f <= 0.0
    ensures f <= 0.0 && 0.0 < d ==> d * f <= 0.0
    ensures f <= 0.0 && d < 0.0 ==> 0.0 <= d * f
  {
    if 0.0 <= f {
      if 0.0 < d { assert d * f <= d * 1.0; } else { assert d * f >= d * 1.0; }
    } else {
      if 0.0 < d { assert d * f >= d * -1.0; } else { assert d * f <= d * -1.0; }
    }
  }

  /** The remainder left by the truncated quotient has the sign of `x` and is
      smaller than `d` in magnitude. */
  lemma TruncRemainderBounds(x: real, d: real)
    requires d != 0.0
    ensures var r := x - d * (Trunc(x / d) as real);
      (0.0 <= x ==> 0.0 <= r) && (x <= 0.0 ==> r <= 0.0) && Abs(r) < Abs(d)
  {
    var q := x / d;
    var n := Trunc(q) as real;
    MulDiv(q, d);
    Distrib(d, q, n);
    QuotientSign(x, d);
    ScaledFraction(q - n, d);
  }

  /** What the truncated quotient leaves over differs from `x` by a whole
      multiple of `d`. */
  lemma TruncRemainderMultiple(x: real, d: real)
    requires d != 0.0
    ensures IsIntegral((x - (x - d * (Trunc(x / d) as real))) / d)
  {
    var k := Trunc(x / d);
    var n := k as real;
    MulDiv(n, d);
    assert n.Floor == k;
    assert (x - (x - d * n)) / d == n;
    assert (x - (x - d * (Trunc(x / d) as real))) / d == n;
  }

  /** JavaScript's `x % d` on numbers (the Number remainder operation of
      ECMA-262): the remainder left by the quotient truncated toward zero. It
      has the sign of `x`, is smaller than `d` in magnitude, and `x` minus it
      is a whole multiple of `d`. `d == 0` gives NaN and is excluded. */
  function JsRem(x: real, d: real): (r: real)
    requires d != 0.0
    ensures 0.0 <= x ==> 0.0 <= r
    ensures x <= 0.0 ==> r <= 0.0
    ensures Abs(r) < Abs(d)
    ensures IsIntegral((x - r) / d)
  {
    TruncRemainderBounds(x, d);
    TruncRemainderMultiple(x, d);
    x - d * (Trunc(x / d) as real)
  }

  /** For a non-negative dividend and a positive divisor the remainder,
      divided by the divisor, is the fractional part of the quotient. */
  lemma RemIsFraction(x: real, d: real)
    requires 0.0 <= x && 0.0 < d
    ensures JsRem(x, d) / d == x / d - (x / d).Floor as real
  {
    var q := x / d;
    var n := q.Floor as real;
    MulDiv(q, d);
    Distrib(d, q, n);
    MulDiv(q - n, d);
  }

  /** A part of a positive whole, divided by the whole, is in [0, 1). */
  lemma ProperFraction(r: real, d: real)
    requires d != 0.0
    ensures 0.0 <= r < d ==> 0.0 <= r / d < 1.0
  {
    MulDiv(r / d, d);
  }

  /** `cameraTime`: the fraction of the current loop that has elapsed. */
  function CameraTime(time: real, loopDuration: real): (c: real)
    requires loopDuration != 0.0
    ensures 0.0 <= time && 0.0 < loopDuration ==> 0.0 <= c < 1.0
  {
    var r := JsRem(time, loopDuration);
    ProperFraction(r, loopDuration);
    r / loopDuration
  }

  /** `targetTime`: the camera's fraction advanced by the (normalised) target
      offset, wrapped back into the unit interval. */
  function TargetTime(cameraTime: real, targetOffset: real): (t: real)
    ensures 0.0 <= cameraTime + targetOffset ==> 0.0 <= t < 1.0
  {
    JsRem(cameraTime + targetOffset, 1.0)
  }

  /** Shifting by a whole number shifts the floor by the same amount. */
  lemma FloorShift(y: real, k: int)
    ensures (y + k as real).Floor == y.Floor + k
  {
  }

  /** The camera parameter repeats every loop. */
  lemma CameraTimePeriodic(time: real, loopDuration: real)
    requires 0.0 <= time && 0.0 < loopDuration
    ensures CameraTime(time + loopDuration, loopDuration) == CameraTime(time, loopDuration)
  {
    var d := loopDuration;
    RemIsFraction(time, d);
    RemIsFraction(time + d, d);
    DivAdd(time, d, d);
    MulDiv(1.0, d);
    FloorShift(time / d, 1);
  }

  /** The target parameter is the shifted camera parameter, minus one exactly
      when the shift carries it past the end of the loop. */
  lemma TargetTimeWraps(cameraTime: real, targetOffset: real)
    requires 0.0 <= cameraTime < 1.0 && 0.0 <= targetOffset < 1.0
    ensures var s := cameraTime + targetOffset;
      TargetTime(cameraTime, targetOffset) == if s >= 1.0 then s - 1.0 else s
  {
    var s := cameraTime + targetOffset;
    RemIsFraction(s, 1.0);
    assert s >= 1.0 ==> s.Floor == 1;
    assert s < 1.0 ==> s.Floor == 0;
  }

  /** With no offset the target runs level with the camera. */
  lemma NoOffsetMeansLevel(cameraTime: real)
    requires 0.0 <= cameraTime < 1.0
    ensures TargetTime(cameraTime, 0.0) == cameraTime
  {
    TargetTimeWraps(cameraTime, 0.0);
  }

  /** A normalised offset `o` is a phase shift of `o` loops: the target
      parameter is the camera parameter of the time `o · loopDuration` later.
      This ties the offset of the code, a fraction of the loop, to an offset
      in time units. */
  lemma NormalisedOffsetIsTimeShift(time: real, loopDuration: real, targetOffset: real)
    requires 0.0 <= time && 0.0 < loopDuration && 0.0 <= targetOffset
    ensures TargetTime(CameraTime(time, loopDuration), targetOffset)
         == CameraTime(time + targetOffset * loopDuration, loopDuration)
  {
    var d := loopDuration;
    var q := time / d;
    RemIsFraction(time, d);
    var s := CameraTime(time, d) + targetOffset;
    RemIsFraction(s, 1.0);
    RemIsFraction(time + targetOffset * d, d);
    DivAdd(time, targetOffset * d, d);
    MulDiv(targetOffset, d);
    FloorShift(s, q.Floor);
  }

  /** A 1000-unit loop at time 900 with a quarter-loop offset: the camera
      is at 0.9 and the target at 0.15 of their paths. */
  lemma QuarterOffsetScenario()
    ensures CameraTime(900.0, 1000.0) == 0.9
    ensures TargetTime(CameraTime(900.0, 1000.0), 0.25) == 0.15
  {
    RemIsFraction(900.0, 1000.0);
    assert (900.0 / 1000.0).Floor == 0;
    TargetTimeWraps(0.9, 0.25);
  }

  /** Both clock parameters are in the GUI's ranges. */
  predicate InGuiRange(loopDuration: real, targetOffset: real) {
    MinLoopDuration <= loopDuration <= MaxLoopDuration &&
    MinTargetOffset <= targetOffset <= MaxTargetOffset
  }

  /** Within the GUI's ranges, at any time since the epoch, both parameters
      handed to the curves lie in [0, 1). */
  lemma ParametersInUnitInterval(time: real, loopDuration: real, targetOffset: real)
    requires 0.0 <= time && InGuiRange(loopDuration, targetOffset)
    ensures 0.0 <= CameraTime(time, loopDuration) < 1.0
    ensures 0.0 <= TargetTime(CameraTime(time, loopDuration), targetOffset) < 1.0
  {
  }

  /** The live-tunable `parameters` record. */
  class Parameters {
    var loopDuration: real
    var targetOffset: real
    var debugSplines: bool

    constructor ()
      ensures loopDuration == DefaultLoopDuration
      ensures targetOffset == DefaultTargetOffset
      ensures debugSplines
      ensures InGuiRange(loopDuration, targetOffset)
    {
      loopDuration := DefaultLoopDuration;
      targetOffset := DefaultTargetOffset;
      debugSplines := true;
    }
  }

  /** Where the camera faces: three.js's initial orientation, or towards a
      point after `lookAt`. */
  datatype Orientation = Initial | Towards(target: Point3)

  /** What one tick writes: the camera position, the target ball's position
      and the camera orientation. */
  datatype RigState = RigState(camera: Point3, ball: Point3, facing: Orientation)

  /** The state a tick at `time` produces: the camera at its path's point for
      the camera parameter, the ball at the target path's point for the target
      parameter, the camera facing the ball. */
  function TickState(time: real, loopDuration: real, targetOffset: real,
                     cameraPath: real -> Point3, targetPath: real -> Point3): (s: RigState)
    requires loopDuration != 0.0
    ensures s.facing == Towards(s.ball)
  {
    var cameraTime := CameraTime(time, loopDuration);
    var targetTime := TargetTime(cameraTime, targetOffset);
    RigState(cameraPath(cameraTime), targetPath(targetTime), Towards(targetPath(targetTime)))
  }

  /** The animation repeats: ticks one loop apart produce the same state. */
  lemma TickStatePeriodic(time: real, loopDuration: real, targetOffset: real,
                          cameraPath: real -> Point3, targetPath: real -> Point3)
    requires 0.0 <= time && 0.0 < loopDuration
    ensures TickState(time + loopDuration, loopDuration, targetOffset, cameraPath, targetPath)
         == TickState(time, loopDuration, targetOffset, cameraPath, targetPath)
  {
    CameraTimePeriodic(time, loopDuration);
  }

  /** The part of the scene `animate()` updates: the camera, the target ball,
      and the two closed paths' `getPointAt`. */
  class CameraRig {
    const cameraPath: real -> Point3
    const targetPath: real -> Point3
    var camera: Point3
    var ball: Point3
    var facing: Orientation

    /** The state the tick writes. */
    function State(): RigState
      reads this
    {
      RigState(camera, ball, facing)
    }

    constructor (cameraPath: real -> Point3, targetPath: real -> Point3)
      ensures this.cameraPath == cameraPath && this.targetPath == targetPath
      ensures State() == RigState(Origin, Origin, Initial)
    {
      this.cameraPath := cameraPath;
      this.targetPath := targetPath;
      camera := Origin;
      ball := Origin;
      facing := Initial;
    }

    /** One animation frame at wall-clock `time`, reading the parameters as
        they stand (the GUI may have changed them since the last frame). */
    method Tick(time: real, params: Parameters)
      requires params.loopDuration != 0.0
      modifies this
      ensures State() == TickState(time, params.loopDuration, params.targetOffset,
                                   cameraPath, targetPath)
    {
      var cameraTime := CameraTime(time, params.loopDuration);
      var targetTime := TargetTime(cameraTime, params.targetOffset);
      var cameraPos := cameraPath(cameraTime);
      camera := cameraPos;
      var targetPos := targetPath(targetTime);
      ball := targetPos;
      facing := Towards(targetPos);
    }
  }
}
