/** A 2D follow camera: it keeps its target inside a deadzone box, optionally
    snaps its position to a virtual pixel grid, and tweens its rotation between
    a fixed "world" orientation and the target's yaw.

    The camera's own transform is kept in the controller (`position`,
    `rotation`) and is taken to be unrotated and of unit scale when local and
    world offsets are converted. The deadzone corners, which the engine
    derives from the camera frustum, arrive as a parameter: `None` when no
    Camera component is attached. */
module Camera2D {
  import opened Engine

  /** Which orientation the camera turns towards. */
  datatype RotationTarget = World | Target

  /** The guard against dividing by a zero tween time. */
  const MinTweenTime: real := 0.000001

  /** A tween ratio at or above this counts as finished. */
  const FinishedRatio: real := 0.99999

  /** The least pixels-per-unit the camera uses. */
  const MinPixelsPerUnit: real := 0.000001

  function MinReal(a: real, b: real): real { if a <= b then a else b }

  function MaxReal(a: real, b: real): real { if a >= b then a else b }

  function Abs(a: real): real { if a < 0.0 then -a else a }

  lemma MulDivCancel(a: real, b: real)
    requires b > 0.0
    ensures b * (a / b) == a && (b * a) / b == a
  {
  }

  lemma ScaleBetween(k: real, d: real, lo: real, hi: real)
    requires k > 0.0 && lo <= d <= hi
    ensures k * lo <= k * d <= k * hi
  {
    MulNonNegative(k, d - lo);
    MulNonNegative(k, hi - d);
    assert k * (d - lo) == k * d - k * lo;
    assert k * (hi - d) == k * hi - k * d;
  }

  lemma MulNonNegative(a: real, b: real)
    requires a >= 0.0 && b >= 0.0
    ensures a * b >= 0.0
  {
  }

  lemma DivBelow(a: real, b: real, c: real)
    requires b > 0.0 && a < c * b
    ensures a / b < c
  {
    MulDivCancel(a, b);
    if a / b >= c {
      ScaleBetween(b, c, c, a / b);
    }
  }

  lemma DivAtLeast(a: real, b: real, c: real)
    requires b > 0.0 && a >= c * b
    ensures a / b >= c
  {
    MulDivCancel(a, b);
  }

  function Minus(a: Vec3, b: Vec3): Vec3
  {
    Vec3(a.x - b.x, a.y - b.y, a.z - b.z)
  }

  // ----- Deadzone ---------------------------------------------------------

  /** The engine's clamp of `value` into `[lo, hi]`. */
  function Clamp(value: real, lo: real, hi: real): (r: real)
    ensures lo <= hi ==> lo <= r <= hi
    ensures lo <= value <= hi ==> r == value
    ensures value < lo ==> r == lo
    ensures lo <= hi && hi < value ==> r == hi
  {
    if value < lo then lo else if value > hi then hi else value
  }

  /** The clamp of one offset coordinate between two deadzone corners given
      in either order: the result lies between them, is the offset itself when
      that already does, and is the nearer corner otherwise. */
  function ClampBetween(value: real, a: real, b: real): (r: real)
    ensures MinReal(a, b) <= r <= MaxReal(a, b)
    ensures MinReal(a, b) <= value <= MaxReal(a, b) ==> r == value
    ensures value < MinReal(a, b) ==> r == MinReal(a, b)
    ensures value > MaxReal(a, b) ==> r == MaxReal(a, b)
  {
    if a < b then Clamp(value, a, b) else Clamp(value, b, a)
  }

  /** The target's offset from the camera lies inside the box spanned, in x
      and y, by two opposite deadzone corners. */
  predicate InDeadzone(offset: Vec3, c0: Vec3, c2: Vec3)
  {
    MinReal(c0.x, c2.x) <= offset.x <= MaxReal(c0.x, c2.x) &&
    MinReal(c0.y, c2.y) <= offset.y <= MaxReal(c0.y, c2.y)
  }

  /** Where the camera moves to follow a target at `targetPos`, before pixel
      snapping. With four deadzone corners it keeps the target inside the
      deadzone and on each axis either stays put or moves just far enough to
      put the target on the deadzone's edge; with fewer it centres the
      target. Its height is always `height`. */
  function Followed(camera: Vec3, targetPos: Vec3, corners: seq<Vec3>, height: real): (p: Vec3)
    ensures p.z == height
    ensures |corners| < 4 ==> p.x == targetPos.x && p.y == targetPos.y
    ensures |corners| >= 4 ==> InDeadzone(Minus(targetPos, p), corners[0], corners[2])
    ensures |corners| >= 4 && InDeadzone(Minus(targetPos, camera), corners[0], corners[2]) ==>
              p.x == camera.x && p.y == camera.y
    ensures |corners| >= 4 ==>
              var off := Minus(targetPos, camera);
              var c0, c2 := corners[0], corners[2];
              (off.x < MinReal(c0.x, c2.x) ==> targetPos.x - p.x == MinReal(c0.x, c2.x)) &&
              (off.x > MaxReal(c0.x, c2.x) ==> targetPos.x - p.x == MaxReal(c0.x, c2.x)) &&
              (MinReal(c0.x, c2.x) <= off.x <= MaxReal(c0.x, c2.x) ==> p.x == camera.x) &&
              (off.y < MinReal(c0.y, c2.y) ==> targetPos.y - p.y == MinReal(c0.y, c2.y)) &&
              (off.y > MaxReal(c0.y, c2.y) ==> targetPos.y - p.y == MaxReal(c0.y, c2.y)) &&
              (MinReal(c0.y, c2.y) <= off.y <= MaxReal(c0.y, c2.y) ==> p.y == camera.y)
  {
    if |corners| >= 4 then
      var offset := Minus(targetPos, camera);
      var clamped := Vec3(ClampBetween(offset.x, corners[0].x, corners[2].x),
                          ClampBetween(offset.y, corners[0].y, corners[2].y),
                          offset.z);
      Minus(targetPos, clamped).(z := height)
    else
      targetPos.(z := height)
  }

  // ----- Pixel snapping ---------------------------------------------------

  /** Rounding to the nearest integer with halves going to the even one, the
      default of the runtime's `Math.Round`. */
  function RoundHalfEven(x: real): (n: int)
    ensures -0.5 <= n as real - x <= 0.5
    ensures (n as real - x == 0.5 || n as real - x == -0.5) ==> n % 2 == 0
  {
    var f := x.Floor;
    var frac := x - f as real;
    if frac < 0.5 then f
    else if frac > 0.5 then f + 1
    else if f % 2 == 0 then f
    else f + 1
  }

  /** One coordinate moved to the nearest point of a grid of spacing `stride`. */
  function Snap(v: real, stride: real): real
    requires stride > 0.0
  {
    stride * RoundHalfEven(v / stride) as real
  }

  /** A grid point within half a step of `v / stride` steps is within half
      a stride of `v`. */
  lemma NearGridPoint(v: real, stride: real, n: real)
    requires stride > 0.0 && -0.5 <= n - v / stride <= 0.5
    ensures -stride / 2.0 <= stride * n - v <= stride / 2.0
  {
    var q := v / stride;
    var d := n - q;
    MulDivCancel(v, stride);
    assert stride * d == stride * n - stride * q;
    MulNonNegative(stride, d + 0.5);
    MulNonNegative(stride, 0.5 - d);
    assert stride * (d + 0.5) == stride * d + stride / 2.0;
    assert stride * (0.5 - d) == stride / 2.0 - stride * d;
  }

  /** Snapping moves a coordinate by at most half a grid step. */
  lemma SnapWithinHalfStride(v: real, stride: real)
    requires stride > 0.0
    ensures -stride / 2.0 <= Snap(v, stride) - v <= stride / 2.0
  {
    NearGridPoint(v, stride, RoundHalfEven(v / stride) as real);
  }

  /** A coordinate already on the grid stays where it is. */
  lemma SnapIdempotent(v: real, stride: real)
    requires stride > 0.0
    ensures Snap(Snap(v, stride), stride) == Snap(v, stride)
  {
    var n := RoundHalfEven(v / stride);
    var snapped := stride * n as real;
    assert Snap(v, stride) == snapped;
    MulDivCancel(n as real, stride);
    assert snapped / stride == n as real;
    assert (n as real).Floor == n;
    assert RoundHalfEven(n as real) == n;
    assert Snap(snapped, stride) == stride * RoundHalfEven(snapped / stride) as real;
  }

  /** Axis `i` of a vector: 0 is x, 1 is y, 2 is z. */
  function Axis(v: Vec3, i: nat): real
    requires i < 3
  {
    if i == 0 then v.x else if i == 1 then v.y else v.z
  }

  /** The vector with axis `i` replaced by `value`. */
  function WithAxis(v: Vec3, i: nat, value: real): (r: Vec3)
    requires i < 3
    ensures Axis(r, i) == value
    ensures forall j :: 0 <= j < 3 && j != i ==> Axis(r, j) == Axis(v, j)
  {
    if i == 0 then v.(x := value) else if i == 1 then v.(y := value) else v.(z := value)
  }

  /** A position with x and y snapped to the pixel grid and z kept. */
  function SnappedXY(p: Vec3, stride: real): (r: Vec3)
    requires stride > 0.0
    ensures r.z == p.z
    ensures -stride / 2.0 <= r.x - p.x <= stride / 2.0
    ensures -stride / 2.0 <= r.y - p.y <= stride / 2.0
  {
    SnapWithinHalfStride(p.x, stride);
    SnapWithinHalfStride(p.y, stride);
    Vec3(Snap(p.x, stride), Snap(p.y, stride), p.z)
  }

  /** The orthographic size that shows `screenHeight * viewportHeight` pixels
      at `pixelsPerUnit`: the view's full height, twice the size, covers
      exactly that many pixels. */
  function OrthographicSize(screenHeight: real, viewportHeight: real, pixelsPerUnit: real): (s: real)
    requires pixelsPerUnit > 0.0
    ensures 2.0 * s * pixelsPerUnit == screenHeight * viewportHeight
  {
    (screenHeight * viewportHeight) / (2.0 * pixelsPerUnit)
  }

  // ----- Rotation tween ---------------------------------------------------

  /** The tween timer after one frame of `deltaTime` spent tweening towards
      the same orientation: it counts up and stops at the tween time. */
  function TimerStep(timer: real, tweenTime: real, deltaTime: real): (t: real)
    ensures t <= tweenTime
    ensures 0.0 <= timer <= tweenTime && deltaTime >= 0.0 ==> timer <= t
  {
    MinReal(tweenTime, timer + deltaTime)
  }

  /** How far into the tween the timer is, in `[0, 1]` for a timer within
      `[0, tweenTime]`; ratios close enough to 1 become exactly 1, and the
      ratio is 0 exactly when the timer is. */
  function TweenRatio(timer: real, tweenTime: real): (r: real)
    ensures 0.0 <= r
    ensures r == 1.0 || r < FinishedRatio
    ensures r == 0.0 <==> timer == 0.0
  {
    var raw := Abs(timer / MaxReal(tweenTime, MinTweenTime));
    if raw >= FinishedRatio then 1.0 else raw
  }

  /** The rotation shown at a tween ratio: the origin at 0, the goal at 1,
      their spherical interpolation in between. */
  function Tweened(origin: Rotation, goal: Rotation, ratio: real): Rotation
  {
    if ratio == 0.0 then origin
    else if ratio == 1.0 then goal
    else Slerp(origin, goal, ratio)
  }

  /** For a tween time of at least MinTweenTime and a timer within it, the
      tween starts at the origin, arrives exactly at the goal once the timer
      reaches the tween time, and shows the interpolation at the elapsed
      fraction until it is nearly there. */
  lemma TweenEndpoints(origin: Rotation, goal: Rotation, timer: real, tweenTime: real)
    requires tweenTime >= MinTweenTime && 0.0 <= timer <= tweenTime
    ensures timer == 0.0 ==> Tweened(origin, goal, TweenRatio(timer, tweenTime)) == origin
    ensures timer == tweenTime ==> Tweened(origin, goal, TweenRatio(timer, tweenTime)) == goal
    ensures 0.0 < timer < FinishedRatio * tweenTime ==>
              Tweened(origin, goal, TweenRatio(timer, tweenTime)) == Slerp(origin, goal, timer / tweenTime)
  {
    assert MaxReal(tweenTime, MinTweenTime) == tweenTime;
    if timer == tweenTime {
      MulDivCancel(1.0, tweenTime);
    }
    if 0.0 < timer < FinishedRatio * tweenTime {
      DivBelow(timer, tweenTime, FinishedRatio);
    }
  }

  /** Which tween times ever reach the goal: once the timer has reached a
      tween time of at least FinishedRatio * MinTweenTime the ratio is exactly
      1; for a shorter tween time (0 included) the ratio stays below
      FinishedRatio at every timer value, so the goal is never shown. */
  lemma GoalReachedOnlyAboveMinimum(timer: real, tweenTime: real)
    requires 0.0 <= timer <= tweenTime
    ensures tweenTime >= FinishedRatio * MinTweenTime ==> TweenRatio(tweenTime, tweenTime) == 1.0
    ensures tweenTime < FinishedRatio * MinTweenTime ==> TweenRatio(timer, tweenTime) < FinishedRatio
  {
    if tweenTime >= MinTweenTime {
      MulDivCancel(1.0, tweenTime);
    } else if tweenTime >= FinishedRatio * MinTweenTime {
      DivAtLeast(tweenTime, MinTweenTime, FinishedRatio);
    } else {
      DivBelow(timer, MinTweenTime, FinishedRatio);
    }
  }

  /** The total duration of a run of frames. */
  function Sum(frames: seq<real>): real
  {
    if frames == [] then 0.0 else frames[0] + Sum(frames[1..])
  }

  predicate NonNegative(frames: seq<real>)
  {
    forall i :: 0 <= i < |frames| ==> frames[i] >= 0.0
  }

  /** The tween timer after a run of frames with no change of orientation. */
  function TimerAfter(timer: real, tweenTime: real, frames: seq<real>): real
    decreases |frames|
  {
    if frames == [] then timer
    else TimerAfter(TimerStep(timer, tweenTime, frames[0]), tweenTime, frames[1..])
  }

  /** With non-negative frame times the timer never leaves `[timer, tweenTime]`. */
  lemma {:induction false} TimerStaysInRange(timer: real, tweenTime: real, frames: seq<real>)
    requires 0.0 <= timer <= tweenTime && NonNegative(frames)
    ensures timer <= TimerAfter(timer, tweenTime, frames) <= tweenTime
    decreases |frames|
  {
    if frames != [] {
      assert NonNegative(frames[1..]) by {
        forall i | 0 <= i < |frames[1..]| ensures frames[1..][i] >= 0.0 {
          assert frames[1..][i] == frames[i + 1];
        }
      }
      TimerStaysInRange(TimerStep(timer, tweenTime, frames[0]), tweenTime, frames[1..]);
    }
  }

  /** Once the frames add up to the time still to go, the timer has reached
      the tween time (and, by TweenEndpoints, the camera shows the goal). */
  lemma {:induction false} TweenCompletes(timer: real, tweenTime: real, frames: seq<real>)
    requires 0.0 <= timer <= tweenTime && NonNegative(frames)
    requires timer + Sum(frames) >= tweenTime
    ensures TimerAfter(timer, tweenTime, frames) == tweenTime
    decreases |frames|
  {
    if frames != [] {
      var rest := frames[1..];
      assert NonNegative(rest) by {
        forall i | 0 <= i < |rest| ensures rest[i] >= 0.0 {
          assert rest[i] == frames[i + 1];
        }
      }
      var next := TimerStep(timer, tweenTime, frames[0]);
      if next == tweenTime {
        TimerStaysInRange(next, tweenTime, rest);
      } else {
        TweenCompletes(next, tweenTime, rest);
      }
    }
  }

  /** A zero tween time never lets the camera leave the tween origin: the
      timer is held at 0, so the ratio stays 0 however many frames pass. */
  lemma ZeroTweenTimeHoldsOrigin(origin: Rotation, goal: Rotation, frames: seq<real>)
    requires NonNegative(frames)
    ensures TimerAfter(0.0, 0.0, frames) == 0.0
    ensures Tweened(origin, goal, TweenRatio(TimerAfter(0.0, 0.0, frames), 0.0)) == origin
  {
    TimerStaysInRange(0.0, 0.0, frames);
  }

  /** The rotation state one RotationUpdate leaves behind. */
  datatype TweenState = TweenState(
    mode: RotationTarget,
    origin: Rotation,
    goal: Rotation,
    timer: real,
    rotation: Rotation)

  // ----- The controller ---------------------------------------------------

  class Camera2DController {
    const scene: Scene
    var target: Option<int>
    var targetOther: Option<int>
    var defaultRotation: Rotation
    var cameraHeight: real
    var tweenTime: real
    var pixelsPerUnit: real
    var pixelScale: real
    var autosetOrthographicSize: bool
    var pixelPerfectPosition: bool
    var rotateWithTarget: bool

    var rotationTarget: RotationTarget
    var tweenOrigin: Rotation
    var tweenTarget: Rotation
    var tweenTimer: real

    /** The camera's transform and its Camera component's orthographic size. */
    var position: Vec3
    var rotation: Rotation
    var orthographicSize: real

    /** A controller with the inspector defaults, on a camera placed at
        `position` with `rotation`. */
    constructor (scene: Scene, position: Vec3, rotation: Rotation, orthographicSize: real)
      ensures this.scene == scene && target.None? && targetOther.None?
      ensures defaultRotation == IdentityRotation && cameraHeight == -10.0
      ensures tweenTime == 0.3 && pixelsPerUnit == 64.0 && pixelScale == 1.0
      ensures autosetOrthographicSize && !pixelPerfectPosition && rotateWithTarget
      ensures rotationTarget == World && tweenOrigin == IdentityRotation
      ensures tweenTarget == IdentityRotation && tweenTimer == 0.0
      ensures this.position == position && this.rotation == rotation
      ensures this.orthographicSize == orthographicSize
    {
      this.scene := scene;
      target := None;
      targetOther := None;
      defaultRotation := IdentityRotation;
      cameraHeight := -10.0;
      tweenTime := 0.3;
      pixelsPerUnit := 64.0;
      pixelScale := 1.0;
      autosetOrthographicSize := true;
      pixelPerfectPosition := false;
      rotateWithTarget := true;
      rotationTarget := World;
      tweenOrigin := IdentityRotation;
      tweenTarget := IdentityRotation;
      tweenTimer := 0.0;
      this.position := position;
      this.rotation := rotation;
      this.orthographicSize := orthographicSize;
    }

    /** The engine's truth test on a GameObject reference. */
    predicate Live(o: Option<int>)
      reads scene
    {
      o.Some? && scene.Alive(o.value)
    }

    /** Pixels per world unit, scaled, and never below MinPixelsPerUnit. */
    function PixelsPerUnit(): (ppu: real)
      reads this`pixelsPerUnit, this`pixelScale
      ensures ppu >= MinPixelsPerUnit
      ensures ppu == pixelsPerUnit * pixelScale || ppu == MinPixelsPerUnit
      ensures pixelsPerUnit * pixelScale >= MinPixelsPerUnit ==> ppu == pixelsPerUnit * pixelScale
    {
      if MinPixelsPerUnit > pixelsPerUnit * pixelScale then MinPixelsPerUnit else pixelsPerUnit * pixelScale
    }

    /** The object the camera follows: the hijacking `targetOther` whenever
        it is live, the configured `target` otherwise. There is something to
        follow exactly when either reference is live. */
    function GetCameraTarget(): (t: Option<int>)
      reads this`target, this`targetOther, scene
      ensures Live(t) <==> Live(target) || Live(targetOther)
      ensures Live(targetOther) ==> t == targetOther
      ensures !Live(targetOther) ==> t == target
    {
      if !Live(targetOther) then target else targetOther
    }

    /** The camera turns with its target exactly when `rotateWithTarget` is
        set or a live hijacking object other than `target` is followed. */
    function GetCameraTargetType(): (m: RotationTarget)
      reads this`target, this`targetOther, this`rotateWithTarget, scene
      ensures m == Target <==> rotateWithTarget || (Live(targetOther) && targetOther != target)
    {
      if GetCameraTarget() != target then Target
      else if rotateWithTarget then Target
      else World
    }

    /** The state of the followed object, when it is live. */
    function TargetState(): GameObjectState
      reads this`target, this`targetOther, scene
      requires Live(GetCameraTarget())
    {
      var t := GetCameraTarget().value;
      if t in scene.objects then scene.objects[t] else scene.assets[t]
    }

    /** The position PositionUpdate moves the camera to when it follows a
        live object and has deadzone corners: Followed, then snapped to the
        pixel grid when pixel-perfect positioning is on. */
    function PositionAfter(corners: seq<Vec3>): (p: Vec3)
      reads this`target, this`targetOther, scene, this`position, this`cameraHeight
      reads this`pixelPerfectPosition, this`pixelsPerUnit, this`pixelScale
      requires Live(GetCameraTarget())
      ensures p.z == cameraHeight
      ensures !pixelPerfectPosition ==> p == Followed(position, TargetState().position, corners, cameraHeight)
      ensures pixelPerfectPosition ==>
                var f := Followed(position, TargetState().position, corners, cameraHeight);
                var half := (1.0 / PixelsPerUnit()) / 2.0;
                -half <= p.x - f.x <= half && -half <= p.y - f.y <= half
    {
      var p := Followed(position, TargetState().position, corners, cameraHeight);
      if pixelPerfectPosition then SnappedXY(p, 1.0 / PixelsPerUnit()) else p
    }

    /** The rotation state after one RotationUpdate of `deltaTime` while a
        live object is followed. A change of mode restarts the timer and
        takes as origin the target's yaw (turning to the world) or the
        camera's current rotation (turning with the target); otherwise the
        timer counts on, within `[0, tweenTime]` when it started there. */
    function RotationAfter(deltaTime: real): (s: TweenState)
      reads this`target, this`targetOther, this`rotateWithTarget, scene
      reads this`rotationTarget, this`tweenOrigin, this`tweenTimer, this`tweenTime
      reads this`defaultRotation, this`rotation
      requires Live(GetCameraTarget())
      ensures s.mode == GetCameraTargetType()
      ensures s.mode == rotationTarget ==>
                s.origin == tweenOrigin && s.timer == TimerStep(tweenTimer, tweenTime, deltaTime)
      ensures s.mode != rotationTarget ==> s.timer == 0.0 && s.rotation == s.origin
      ensures s.mode != rotationTarget && s.mode == World ==> s.origin == YawOnly(TargetState().rotation)
      ensures s.mode != rotationTarget && s.mode == Target ==> s.origin == rotation
      ensures s.goal == if s.mode == Target then YawOnly(TargetState().rotation) else defaultRotation
      ensures 0.0 <= tweenTimer <= tweenTime && deltaTime >= 0.0 ==> 0.0 <= s.timer <= tweenTime
      ensures tweenTime >= MinTweenTime && s.timer == tweenTime ==> s.rotation == s.goal
    {
      var mode := GetCameraTargetType();
      var yaw := YawOnly(TargetState().rotation);
      var timer := if mode == rotationTarget then TimerStep(tweenTimer, tweenTime, deltaTime) else 0.0;
      var origin := if mode == rotationTarget then tweenOrigin
                    else if mode == World then yaw
                    else rotation;
      var goal := if mode == Target then yaw else defaultRotation;
      var s := TweenState(mode, origin, goal, timer, Tweened(origin, goal, TweenRatio(timer, tweenTime)));
      if tweenTime >= MinTweenTime && timer == tweenTime then
        TweenEndpoints(origin, goal, timer, tweenTime);
        s
      else
        s
    }

    function Tween(): TweenState
      reads this`rotationTarget, this`tweenOrigin, this`tweenTarget, this`tweenTimer, this`rotation
    {
      TweenState(rotationTarget, tweenOrigin, tweenTarget, tweenTimer, rotation)
    }

    /** Per frame: nothing happens without a live `target`; otherwise the
        camera follows, turns, and, when it has a Camera component and
        autosets it, takes the pixel-perfect orthographic size. */
    method Update(deltaTime: real, corners: Option<seq<Vec3>>, screenHeight: real, viewportHeight: real)
      modifies this`position, this`rotationTarget, this`tweenOrigin, this`tweenTarget
      modifies this`tweenTimer, this`rotation, this`orthographicSize
      ensures !old(Live(target)) ==> unchanged(this)
      ensures old(Live(target)) ==>
                position == (if corners.Some? then old(PositionAfter(corners.value)) else old(position)) &&
                Tween() == old(RotationAfter(deltaTime)) &&
                orthographicSize == (if corners.Some? && autosetOrthographicSize
                                     then OrthographicSize(screenHeight, viewportHeight, PixelsPerUnit())
                                     else old(orthographicSize))
    {
      if !Live(target) {
        return;
      }
      PositionUpdate(corners);
      RotationUpdate(deltaTime);
      if corners.Some? && autosetOrthographicSize {
        orthographicSize := OrthographicSize(screenHeight, viewportHeight, PixelsPerUnit());
      }
    }

    /** Moves the camera after the followed object: PositionAfter when there
        is a live object and deadzone corners, no move otherwise. */
    method PositionUpdate(corners: Option<seq<Vec3>>)
      modifies this`position
      ensures !old(Live(GetCameraTarget())) || corners.None? ==> position == old(position)
      ensures old(Live(GetCameraTarget())) && corners.Some? ==> position == old(PositionAfter(corners.value))
    {
      var currTarget := GetCameraTarget();
      if !Live(currTarget) {
        return;
      }
      if corners.None? {
        return;
      }
      var cs := corners.value;
      var newPosition := TargetState().position;
      if |cs| >= 4 {
        var offset := Minus(newPosition, position);
        offset := offset.(x := ClampBetween(offset.x, cs[0].x, cs[2].x));
        offset := offset.(y := ClampBetween(offset.y, cs[0].y, cs[2].y));
        newPosition := Minus(newPosition, offset);
      }
      newPosition := newPosition.(z := cameraHeight);
      if pixelPerfectPosition {
        var pixelStride := 1.0 / PixelsPerUnit();
        ghost var unsnapped := newPosition;
        for i := 0 to 2
          invariant forall j :: 0 <= j < 3 ==>
                      Axis(newPosition, j) == (if j < i then Snap(Axis(unsnapped, j), pixelStride) else Axis(unsnapped, j))
        {
          newPosition := WithAxis(newPosition, i, Snap(Axis(newPosition, i), pixelStride));
        }
        assert Axis(newPosition, 0) == newPosition.x && Axis(newPosition, 1) == newPosition.y;
        assert Axis(newPosition, 2) == newPosition.z;
      }
      position := newPosition;
    }

    /** Turns the camera: RotationAfter when a live object is followed,
        nothing otherwise. */
    method RotationUpdate(deltaTime: real)
      modifies this`rotationTarget, this`tweenOrigin, this`tweenTarget, this`tweenTimer, this`rotation
      ensures !old(Live(GetCameraTarget())) ==> Tween() == old(Tween())
      ensures old(Live(GetCameraTarget())) ==> Tween() == old(RotationAfter(deltaTime))
    {
      var currTarget := GetCameraTarget();
      if !Live(currTarget) {
        return;
      }
      var currRotationTarget := GetCameraTargetType();
      var yaw := YawOnly(TargetState().rotation);
      if currRotationTarget == rotationTarget {
        tweenTimer := MinReal(tweenTime, tweenTimer + deltaTime);
      } else {
        tweenTimer := 0.0;
        rotationTarget := currRotationTarget;
        if rotationTarget == World {
          tweenOrigin := yaw;
        } else {
          tweenOrigin := rotation;
        }
      }
      if rotationTarget == Target {
        tweenTarget := yaw;
      } else {
        tweenTarget := defaultRotation;
      }
      var tweenRatio := Abs(tweenTimer / MaxReal(tweenTime, MinTweenTime));
      if tweenRatio >= FinishedRatio {
        tweenRatio := 1.0;
      }
      if tweenRatio == 0.0 {
        rotation := tweenOrigin;
      } else if tweenRatio == 1.0 {
        rotation := tweenTarget;
      } else {
        rotation := Slerp(tweenOrigin, tweenTarget, tweenRatio);
      }
    }
  }
}
