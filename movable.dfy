/**
 * `Movable` (`Movable.cc`): a moving thing's rectangle and the rectangle
 * it moves by, the motion update (velocity, the fall counters and the
 * collision flags), copying, and the conversion of a rectangle to screen
 * coordinates.
 */
module Movables {
  import opened CInts
  import opened Rects

  /** A `Point` of doubles. */
  datatype Point = Point(x: real, y: real)

  /** An `SDL_Rect`: a rectangle on the screen. */
  datatype ScreenRect = ScreenRect(x: int, y: int, w: int, h: int)

  /**
   * `convertRect`: the x is taken relative to the camera, round the
   * world; the y is flipped, since the world counts up and the screen down.
   */
  function ConvertRect(r: ScreenRect, camera: Rect): (s: ScreenRect)
    requires camera.worldWidth != 0
    ensures s.w == r.w && s.h == r.h
  {
    r.(x := CRem(r.x - camera.x + camera.worldWidth, camera.worldWidth),
       y := camera.y + camera.h - r.y - r.h)
  }

  /**
   * A conversion puts any x no more than a world width left of the camera
   * on the screen's strip [0, worldWidth), at its offset from the camera
   * round the world; converting twice brings the y back; and an x at most
   * a world width right of the camera keeps its plain offset.
   */
  lemma ConvertRectMeaning(r: ScreenRect, camera: Rect)
    requires camera.worldWidth > 0 && r.x - camera.x + camera.worldWidth >= 0
    ensures var s := ConvertRect(r, camera);
      0 <= s.x < camera.worldWidth && (s.x - (r.x - camera.x)) % camera.worldWidth == 0 &&
      ConvertRect(s, camera).y == r.y &&
      (camera.x <= r.x < camera.x + camera.worldWidth ==> s.x == r.x - camera.x)
  {
    var ww := camera.worldWidth;
    var d := r.x - camera.x + ww;
    var s := CRem(d, ww);
    assert s == d % ww && CDiv(d, ww) == d / ww;
    var k := 1 - d / ww;
    assert s - (r.x - camera.x) == 0 + k * ww;
    ModAddMultiple(0, ww, k);
    if camera.x <= r.x < camera.x + ww {
      ModUnique(d, ww, 1, d - ww);
    }
  }

  /** `advanceRect`: the rectangle moves by the next rectangle's offset and takes its size; the offset is spent. */
  function Advance(rect: Rect, next: Rect): (r: (Rect, Rect))
  {
    (rect.(x := rect.x + next.x, y := rect.y + next.y, w := next.w, h := next.h), next.(x := 0, y := 0))
  }

  /**
   * A second `advanceRect` changes nothing, and `resetRect` followed by
   * `advanceRect` doubles the position, since the reset stores an
   * absolute place where the advance expects an offset.
   */
  lemma AdvanceIdempotent(rect: Rect, next: Rect)
    ensures var (r, n) := Advance(rect, next); Advance(r, n) == (r, n)
    ensures Advance(rect, rect).0 == rect.(x := 2 * rect.x, y := 2 * rect.y)
  {
  }

  /** A velocity between -1 and 1 is not worth moving by. */
  function Damp(v: real): real
  {
    if -1.0 < v && v < 1.0 then 0.0 else v
  }

  /** `ceil`. */
  function Ceil(v: real): int
  {
    -((-v).Floor)
  }

  /** The rounding away from zero that makes the velocity a whole number of pixels. */
  function RoundAway(v: real): int
  {
    if v < 0.0 then Ceil(v.Floor as real) else Ceil(v)
  }

  /** Rounding away from zero goes less than one pixel, away from zero, and keeps whole numbers. */
  lemma RoundAwayMeaning(v: real)
    ensures v >= 0.0 ==> v <= RoundAway(v) as real < v + 1.0
    ensures v < 0.0 ==> v - 1.0 < RoundAway(v) as real <= v
    ensures v == v.Floor as real ==> RoundAway(v) as real == v
  {
    assert Ceil(v.Floor as real) == v.Floor;
  }

  /**
   * One component of the velocity after `updateMotion`, before rounding:
   * the acceleration (and any gravity) added, the drag applied, and small
   * speeds dropped.
   */
  function Damped(v: real, accel: real, pull: real, drag: real): real
  {
    Damp((v + accel + pull) * drag)
  }

  /** The fall counters `updateMotion` keeps. */
  datatype Counters = Counters(ticksCollidingDown: int, timeOffGround: int, pixelsFallen: int, maxHeight: int)

  /**
   * The counters after one `updateMotion` at height `y`: landing records
   * the fall from the highest point and counts ticks on the ground; in the
   * air the time off the ground counts and the highest point is kept. A
   * vertical speed above `minVelocity` (`rising`) lowers the highest point
   * to the current height.
   */
  function CountStep(c: Counters, collidingDown: bool, y: int, rising: bool): (c': Counters)
    ensures collidingDown ==> c'.ticksCollidingDown == c.ticksCollidingDown + 1 && c'.timeOffGround == 0
    ensures !collidingDown ==> c'.ticksCollidingDown == 0 && c'.timeOffGround == c.timeOffGround + 1
    ensures c'.pixelsFallen == if collidingDown then c.maxHeight - y else 0
  {
    var c1 := if collidingDown then Counters(c.ticksCollidingDown + 1, 0, c.maxHeight - y, y)
              else Counters(0, c.timeOffGround + 1, 0, Max(c.maxHeight, y));
    if rising then c1.(maxHeight := Min(c1.maxHeight, y)) else c1
  }

  /** The height the highest point can have after a step: never below the current height unless rising. */
  lemma CountStepHeight(c: Counters, collidingDown: bool, y: int, rising: bool)
    ensures var c' := CountStep(c, collidingDown, y, rising);
      (rising ==> c'.maxHeight <= y) &&
      (!rising && !collidingDown ==> c'.maxHeight >= y && c'.maxHeight >= c.maxHeight) &&
      (!rising && collidingDown ==> c'.maxHeight == y)
  {
  }

  /** One `updateMotion` as far as the counters go. */
  datatype Tick = Tick(collidingDown: bool, y: int, rising: bool)

  /** The counters after a run of updates. */
  function CountSteps(c: Counters, ticks: seq<Tick>): Counters
    decreases |ticks|
  {
    if ticks == [] then c
    else
      var last := ticks[|ticks| - 1];
      CountStep(CountSteps(c, ticks[..|ticks| - 1]), last.collidingDown, last.y, last.rising)
  }

  /** How many updates at the end of the run share the last one's collision. */
  function Streak(ticks: seq<Tick>, down: bool): nat
    decreases |ticks|
  {
    if ticks == [] || ticks[|ticks| - 1].collidingDown != down then 0
    else 1 + Streak(ticks[..|ticks| - 1], down)
  }

  /** Whether every update of the run had this collision. */
  predicate AllDown(ticks: seq<Tick>, down: bool)
  {
    forall i :: 0 <= i < |ticks| ==> ticks[i].collidingDown == down
  }

  /**
   * The counters measure streaks: `ticksCollidingDown` is the number of
   * updates the thing has been on the ground without a break and
   * `timeOffGround` the number it has been off it, each carried on from
   * the start when the run never changed.
   */
  lemma {:induction false} CountStepsStreaks(c: Counters, ticks: seq<Tick>)
    ensures var c' := CountSteps(c, ticks);
      c'.ticksCollidingDown == Streak(ticks, true) + (if AllDown(ticks, true) then c.ticksCollidingDown else 0) &&
      c'.timeOffGround == Streak(ticks, false) + (if AllDown(ticks, false) then c.timeOffGround else 0)
    decreases |ticks|
  {
    if ticks != [] {
      var init := ticks[..|ticks| - 1];
      CountStepsStreaks(c, init);
      var last := ticks[|ticks| - 1];
      if last.collidingDown {
        assert Streak(ticks, false) == 0 && !AllDown(ticks, false);
        assert AllDown(ticks, true) == AllDown(init, true);
      } else {
        assert Streak(ticks, true) == 0 && !AllDown(ticks, true);
        assert AllDown(ticks, false) == AllDown(init, false);
      }
    }
  }

  /** Every field `operator=` copies, in four groups. */
  datatype MovableFields = MovableFields(kinematics: Kinematics, collision: Collision, ground: Ground, fall: Fall)

  /** The rectangles and the motion vectors. */
  datatype Kinematics = Kinematics(rect: Rect, nextRect: Rect, drag: Point, velocity: Point, accel: Point, dAccel: Point)

  /** The collision switches and flags. */
  datatype Collision = Collision(collides: bool, gravity: bool, isCollidingX: bool, isCollidingDown: bool, ticksCollidingDown: int)

  /** The ground and jump state. */
  datatype Ground = Ground(isSteppingUp: bool, timeOffGround: int, collidePlatforms: bool, isDroppingDown: bool, maxJumpTime: int)

  /** The fall tracking and the boulder speed. */
  datatype Fall = Fall(pixelsFallen: int, maxHeight: int, minVelocity: real, boulderSpeed: int)

  class Movable {
    var rect: Rect
    var nextRect: Rect
    var drag: Point
    var velocity: Point
    var accel: Point
    var dAccel: Point
    var collides: bool
    var gravity: bool
    var isCollidingX: bool
    var isCollidingDown: bool
    var ticksCollidingDown: int
    var isSteppingUp: bool
    var timeOffGround: int
    var collidePlatforms: bool
    var isDroppingDown: bool
    var maxJumpTime: int
    var pixelsFallen: int
    var maxHeight: int
    var minVelocity: real
    var boulderSpeed: int

    function Fields(): MovableFields
      reads this
    {
      MovableFields(KinematicsFields(), CollisionFields(), GroundFields(), FallFields())
    }

    function KinematicsFields(): Kinematics
      reads this
    {
      Kinematics(rect, nextRect, drag, velocity, accel, dAccel)
    }

    function CollisionFields(): Collision
      reads this
    {
      Collision(collides, gravity, isCollidingX, isCollidingDown, ticksCollidingDown)
    }

    function GroundFields(): Ground
      reads this
    {
      Ground(isSteppingUp, timeOffGround, collidePlatforms, isDroppingDown, maxJumpTime)
    }

    function FallFields(): Fall
      reads this
    {
      Fall(pixelsFallen, maxHeight, minVelocity, boulderSpeed)
    }

    function GetCounters(): Counters
      reads this
    {
      Counters(ticksCollidingDown, timeOffGround, pixelsFallen, maxHeight)
    }

    /**
     * `Movable()`: at rest, colliding with platforms, pulled by gravity,
     * with no drag yet. The rectangles start as whatever `Rect()` leaves,
     * passed in here.
     */
    constructor(rect: Rect, nextRect: Rect)
      ensures Fields() == MovableFields(
        Kinematics(rect, nextRect, Point(0.0, 0.0), Point(0.0, 0.0), Point(0.0, 0.0), Point(0.0, 0.0)),
        Collision(true, true, false, false, 0), Ground(false, 0, true, false, 0), Fall(0, 0, 0.0, 0))
    {
      this.rect := rect;
      this.nextRect := nextRect;
      velocity := Point(0.0, 0.0);
      accel := Point(0.0, 0.0);
      collides := true;
      gravity := true;
      isCollidingDown := false;
      ticksCollidingDown := 0;
      isCollidingX := false;
      isSteppingUp := false;
      timeOffGround := 0;
      collidePlatforms := true;
      isDroppingDown := false;
      pixelsFallen := 0;
      maxHeight := 0;
      boulderSpeed := 0;
      drag := Point(0.0, 0.0);
      maxJumpTime := 0;
      minVelocity := 0.0;
      dAccel := Point(0.0, 0.0);
    }

    /**
     * `operator=`: every field copied from the other, so that a
     * self-assignment (which returns at once) changes nothing.
     */
    method Assign(other: Movable)
      modifies this
      ensures Fields() == old(other.Fields())
    {
      if this == other {
        return;
      }
      CopyAll(other.Fields());
    }

    /** The copying of `operator=`. */
    method CopyAll(source: MovableFields)
      modifies this
      ensures Fields() == source
    {
      CopyMotion(source.kinematics, source.collision);
      CopyState(source.ground, source.fall);
    }

    /** The first half of `operator=`. */
    method CopyMotion(kinematics: Kinematics, collision: Collision)
      modifies this`rect, this`nextRect, this`drag, this`velocity, this`accel, this`dAccel,
               this`collides, this`gravity, this`isCollidingX, this`isCollidingDown, this`ticksCollidingDown
      ensures KinematicsFields() == kinematics && CollisionFields() == collision
    {
      CopyKinematics(kinematics);
      CopyCollision(collision);
    }

    /** The second half of `operator=`. */
    method CopyState(ground: Ground, fall: Fall)
      modifies this`isSteppingUp, this`timeOffGround, this`collidePlatforms, this`isDroppingDown, this`maxJumpTime,
               this`pixelsFallen, this`maxHeight, this`minVelocity, this`boulderSpeed
      ensures GroundFields() == ground && FallFields() == fall
    {
      CopyGround(ground);
      CopyFall(fall);
    }

    method CopyKinematics(source: Kinematics)
      modifies this`rect, this`nextRect, this`drag, this`velocity, this`accel, this`dAccel
      ensures KinematicsFields() == source
    {
      rect := source.rect;
      nextRect := source.nextRect;
      drag := source.drag;
      velocity := source.velocity;
      accel := source.accel;
      dAccel := source.dAccel;
    }

    method CopyCollision(source: Collision)
      modifies this`collides, this`gravity, this`isCollidingX, this`isCollidingDown, this`ticksCollidingDown
      ensures CollisionFields() == source
    {
      collides := source.collides;
      gravity := source.gravity;
      isCollidingX := source.isCollidingX;
      isCollidingDown := source.isCollidingDown;
      ticksCollidingDown := source.ticksCollidingDown;
    }

    method CopyGround(source: Ground)
      modifies this`isSteppingUp, this`timeOffGround, this`collidePlatforms, this`isDroppingDown, this`maxJumpTime
      ensures GroundFields() == source
    {
      isSteppingUp := source.isSteppingUp;
      timeOffGround := source.timeOffGround;
      collidePlatforms := source.collidePlatforms;
      isDroppingDown := source.isDroppingDown;
      maxJumpTime := source.maxJumpTime;
    }

    method CopyFall(source: Fall)
      modifies this`pixelsFallen, this`maxHeight, this`minVelocity, this`boulderSpeed
      ensures FallFields() == source
    {
      pixelsFallen := source.pixelsFallen;
      maxHeight := source.maxHeight;
      minVelocity := source.minVelocity;
      boulderSpeed := source.boulderSpeed;
    }

    /** `advanceRect`. */
    method AdvanceRect()
      modifies this`rect, this`nextRect
      ensures (rect, nextRect) == Advance(old(rect), old(nextRect))
    {
      rect := rect.(x := rect.x + nextRect.x, y := rect.y + nextRect.y);
      rect := rect.(w := nextRect.w, h := nextRect.h);
      nextRect := nextRect.(x := 0, y := 0);
    }

    /** `resetRect`. */
    method ResetRect()
      modifies this`nextRect
      ensures nextRect == rect
    {
      nextRect := rect;
    }

    /**
     * `updateMotion(gravitynum)`: the counters take one `CountStep`, the
     * velocity gets the acceleration, gravity (unless stepping up), drag,
     * the dropping of small speeds and rounding away from zero; a landing
     * without platform collision starts a drop through, and the collision
     * flags clear. The drag must have been set.
     */
    method UpdateMotion(gravitynum: real)
      requires drag.x != 0.0 || drag.y != 0.0
      modifies this`ticksCollidingDown, this`timeOffGround, this`pixelsFallen, this`maxHeight,
               this`velocity, this`isDroppingDown, this`isSteppingUp, this`isCollidingX, this`isCollidingDown
      ensures var pull := if !old(isSteppingUp) && gravity then gravitynum else 0.0;
        var vy := Damped(old(velocity.y), accel.y, pull, drag.y);
        GetCounters() == CountStep(old(GetCounters()), old(isCollidingDown), rect.y, vy > minVelocity) &&
        velocity == Point(RoundAway(Damped(old(velocity.x), accel.x, 0.0, drag.x)) as real, RoundAway(vy) as real)
      ensures isDroppingDown == (old(isCollidingDown) && !collidePlatforms)
      ensures !isSteppingUp && !isCollidingX && !isCollidingDown
    {
      LandOrFly();
      var vx, vy := Accelerated(gravitynum);
      if vy > minVelocity {
        maxHeight := Min(maxHeight, rect.y);
      }
      var rx := Round(vx);
      var ry := Round(vy);
      velocity := Point(rx as real, ry as real);
      ResetCollision();
    }

    /** The end of `updateMotion`: a drop through starts on landing without platform collision; the collision flags clear. */
    method ResetCollision()
      modifies this`isDroppingDown, this`isSteppingUp, this`isCollidingX, this`isCollidingDown
      ensures isDroppingDown == (old(isCollidingDown) && !collidePlatforms)
      ensures !isSteppingUp && !isCollidingX && !isCollidingDown
    {
      isDroppingDown := isCollidingDown && !collidePlatforms;
      isSteppingUp := false;
      isCollidingX := false;
      isCollidingDown := false;
    }

    /** The counter part of `updateMotion`, before the speed is known. */
    method LandOrFly()
      modifies this`ticksCollidingDown, this`timeOffGround, this`pixelsFallen, this`maxHeight
      ensures GetCounters() == CountStep(old(GetCounters()), isCollidingDown, rect.y, false)
    {
      if isCollidingDown {
        pixelsFallen := maxHeight - rect.y;
        maxHeight := rect.y;
        ticksCollidingDown := ticksCollidingDown + 1;
        timeOffGround := 0;
      } else {
        pixelsFallen := 0;
        ticksCollidingDown := 0;
        timeOffGround := timeOffGround + 1;
        maxHeight := Max(maxHeight, rect.y);
      }
    }

    /** The velocity part of `updateMotion` up to the rounding. */
    method Accelerated(gravitynum: real) returns (vx: real, vy: real)
      ensures vx == Damped(velocity.x, accel.x, 0.0, drag.x)
      ensures vy == Damped(velocity.y, accel.y, if !isSteppingUp && gravity then gravitynum else 0.0, drag.y)
    {
      ghost var pull := if !isSteppingUp && gravity then gravitynum else 0.0;
      vx := velocity.x + accel.x;
      vy := velocity.y + accel.y;
      if !isSteppingUp && gravity {
        vy := vy + gravitynum;
      }
      vx := vx * drag.x;
      vy := vy * drag.y;
      assert vy == (velocity.y + accel.y + pull) * drag.y;
      if -1.0 < vx && vx < 1.0 {
        vx := 0.0;
      }
      if -1.0 < vy && vy < 1.0 {
        vy := 0.0;
      }
    }
  }

  /** The rounding of one velocity component: `floor` below zero, then `ceil`. */
  method Round(v: real) returns (r: int)
    ensures r == RoundAway(v)
  {
    var w := v;
    if w < 0.0 {
      w := w.Floor as real;
    }
    r := Ceil(w);
  }
}
