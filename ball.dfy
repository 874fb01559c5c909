/**
 * The ball of lifepong/entities/ball.py. Coordinates, velocity and speed
 * are exact reals. What the source takes from `math` and `random` is passed
 * in: the velocity's length `math.sqrt(vx**2 + vy**2)` in `normalize_velocity`,
 * the random heading of `reset`, and the cosine/sine table of the collision
 * points.
 */
module Balls {
  import Config

  function Abs(r: real): real {
    if r < 0.0 then -r else r
  }

  /** Python's `min` on two floats. */
  function Min(a: real, b: real): (m: real)
    ensures m <= a && m <= b && (m == a || m == b)
  {
    if a <= b then a else b
  }

  /** One frame of the collision cooldown: counts down and stops at 0. */
  function Tick(c: int): (r: int)
    ensures c > 0 ==> r == c - 1
    ensures c <= 0 ==> r == c
  {
    if c > 0 then c - 1 else c
  }

  /** The cooldown after `n` frames. */
  function TickN(c: int, n: nat): int {
    if n == 0 then c else Tick(TickN(c, n - 1))
  }

  /** From a non-negative cooldown, `n` frames leave `max(0, c - n)`. */
  lemma {:induction false} TickNValue(c: int, n: nat)
    requires c >= 0
    ensures TickN(c, n) == if c >= n then c - n else 0
  {
    if n > 0 {
      TickNValue(c, n - 1);
    }
  }

  /** A freshly armed cooldown has expired after `COLLISION_COOLDOWN` frames, and not before. */
  lemma CooldownExpires(n: nat)
    ensures TickN(Config.COLLISION_COOLDOWN, n) == 0 <==> n >= Config.COLLISION_COOLDOWN
  {
    TickNValue(Config.COLLISION_COOLDOWN, n);
  }

  /**
   * The random part of `reset`: `direction` and `ySign` are the two
   * `random.choice([-1, 1])` results and `(cos, sin)` the cosine and sine of
   * the random angle.
   */
  datatype Heading = Heading(direction: int, cos: real, sin: real, ySign: int)

  predicate ValidHeading(h: Heading) {
    (h.direction == 1 || h.direction == -1) && (h.ySign == 1 || h.ySign == -1)
  }

  /** The sample point at unit-circle entry `c` of a ball at `(x, y)`. */
  function SamplePoint(x: real, y: real, c: (real, real)): (real, real) {
    (x + c.0 * Config.BALL_RADIUS as real, y + c.1 * Config.BALL_RADIUS as real)
  }

  /** The ball's fields as one value: position, velocity, speed and cooldown. */
  datatype BallState = BallState(x: real, y: real, vx: real, vy: real, speed: real, cooldown: int)

  /** Component `v` rescaled from length `len` to `speed`; unchanged when the length is 0. */
  function Rescaled(v: real, len: real, speed: real): real {
    if len > 0.0 then v / len * speed else v
  }

  /** The ball `reset` leaves at `(x, y)` for heading `h`. */
  function ResetState(x: real, y: real, h: Heading): BallState
  {
    BallState(x, y, h.direction as real * Config.BALL_BASE_SPEED * h.cos, Config.BALL_BASE_SPEED * h.sin * h.ySign as real,
      Config.BALL_BASE_SPEED, 0)
  }

  /** The ball after `update`: moved by its velocity, the cooldown one tick lower. */
  function Moved(s: BallState): BallState
  {
    BallState(s.x + s.vx, s.y + s.vy, s.vx, s.vy, s.speed, Tick(s.cooldown))
  }

  /** The ball after `accelerate(amount)` with the velocity of length `len`. */
  function Accelerated(s: BallState, amount: real, len: real): BallState
  {
    var speed := Min(s.speed + amount, Config.BALL_MAX_SPEED);
    BallState(s.x, s.y, Rescaled(s.vx, len, speed), Rescaled(s.vy, len, speed), speed, s.cooldown)
  }

  class Ball {
    var x: real
    var y: real
    var vx: real
    var vy: real
    var speed: real
    var collisionCooldown: int

    /** The fields as a `BallState`. */
    function State(): BallState
      reads this
    {
      BallState(x, y, vx, vy, speed, collisionCooldown)
    }

    /** The cooldown is not negative and the speed never exceeds the cap. */
    ghost predicate Valid()
      reads this
    {
      collisionCooldown >= 0 && speed <= Config.BALL_MAX_SPEED
    }

    /** A resting ball at `(x, y)` with the base speed. */
    constructor (x: real, y: real)
      ensures Valid()
      ensures this.x == x && this.y == y && vx == 0.0 && vy == 0.0
      ensures speed == Config.BALL_BASE_SPEED && collisionCooldown == 0
    {
      this.x := x;
      this.y := y;
      vx := 0.0;
      vy := 0.0;
      speed := Config.BALL_BASE_SPEED;
      collisionCooldown := 0;
    }

    /** Back to `(x, y)` at the base speed with heading `h` and no cooldown. */
    method Reset(x: real, y: real, h: Heading)
      requires ValidHeading(h)
      modifies this
      ensures Valid()
      ensures this.x == x && this.y == y && speed == Config.BALL_BASE_SPEED && collisionCooldown == 0
      ensures vx == h.direction as real * speed * h.cos && vy == speed * h.sin * h.ySign as real
    {
      this.x := x;
      this.y := y;
      speed := Config.BALL_BASE_SPEED;
      vx := h.direction as real * speed * h.cos;
      vy := speed * h.sin * h.ySign as real;
      collisionCooldown := 0;
    }

    /** The eight sample points, for angles 0, 45, ..., 315 degrees in that order. */
    method GetCollisionPoints(circle: seq<(real, real)>) returns (points: seq<(real, real)>)
      requires |circle| == 8
      ensures |points| == 8
      ensures forall i :: 0 <= i < 8 ==> points[i] == SamplePoint(x, y, circle[i])
    {
      points := [];
      var angleDeg := 0;
      while angleDeg < 360
        invariant 0 <= angleDeg <= 360 && angleDeg % 45 == 0
        invariant |points| == angleDeg / 45
        invariant forall i :: 0 <= i < |points| ==> points[i] == SamplePoint(x, y, circle[i])
      {
        points := points + [SamplePoint(x, y, circle[angleDeg / 45])];
        angleDeg := angleDeg + 45;
      }
    }

    /**
     * Rescales the velocity from length `currentSpeed` to `speed`; with
     * `currentSpeed == 0` nothing changes.
     */
    method NormalizeVelocity(currentSpeed: real)
      requires currentSpeed >= 0.0
      modifies this
      ensures currentSpeed > 0.0 ==> vx == old(vx) / currentSpeed * speed && vy == old(vy) / currentSpeed * speed
      ensures currentSpeed == 0.0 ==> vx == old(vx) && vy == old(vy)
      ensures x == old(x) && y == old(y) && speed == old(speed) && collisionCooldown == old(collisionCooldown)
    {
      if currentSpeed > 0.0 {
        vx := (vx / currentSpeed) * speed;
        vy := (vy / currentSpeed) * speed;
      }
    }

    /**
     * Raises the speed by `amount`, capped at `BALL_MAX_SPEED`, then rescales
     * the velocity from its length `currentSpeed` to the new speed.
     */
    method Accelerate(amount: real, currentSpeed: real)
      requires Valid() && currentSpeed >= 0.0
      modifies this
      ensures Valid()
      ensures speed == Min(old(speed) + amount, Config.BALL_MAX_SPEED)
      ensures amount >= 0.0 ==> old(speed) <= speed <= Config.BALL_MAX_SPEED
      ensures currentSpeed > 0.0 ==> vx == old(vx) / currentSpeed * speed && vy == old(vy) / currentSpeed * speed
      ensures currentSpeed == 0.0 ==> vx == old(vx) && vy == old(vy)
      ensures x == old(x) && y == old(y) && collisionCooldown == old(collisionCooldown)
    {
      speed := Min(speed + amount, Config.BALL_MAX_SPEED);
      NormalizeVelocity(currentSpeed);
    }

    /** One frame: moves by the velocity and counts the cooldown down. */
    method Update()
      requires Valid()
      modifies this
      ensures Valid()
      ensures x == old(x) + old(vx) && y == old(y) + old(vy)
      ensures collisionCooldown == Tick(old(collisionCooldown))
      ensures vx == old(vx) && vy == old(vy) && speed == old(speed)
    {
      x := x + vx;
      y := y + vy;
      if collisionCooldown > 0 {
        collisionCooldown := collisionCooldown - 1;
      }
    }

    predicate CanCollide()
      reads this
    {
      collisionCooldown == 0
    }

    /** Arms the cooldown after a collision. */
    method SetCollisionCooldown()
      requires Valid()
      modifies this
      ensures Valid()
      ensures collisionCooldown == Config.COLLISION_COOLDOWN
      ensures x == old(x) && y == old(y) && vx == old(vx) && vy == old(vy) && speed == old(speed)
    {
      collisionCooldown := Config.COLLISION_COOLDOWN;
    }
  }
}
