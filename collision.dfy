/**
 * The collision rules of lifepong/systems/collision.py: the speed-dependent
 * damage schedule, wall detection and response, grid detection over the
 * ball's eight sample points, and the grid response (damage, reflection,
 * push-out, cooldown).
 */
module Collision {
  import opened Wrappers
  import Config
  import Zones
  import opened Grid
  import opened Balls

  /**
   * Damage of one hit at ball speed `speed`: the base damage, plus one
   * above 70% of the maximum speed and one more above 90%, when the speed
   * bonus is on.
   */
  function CalculateDamage(speed: real, speedBonus: bool): (d: int)
    ensures Config.BALL_DAMAGE_BASE <= d <= Config.BALL_DAMAGE_BASE + 2
    ensures !speedBonus ==> d == Config.BALL_DAMAGE_BASE
    ensures speedBonus ==> (d > Config.BALL_DAMAGE_BASE <==> speed / Config.BALL_MAX_SPEED > 0.7)
    ensures speedBonus ==> (d == Config.BALL_DAMAGE_BASE + 2 <==> speed / Config.BALL_MAX_SPEED > 0.9)
  {
    var damage := Config.BALL_DAMAGE_BASE;
    if !speedBonus then damage
    else
      var speedRatio := speed / Config.BALL_MAX_SPEED;
      damage + (if speedRatio > 0.7 then 1 else 0) + (if speedRatio > 0.9 then 1 else 0)
  }

  /** A faster ball never does less damage. */
  lemma DamageMonotone(slow: real, fast: real, speedBonus: bool)
    requires slow <= fast
    ensures CalculateDamage(slow, speedBonus) <= CalculateDamage(fast, speedBonus)
  {
  }

  datatype Wall = Top | Bottom | Left | Right

  /**
   * The first wall touched by a ball of radius `BALL_RADIUS` centred at
   * `(x, y)`, tested in the order top, bottom, left, right; `None` exactly
   * when the ball is strictly inside all four.
   */
  function WallAt(x: real, y: real): (w: Option<Wall>)
    ensures var r := Config.BALL_RADIUS as real;
      && (w == Some(Top) <==> y - r <= 0.0)
      && (w == Some(Bottom) <==> y - r > 0.0 && y + r >= Config.SCREEN_HEIGHT as real)
      && (w == Some(Left) <==> y - r > 0.0 && y + r < Config.SCREEN_HEIGHT as real && x - r <= 0.0)
      && (w == Some(Right) <==>
            (y - r > 0.0 && y + r < Config.SCREEN_HEIGHT as real
             && x - r > 0.0 && x + r >= Config.SCREEN_WIDTH as real))
      && (w.None? <==>
            (0.0 < y - r && y + r < Config.SCREEN_HEIGHT as real
             && 0.0 < x - r && x + r < Config.SCREEN_WIDTH as real))
  {
    var radius := Config.BALL_RADIUS as real;
    if y - radius <= 0.0 then Some(Top)
    else if y + radius >= Config.SCREEN_HEIGHT as real then Some(Bottom)
    else if x - radius <= 0.0 then Some(Left)
    else if x + radius >= Config.SCREEN_WIDTH as real then Some(Right)
    else None
  }

  /** Wall detection for `ball`, at its current centre. */
  function CheckWallCollision(ball: Ball): Option<Wall>
    reads ball
  {
    WallAt(ball.x, ball.y)
  }

  /**
   * On the top wall the ball is put back at `y = r` moving down (`vy >= 0`),
   * on the bottom wall at `y = SCREEN_HEIGHT - r` moving up; the side walls
   * are scoring walls and change nothing here.
   */
  method HandleWallCollision(ball: Ball, wall: Wall)
    requires ball.Valid()
    modifies ball
    ensures ball.Valid()
    ensures wall == Top ==> ball.y == Config.BALL_RADIUS as real && ball.vy == Abs(old(ball.vy))
    ensures wall == Bottom ==> ball.y == (Config.SCREEN_HEIGHT - Config.BALL_RADIUS) as real && ball.vy == -Abs(old(ball.vy))
    ensures wall == Left || wall == Right ==> ball.y == old(ball.y) && ball.vy == old(ball.vy)
    ensures ball.x == old(ball.x) && ball.vx == old(ball.vx) && ball.speed == old(ball.speed)
    ensures ball.collisionCooldown == old(ball.collisionCooldown)
  {
    var radius := Config.BALL_RADIUS;
    if wall == Top {
      ball.y := radius as real;
      ball.vy := Abs(ball.vy);
    } else if wall == Bottom {
      ball.y := (Config.SCREEN_HEIGHT - radius) as real;
      ball.vy := -Abs(ball.vy);
    }
  }

  /** The ball `handle_wall_collision` leaves after touching `wall`. */
  function WallBounced(s: BallState, wall: Wall): BallState {
    match wall
    case Top => s.(y := Config.BALL_RADIUS as real, vy := Abs(s.vy))
    case Bottom => s.(y := (Config.SCREEN_HEIGHT - Config.BALL_RADIUS) as real, vy := -Abs(s.vy))
    case _ => s
  }

  /** The ball after wall detection and response at its own centre. */
  function AfterWalls(s: BallState): BallState {
    match WallAt(s.x, s.y)
    case Some(wall) => WallBounced(s, wall)
    case None => s
  }

  /** The reply of grid detection: the collision normal and the cell that was hit. */
  datatype GridHit = GridHit(normalX: int, normalY: int, cellX: int, cellY: int)

  /** `int(p // CELL_SIZE)`: the grid index of pixel coordinate `p`. */
  function CellIndex(p: real): (c: int)
    ensures (c * Config.CELL_SIZE) as real <= p < ((c + 1) * Config.CELL_SIZE) as real
  {
    (p / Config.CELL_SIZE as real).Floor
  }

  /** The pixel centre `g * CELL_SIZE + CELL_SIZE // 2` of grid index `g`. */
  function CellCenter(g: int): real {
    (g * Config.CELL_SIZE + Config.CELL_SIZE / 2) as real
  }

  /**
   * The collision normal of a ball at `(ballX, ballY)` against cell `(gx, gy)`: a
   * unit step along the axis on which the ball is farther from the cell's
   * centre, pointing at the ball; a tie counts as vertical.
   */
  function Normal(ballX: real, ballY: real, gx: int, gy: int): (n: (int, int))
    ensures var dx, dy := ballX - CellCenter(gx), ballY - CellCenter(gy);
      && (((n.0 == 1 || n.0 == -1) && n.1 == 0) || (n.0 == 0 && (n.1 == 1 || n.1 == -1)))
      && (n.0 != 0 <==> Abs(dx) > Abs(dy))
      && (n.0 == 1 <==> Abs(dx) > Abs(dy) && dx > 0.0)
      && (n.1 == 1 <==> Abs(dx) <= Abs(dy) && dy > 0.0)
  {
    var dx := ballX - CellCenter(gx);
    var dy := ballY - CellCenter(gy);
    if Abs(dx) > Abs(dy) then (if dx > 0.0 then 1 else -1, 0)
    else (0, if dy > 0.0 then 1 else -1)
  }

  /** A diagonal tie, the ball at the cell's centre included, gives a vertical normal, upwards unless `dy > 0`. */
  lemma TieIsVertical(ballX: real, ballY: real, gx: int, gy: int)
    requires Abs(ballX - CellCenter(gx)) == Abs(ballY - CellCenter(gy))
    ensures Normal(ballX, ballY, gx, gy).0 == 0
    ensures Normal(ballX, ballY, gx, gy).1 == -1 <==> ballY - CellCenter(gy) <= 0.0
  {
  }

  /** The reply for a ball at `(ballX, ballY)` whose sample point `p` lies on a live cell. */
  function HitFor(ballX: real, ballY: real, p: (real, real)): GridHit {
    var gx, gy := CellIndex(p.0), CellIndex(p.1);
    var n := Normal(ballX, ballY, gx, gy);
    GridHit(n.0, n.1, gx, gy)
  }

  /** Sample point `p` lies on a live cell of board `b`. */
  predicate LiveOn(b: Life.Board, w: nat, h: nat, p: (real, real))
    requires Life.IsRect(b, w, h)
  {
    var gx, gy := CellIndex(p.0), CellIndex(p.1);
    0 <= gx < w && 0 <= gy < h && b[gy][gx] > 0
  }

  /** The reply for the first of the sample points `i`, `i + 1`, ... of a ball at `(x, y)` that lies on a live cell. */
  function FirstLiveFrom(b: Life.Board, w: nat, h: nat, x: real, y: real, circle: seq<(real, real)>, i: nat): Option<GridHit>
    requires Life.IsRect(b, w, h) && i <= |circle|
    decreases |circle| - i
  {
    if i == |circle| then None
    else if LiveOn(b, w, h, SamplePoint(x, y, circle[i])) then Some(HitFor(x, y, SamplePoint(x, y, circle[i])))
    else FirstLiveFrom(b, w, h, x, y, circle, i + 1)
  }

  /** What grid detection replies for ball `s` on board `b`: nothing while the cooldown runs, else the first live sample point. */
  function GridReply(b: Life.Board, w: nat, h: nat, s: BallState, circle: seq<(real, real)>): Option<GridHit>
    requires Life.IsRect(b, w, h)
  {
    if s.cooldown != 0 then None else FirstLiveFrom(b, w, h, s.x, s.y, circle, 0)
  }

  /** The search from point `i` on answers the first live point at or after `i`, and nothing iff there is none. */
  lemma {:induction false} FirstLiveFromIsFirst(b: Life.Board, w: nat, h: nat, x: real, y: real, circle: seq<(real, real)>, i: nat)
    requires Life.IsRect(b, w, h) && i <= |circle|
    ensures var r := FirstLiveFrom(b, w, h, x, y, circle, i);
      && (r.None? <==> forall j :: i <= j < |circle| ==> !LiveOn(b, w, h, SamplePoint(x, y, circle[j])))
      && (r.Some? ==> exists j :: (i <= j < |circle| && LiveOn(b, w, h, SamplePoint(x, y, circle[j]))
            && (forall k :: i <= k < j ==> !LiveOn(b, w, h, SamplePoint(x, y, circle[k])))
            && r.value == HitFor(x, y, SamplePoint(x, y, circle[j]))))
    decreases |circle| - i
  {
    if i < |circle| {
      FirstLiveFromIsFirst(b, w, h, x, y, circle, i + 1);
      var p := SamplePoint(x, y, circle[i]);
      if LiveOn(b, w, h, p) {
        assert FirstLiveFrom(b, w, h, x, y, circle, i) == Some(HitFor(x, y, p));
      } else {
        assert FirstLiveFrom(b, w, h, x, y, circle, i) == FirstLiveFrom(b, w, h, x, y, circle, i + 1);
        var r := FirstLiveFrom(b, w, h, x, y, circle, i + 1);
        if r.Some? {
          var j :| i + 1 <= j < |circle| && LiveOn(b, w, h, SamplePoint(x, y, circle[j]))
            && (forall k :: i + 1 <= k < j ==> !LiveOn(b, w, h, SamplePoint(x, y, circle[k])))
            && r.value == HitFor(x, y, SamplePoint(x, y, circle[j]));
          assert forall k :: i <= k < j ==> !LiveOn(b, w, h, SamplePoint(x, y, circle[k]));
        }
      }
    }
  }

  /**
   * No reply while the cooldown runs. Otherwise no reply exactly when no
   * sample point lies on a live cell, and a reply is the one for the first
   * sample point, in the order of `circle`, that does; its cell is live.
   */
  lemma GridReplyIsFirstLive(b: Life.Board, w: nat, h: nat, s: BallState, circle: seq<(real, real)>)
    requires Life.IsRect(b, w, h)
    ensures s.cooldown != 0 ==> GridReply(b, w, h, s, circle).None?
    ensures s.cooldown == 0 ==>
      (GridReply(b, w, h, s, circle).None? <==> forall j :: 0 <= j < |circle| ==> !LiveOn(b, w, h, SamplePoint(s.x, s.y, circle[j])))
    ensures var r := GridReply(b, w, h, s, circle);
      r.Some? ==> s.cooldown == 0 && 0 <= r.value.cellX < w && 0 <= r.value.cellY < h && b[r.value.cellY][r.value.cellX] > 0
    ensures var r := GridReply(b, w, h, s, circle);
      r.Some? ==> exists j :: (0 <= j < |circle| && LiveOn(b, w, h, SamplePoint(s.x, s.y, circle[j]))
        && (forall k :: 0 <= k < j ==> !LiveOn(b, w, h, SamplePoint(s.x, s.y, circle[k])))
        && r.value == HitFor(s.x, s.y, SamplePoint(s.x, s.y, circle[j])))
  {
    FirstLiveFromIsFirst(b, w, h, s.x, s.y, circle, 0);
  }

  /** Grid detection for `ball` on `grid`: the reply `GridReply` gives for the current ball and board. */
  method CheckGridCollision(ball: Ball, grid: LifeGrid, circle: seq<(real, real)>) returns (hit: Option<GridHit>)
    requires grid.Valid() && |circle| == 8
    ensures hit == GridReply(grid.Cells(), grid.width, grid.height, ball.State(), circle)
  {
    if !ball.CanCollide() {
      return None;
    }
    ghost var b := grid.Cells();
    var points := ball.GetCollisionPoints(circle);
    for i := 0 to 8
      invariant FirstLiveFrom(b, grid.width, grid.height, ball.x, ball.y, circle, 0)
        == FirstLiveFrom(b, grid.width, grid.height, ball.x, ball.y, circle, i)
    {
      var (px, py) := points[i];
      var gridX := CellIndex(px);
      var gridY := CellIndex(py);
      if grid.IsAlive(gridX, gridY) {
        var n := Normal(ball.x, ball.y, gridX, gridY);
        return Some(GridHit(n.0, n.1, gridX, gridY));
      }
    }
    return None;
  }

  /**
   * Where the ball is pushed to along one axis: just past the far side of
   * cell `c` for a positive normal, just before its near side for a negative
   * one, unchanged for a zero one.
   */
  function PushOut(pos: real, normal: int, c: int): (r: real)
    ensures normal > 0 ==> r - Config.BALL_RADIUS as real > ((c + 1) * Config.CELL_SIZE) as real
    ensures normal < 0 ==> r + Config.BALL_RADIUS as real < (c * Config.CELL_SIZE) as real
    ensures normal == 0 ==> r == pos
  {
    if normal > 0 then ((c + 1) * Config.CELL_SIZE + Config.BALL_RADIUS + 1) as real
    else if normal < 0 then (c * Config.CELL_SIZE - Config.BALL_RADIUS - 1) as real
    else pos
  }

  /** The velocity along one axis after reflection by a normal component and rescaling. */
  function Bounced(v: real, normal: int, currentSpeed: real, speed: real): (r: real)
    ensures currentSpeed > 0.0 && speed > 0.0 && normal != 0 ==> (r > 0.0 <==> v < 0.0) && (r < 0.0 <==> v > 0.0)
    ensures currentSpeed > 0.0 && speed > 0.0 && normal == 0 ==> (r > 0.0 <==> v > 0.0) && (r < 0.0 <==> v < 0.0)
    ensures currentSpeed == 0.0 ==> r == if normal != 0 then -v else v
  {
    var reflected := if normal != 0 then -v else v;
    if currentSpeed > 0.0 then reflected / currentSpeed * speed else reflected
  }

  /** The ball `handle_grid_collision` leaves after `hit`, with the velocity of length `len`. */
  function GridBounced(s: BallState, hit: GridHit, len: real): BallState {
    BallState(PushOut(s.x, hit.normalX, hit.cellX), PushOut(s.y, hit.normalY, hit.cellY),
      Bounced(s.vx, hit.normalX, len, s.speed), Bounced(s.vy, hit.normalY, len, s.speed),
      s.speed, Config.COLLISION_COOLDOWN)
  }

  /**
   * The reply to a grid hit: one `damage_cell` on the hit cell with the
   * ball's current damage, reflection of the velocity along each non-zero
   * normal component with the ball pushed out of the cell on that axis,
   * rescaling of the velocity from its length `currentSpeed` to the ball's
   * speed, and a fresh cooldown. Returns whether the cell was destroyed and
   * the cell.
   */
  method HandleGridCollision(ball: Ball, grid: LifeGrid, hit: GridHit, currentSpeed: real)
    returns (destroyed: bool, cx: int, cy: int)
    requires ball.Valid() && grid.Valid() && currentSpeed >= 0.0
    modifies ball, grid.cells
    ensures ball.Valid() && grid.Valid()
    ensures cx == hit.cellX && cy == hit.cellY
    ensures var r := DamageResult(old(grid.Cells()), grid.width, grid.height, hit.cellX, hit.cellY,
        CalculateDamage(old(ball.speed), Config.BALL_DAMAGE_SPEED_BONUS));
      destroyed == r.destroyed && grid.Cells() == r.board
    ensures ball.x == PushOut(old(ball.x), hit.normalX, hit.cellX)
    ensures ball.y == PushOut(old(ball.y), hit.normalY, hit.cellY)
    ensures ball.vx == Bounced(old(ball.vx), hit.normalX, currentSpeed, ball.speed)
    ensures ball.vy == Bounced(old(ball.vy), hit.normalY, currentSpeed, ball.speed)
    ensures ball.speed == old(ball.speed) && ball.collisionCooldown == Config.COLLISION_COOLDOWN
  {
    cx, cy := hit.cellX, hit.cellY;
    var damage := CalculateDamage(ball.speed, Config.BALL_DAMAGE_SPEED_BONUS);
    var _, d := grid.DamageCell(cx, cy, damage);
    destroyed := d;
    ghost var damaged := grid.Cells();
    Bounce(ball, hit, currentSpeed);
    ball.SetCollisionCooldown();
    assert grid.Cells() == damaged;
  }

  /** The ball's part of a grid hit: reflection, push-out and rescaling; the cooldown is untouched. */
  method Bounce(ball: Ball, hit: GridHit, currentSpeed: real)
    requires ball.Valid() && currentSpeed >= 0.0
    modifies ball
    ensures ball.Valid()
    ensures ball.x == PushOut(old(ball.x), hit.normalX, hit.cellX)
    ensures ball.y == PushOut(old(ball.y), hit.normalY, hit.cellY)
    ensures ball.vx == Bounced(old(ball.vx), hit.normalX, currentSpeed, ball.speed)
    ensures ball.vy == Bounced(old(ball.vy), hit.normalY, currentSpeed, ball.speed)
    ensures ball.speed == old(ball.speed) && ball.collisionCooldown == old(ball.collisionCooldown)
  {
    var nx, ny, cx, cy := hit.normalX, hit.normalY, hit.cellX, hit.cellY;
    var cellSize := Config.CELL_SIZE;
    var radius := Config.BALL_RADIUS;
    if nx != 0 {
      ball.vx := -ball.vx;
      if nx > 0 {
        ball.x := ((cx + 1) * cellSize + radius + 1) as real;
      } else {
        ball.x := (cx * cellSize - radius - 1) as real;
      }
    }
    if ny != 0 {
      ball.vy := -ball.vy;
      if ny > 0 {
        ball.y := ((cy + 1) * cellSize + radius + 1) as real;
      } else {
        ball.y := (cy * cellSize - radius - 1) as real;
      }
    }
    ball.NormalizeVelocity(currentSpeed);
  }
}
