/**
 * The match controller `LifePong` of lifepong/core/game.py without pygame:
 * input arrives as events already converted to grid coordinates, the pickle
 * file is a stored board that may be absent, and what the frame takes from
 * `math` and `random` arrives as `FrameInputs`. Particles, screen shake and
 * rendering are not modelled.
 */
module Game {
  import opened Wrappers
  import Config
  import opened Life
  import Zones
  import opened Editing
  import opened Grid
  import opened Players
  import opened Balls
  import opened Collision
  import opened States

  /** An input event, with mouse positions already divided by `CELL_SIZE`. */
  datatype Event = Quit | KeySpace | KeyEscape | MouseButtonDown(gridX: int, gridY: int) | MouseButtonUp | OtherEvent

  /**
   * What one frame takes from `math` and `random`: the heading of a reset
   * ball, the cosine/sine table of the eight sample points, and the
   * velocity's length when `accelerate` and the grid response rescale it.
   */
  datatype FrameInputs = FrameInputs(heading: Heading, circle: seq<(real, real)>, accelLength: real, hitLength: real)

  predicate ValidInputs(inputs: FrameInputs) {
    ValidHeading(inputs.heading) && |inputs.circle| == 8 && inputs.accelLength >= 0.0 && inputs.hitLength >= 0.0
  }

  /** Python's `int()` on a float: truncation toward zero. */
  function Trunc(r: real): (t: int)
    ensures r >= 0.0 ==> 0 <= t && t as real <= r < t as real + 1.0
    ensures r < 0.0 ==> t <= 0 && t as real - 1.0 < r <= t as real
  {
    if r >= 0.0 then r.Floor else -((-r).Floor)
  }

  /** The trail after appending `p` and dropping the oldest point once it is longer than `TRAIL_LENGTH`. */
  function TrailAfter(t: seq<(int, int)>, p: (int, int)): (r: seq<(int, int)>)
    ensures |t| <= Config.TRAIL_LENGTH ==> 0 < |r| <= Config.TRAIL_LENGTH
    ensures |r| == if |t| + 1 > Config.TRAIL_LENGTH then |t| else |t| + 1
    ensures r == (t + [p])[|t| + 1 - |r|..]
  {
    var appended := t + [p];
    if |appended| > Config.TRAIL_LENGTH then appended[1..] else appended
  }

  /** The round-restart bank: `min(bank + RESTART_CELLS, MAX_CELLS)`. */
  function TopUp(bank: int): (r: int)
    ensures r <= Config.MAX_CELLS
    ensures bank <= Config.MAX_CELLS - Config.RESTART_CELLS ==> r == bank + Config.RESTART_CELLS
    ensures bank > Config.MAX_CELLS - Config.RESTART_CELLS ==> r == Config.MAX_CELLS
  {
    if bank + Config.RESTART_CELLS < Config.MAX_CELLS then bank + Config.RESTART_CELLS else Config.MAX_CELLS
  }

  /**
   * The cap applies only here: a bank grown past `MAX_CELLS` by removals
   * (which have no cap) is cut back to `MAX_CELLS` when the round restarts.
   */
  lemma TopUpCutsOverfullBank(bank: int)
    requires bank > Config.MAX_CELLS
    ensures TopUp(bank) < bank && TopUp(bank) == Config.MAX_CELLS
  {
  }

  /** A bank in `[0, MAX_CELLS]` stays there and never shrinks. */
  lemma TopUpInRange(bank: int)
    requires 0 <= bank <= Config.MAX_CELLS
    ensures bank <= TopUp(bank) <= Config.MAX_CELLS
  {
  }

  /** The board a round restarts with: the saved one, or an empty one when there is none of the grid's size. */
  function RestoredBoard(saved: Option<Board>): (b: Board)
    ensures IsRect(b, Config.GRID_WIDTH, Config.GRID_HEIGHT)
    ensures saved.Some? && IsRect(saved.value, Config.GRID_WIDTH, Config.GRID_HEIGHT) ==> b == saved.value
    ensures !(saved.Some? && IsRect(saved.value, Config.GRID_WIDTH, Config.GRID_HEIGHT)) ==>
      b == EmptyBoard(Config.GRID_WIDTH, Config.GRID_HEIGHT)
  {
    if saved.Some? && IsRect(saved.value, Config.GRID_WIDTH, Config.GRID_HEIGHT) then saved.value
    else EmptyBoard(Config.GRID_WIDTH, Config.GRID_HEIGHT)
  }

  /**
   * Who scores in a frame that moved the ball to `(x, y)`: leaving on the
   * left scores for the second player (index 1), on the right for the first.
   */
  function ScorerOf(state: GameState, x: real, y: real): (s: Option<nat>)
    ensures s.Some? ==> state == Playing && s.value < 2
    ensures s == Some(1) <==> state == Playing && WallAt(x, y) == Some(Left)
    ensures s == Some(0) <==> state == Playing && WallAt(x, y) == Some(Right)
  {
    if state != Playing then None
    else match WallAt(x, y)
      case Some(Left) => Some(1)
      case Some(Right) => Some(0)
      case _ => None
  }

  const CENTER_X: real := (Config.SCREEN_WIDTH / 2) as real
  const CENTER_Y: real := (Config.SCREEN_HEIGHT / 2) as real

  /** The ball after the move of frame `time`, sped up when `BALL_ACCEL_INTERVAL` divides `time`. */
  function MovedBall(s: BallState, time: int, accelLength: real): BallState {
    if time % Config.BALL_ACCEL_INTERVAL == 0 then Accelerated(Moved(s), Config.BALL_ACCELERATION, accelLength)
    else Moved(s)
  }

  /** The ball grid detection sees in frame `time`, when the frame scores no point. */
  function BallBeforeGrid(s: BallState, time: int, accelLength: real): BallState {
    AfterWalls(MovedBall(s, time, accelLength))
  }

  /**
   * A frame can hit a cell only when the cooldown it starts with is at
   * most 1, since the move ticks it before detection; the hit then arms the
   * full `COLLISION_COOLDOWN`.
   */
  lemma FrameHitArmsCooldown(b: Board, w: nat, h: nat, s: BallState, time: int, accelLength: real,
                             circle: seq<(real, real)>, hitLength: real)
    requires IsRect(b, w, h) && s.cooldown >= 0
    ensures var seen := BallBeforeGrid(s, time, accelLength);
      var r := GridReply(b, w, h, seen, circle);
      r.Some? ==> s.cooldown <= 1 && GridBounced(seen, r.value, hitLength).cooldown == Config.COLLISION_COOLDOWN
  {
  }

  /**
   * A ball whose cooldown was armed `k` frames ago, with `k + 1 < COLLISION_COOLDOWN`,
   * cannot hit a cell in this frame: no two hits lie fewer than
   * `COLLISION_COOLDOWN` frames apart.
   */
  lemma NoHitDuringCooldown(b: Board, w: nat, h: nat, s: BallState, time: int, accelLength: real,
                            circle: seq<(real, real)>, k: nat)
    requires IsRect(b, w, h) && s.cooldown == TickN(Config.COLLISION_COOLDOWN, k) && k + 1 < Config.COLLISION_COOLDOWN
    ensures GridReply(b, w, h, BallBeforeGrid(s, time, accelLength), circle).None?
  {
    TickNValue(Config.COLLISION_COOLDOWN, k);
  }

  class LifePong {
    const grid: LifeGrid
    const ball: Ball
    const players: seq<Player>
    var state: GameState
    var time: int
    var mouseDown: bool
    var placingCells: bool
    var trail: seq<(int, int)>
    /** The saved grid file: absent until a game has been started, unless one was left from before. */
    var saved: Option<Board>

    /** The players' zones, in order. */
    function Zones(): (z: seq<Zone>)
      ensures |z| == |players|
      ensures forall i :: 0 <= i < |players| ==> z[i] == (players[i].zoneStart, players[i].zoneEnd)
    {
      seq(|players|, i requires 0 <= i < |players| => (players[i].zoneStart, players[i].zoneEnd))
    }

    /** The two players' banks, in order. */
    function Banks(): (b: seq<int>)
      reads players
      requires |players| == 2
      ensures |b| == |players|
      ensures forall i :: 0 <= i < |players| ==> b[i] == players[i].cellsRemaining
    {
      [players[0].cellsRemaining, players[1].cellsRemaining]
    }

    /** The two players' scores, in order. */
    function Scores(): (s: seq<int>)
      reads players
      requires |players| == 2
      ensures |s| == |players|
      ensures forall i :: 0 <= i < |players| ==> s[i] == players[i].score
    {
      [players[0].score, players[1].score]
    }

    /**
     * The configured grid, a valid ball, two distinct players with the
     * configured zones, non-negative banks and scores, and a trail no
     * longer than `TRAIL_LENGTH`.
     */
    ghost predicate Valid()
      reads this, grid, ball, players
    {
      && grid.Valid() && grid.width == Config.GRID_WIDTH && grid.height == Config.GRID_HEIGHT
      && grid.maxHealth == Config.CELL_MAX_HEALTH
      && ball.Valid()
      && |players| == 2 && players[0] != players[1]
      && Zones() == ConfiguredZones(Config.GRID_WIDTH, Config.PLACING_WIDTH)
      && (forall i :: 0 <= i < 2 ==> players[i].cellsRemaining >= 0 && players[i].score >= 0)
      && |trail| <= Config.TRAIL_LENGTH
    }

    /** A new match in the placement phase; `saved` is whatever grid file already exists. */
    constructor (saved: Option<Board>)
      ensures Valid() && fresh(grid) && fresh(grid.cells) && fresh(ball)
      ensures state == Placement && time == 0 && !mouseDown && placingCells && trail == []
      ensures grid.Cells() == EmptyBoard(Config.GRID_WIDTH, Config.GRID_HEIGHT)
      ensures Banks() == [Config.STARTING_CELLS, Config.STARTING_CELLS] && Scores() == [0, 0]
      ensures ball.State() == BallState(CENTER_X, CENTER_Y, 0.0, 0.0, Config.BALL_BASE_SPEED, 0)
      ensures players[0].id == 1 && players[1].id == 2
      ensures this.saved == saved
    {
      state := Placement;
      time := 0;
      ball := new Ball(CENTER_X, CENTER_Y);
      trail := [];
      grid := new LifeGrid(Config.GRID_WIDTH, Config.GRID_HEIGHT, 0);
      var first := new Player(1, Config.STARTING_CELLS, 0, Config.PLACING_WIDTH);
      var second := new Player(2, Config.STARTING_CELLS, Config.GRID_WIDTH - Config.PLACING_WIDTH, Config.GRID_WIDTH);
      players := [first, second];
      mouseDown := false;
      placingCells := true;
      this.saved := saved;
      new;
      assert Zones() == [(0, Config.PLACING_WIDTH), (Config.GRID_WIDTH - Config.PLACING_WIDTH, Config.GRID_WIDTH)];
    }

    /** The first player, in list order, whose zone contains column `gridX`, or `null`. */
    method GetPlayerForPosition(gridX: int) returns (p: Player?)
      ensures var o := FirstOwner(Zones(), gridX);
        && (o.None? ==> p == null)
        && (o.Some? ==> o.value < |players| && p == players[o.value])
    {
      for i := 0 to |players|
        invariant forall j :: 0 <= j < i ==> !InZone(Zones()[j], gridX)
      {
        if players[i].IsInZone(gridX) {
          assert InZone(Zones()[i], gridX);
          return players[i];
        }
      }
      return null;
    }

    /**
     * The mode a press at `(gridX, gridY)` leaves when the mode was
     * `current`: on an in-grid cell of some player's zone a live cell chooses
     * remove mode and an empty cell chooses place mode if that player can
     * place; otherwise the mode stays.
     */
    function ChosenMode(gridX: int, gridY: int, current: bool): bool
      reads this, grid, grid.cells, ball, players
      requires Valid()
    {
      var o := FirstOwner(Zones(), gridX);
      if grid.InBounds(gridX, gridY) && o.Some? then
        if grid.IsAlive(gridX, gridY) then false
        else if players[o.value].CanPlace() then true
        else current
      else current
    }

    /** A mouse press at a cell: the button is down from now on and the mode is `ChosenMode`. */
    method HandleMouseDown(gridX: int, gridY: int)
      requires Valid()
      modifies this
      ensures Valid() && mouseDown
      ensures placingCells == ChosenMode(gridX, gridY, old(placingCells))
      ensures state == old(state) && time == old(time) && trail == old(trail) && saved == old(saved)
    {
      mouseDown := true;
      if 0 <= gridX < Config.GRID_WIDTH && 0 <= gridY < Config.GRID_HEIGHT {
        var player := GetPlayerForPosition(gridX);
        if player != null {
          var cellExists := grid.IsAlive(gridX, gridY);
          if cellExists {
            placingCells := false;
          } else if player.CanPlace() {
            placingCells := true;
          }
        }
      }
    }

    /**
     * One drag edit at a cell, as `ApplyEdit` describes for the players'
     * zones and banks; every player's bank plus live cells in their zone is
     * unchanged.
     */
    method HandleCellPlacement(gridX: int, gridY: int)
      requires Valid()
      modifies grid.cells, players
      ensures Valid()
      ensures (grid.Cells(), Banks()) == ApplyEdit(old(grid.Cells()), grid.width, grid.height, Zones(), old(Banks()),
        Edit(placingCells, gridX, gridY), grid.maxHealth)
      ensures Totals(grid.Cells(), Zones(), Banks()) == old(Totals(grid.Cells(), Zones(), Banks()))
      ensures Scores() == old(Scores())
    {
      ghost var b0, banks0 := grid.Cells(), Banks();
      ConfiguredZonesDisjoint(Config.GRID_WIDTH, Config.PLACING_WIDTH);
      ApplyEditConserves(b0, grid.width, grid.height, Zones(), banks0, Edit(placingCells, gridX, gridY), grid.maxHealth);
      ApplyEditKeepsBanks(b0, grid.width, grid.height, Zones(), banks0, Edit(placingCells, gridX, gridY), grid.maxHealth);
      if !(0 <= gridX < Config.GRID_WIDTH && 0 <= gridY < Config.GRID_HEIGHT) {
        return;
      }
      var player := GetPlayerForPosition(gridX);
      if player == null {
        return;
      }
      EditOwned(player, FirstOwner(Zones(), gridX).value, gridX, gridY);
    }

    /** The edit of `HandleCellPlacement` for the cell's owner `players[o]`. */
    method EditOwned(player: Player, ghost o: nat, gridX: int, gridY: int)
      requires Valid() && grid.InBounds(gridX, gridY) && o < |players| && player == players[o]
      modifies grid.cells, player
      ensures grid.Valid()
      ensures var r := EditCell(old(grid.Cells()), old(player.cellsRemaining), placingCells, gridX, gridY, grid.maxHealth);
        grid.Cells() == r.0 && Banks() == old(Banks())[o := r.1]
      ensures Scores() == old(Scores())
    {
      if placingCells && !grid.IsAlive(gridX, gridY) {
        var ok := player.PlaceCell();
        if ok {
          var _ := grid.PlaceCell(gridX, gridY);
        }
      } else if !placingCells && grid.IsAlive(gridX, gridY) {
        var _ := grid.SetCell(gridX, gridY, 0);
        player.RemoveCell();
      }
    }

    /** Saves the grid as the file, starts play and serves the ball from the centre. */
    method StartGame(heading: Heading)
      requires Valid() && ValidHeading(heading)
      modifies this, ball
      ensures Valid()
      ensures saved == Some(old(grid.Cells())) && state == Playing
      ensures ball.State() == ResetState(CENTER_X, CENTER_Y, heading)
      ensures time == old(time) && mouseDown == old(mouseDown) && placingCells == old(placingCells) && trail == old(trail)
    {
      var snapshot := grid.Save();
      BoardEq(snapshot, grid.Cells(), grid.width, grid.height);
      saved := Some(snapshot);
      state := Playing;
      ball.Reset(CENTER_X, CENTER_Y, heading);
    }

    /** Tops every bank up to `min(bank + RESTART_CELLS, MAX_CELLS)`. */
    method TopUpBanks()
      requires Valid()
      modifies players
      ensures Valid()
      ensures forall i :: 0 <= i < |players| ==> players[i].cellsRemaining == TopUp(old(players[i].cellsRemaining))
      ensures Scores() == old(Scores())
    {
      for i := 0 to |players|
        invariant forall j :: 0 <= j < i ==> players[j].cellsRemaining == TopUp(old(players[j].cellsRemaining))
        invariant forall j :: i <= j < |players| ==> players[j].cellsRemaining == old(players[j].cellsRemaining)
        invariant forall j :: 0 <= j < |players| ==> players[j].score == old(players[j].score)
      {
        var player := players[i];
        player.cellsRemaining := TopUp(player.cellsRemaining);
      }
    }

    /**
     * A new round after a point: the grid is the saved one (or empty), the
     * ball is served again, the trail is cleared, play returns to placement
     * and every bank is topped up.
     */
    method ResetRound(heading: Heading)
      requires Valid() && ValidHeading(heading)
      modifies this, grid, ball, players
      ensures Valid() && fresh(grid.cells)
      ensures grid.Cells() == RestoredBoard(saved)
      ensures state == Placement && trail == []
      ensures ball.State() == ResetState(CENTER_X, CENTER_Y, heading)
      ensures forall i :: 0 <= i < |players| ==> players[i].cellsRemaining == TopUp(old(players[i].cellsRemaining))
      ensures Scores() == old(Scores())
      ensures saved == old(saved) && time == old(time) && mouseDown == old(mouseDown) && placingCells == old(placingCells)
    {
      ball.Reset(CENTER_X, CENTER_Y, heading);
      trail := [];
      state := Placement;
      TopUpBanks();
      RestoreGrid();
    }

    /** `grid.reset()` then `grid.load()`: the saved board when there is one of the grid's size, else an empty one. */
    method RestoreGrid()
      requires Valid()
      modifies grid
      ensures Valid() && fresh(grid.cells)
      ensures grid.Cells() == RestoredBoard(saved)
    {
      grid.Reset();
      var _ := grid.Load(saved);
    }

    /**
     * One input event. Quit and Escape end the loop; Space starts the game
     * from placement only; a press acts only in placement; a release lifts
     * the button.
     */
    method HandleEvent(e: Event, heading: Heading) returns (running: bool)
      requires Valid() && ValidHeading(heading)
      modifies this, ball
      ensures Valid()
      ensures running <==> !(e.Quit? || e.KeyEscape?)
      ensures e.KeySpace? && old(state) == Placement ==> state == Playing && saved == Some(old(grid.Cells()))
      ensures e.KeySpace? && old(state) == Placement ==> ball.State() == ResetState(CENTER_X, CENTER_Y, heading)
      ensures state == Playing && old(state) != Playing ==> old(state) == Placement && e.KeySpace?
      ensures e.MouseButtonUp? ==> !mouseDown
      ensures e.MouseButtonDown? && old(state) == Placement ==> mouseDown && placingCells == ChosenMode(e.gridX, e.gridY, old(placingCells))
      ensures !(e.KeySpace? && old(state) == Placement) ==> state == old(state) && saved == old(saved) && unchanged(ball)
      ensures !(e.MouseButtonDown? && old(state) == Placement) ==> placingCells == old(placingCells)
      ensures !e.MouseButtonUp? && !(e.MouseButtonDown? && old(state) == Placement) ==> mouseDown == old(mouseDown)
      ensures time == old(time) && trail == old(trail)
    {
      match e {
        case Quit =>
          return false;
        case KeySpace =>
          if state == Placement {
            StartGame(heading);
          }
        case KeyEscape =>
          return false;
        case MouseButtonDown(gridX, gridY) =>
          if state == Placement {
            HandleMouseDown(gridX, gridY);
          }
        case MouseButtonUp =>
          mouseDown := false;
        case OtherEvent =>
      }
      return true;
    }

    /** The drag step after the events of a frame: an edit at the pointer while the button is down in placement. */
    method Drag(gridX: int, gridY: int)
      requires Valid()
      modifies grid.cells, players
      ensures Valid()
      ensures (grid.Cells(), Banks()) ==
        if mouseDown && state == Placement then
          ApplyEdit(old(grid.Cells()), grid.width, grid.height, Zones(), old(Banks()), Edit(placingCells, gridX, gridY), grid.maxHealth)
        else (old(grid.Cells()), old(Banks()))
      ensures Totals(grid.Cells(), Zones(), Banks()) == old(Totals(grid.Cells(), Zones(), Banks()))
      ensures Scores() == old(Scores())
    {
      if mouseDown && state == Placement {
        HandleCellPlacement(gridX, gridY);
      }
    }

    /**
     * The start of a playing frame: the clock advances, the ball moves, the
     * trail gains its new position, and every `BALL_ACCEL_INTERVAL` frames
     * the ball speeds up.
     */
    method MoveBall(accelLength: real)
      requires Valid() && accelLength >= 0.0
      modifies this, ball
      ensures Valid()
      ensures ball.State() == MovedBall(old(ball.State()), time, accelLength)
      ensures trail == TrailAfter(old(trail), (Trunc(old(ball.x) + old(ball.vx)), Trunc(old(ball.y) + old(ball.vy))))
      ensures state == old(state) && time == old(time) + 1 && saved == old(saved)
      ensures mouseDown == old(mouseDown) && placingCells == old(placingCells)
    {
      time := time + 1;
      ball.Update();
      trail := TrailAfter(trail, (Trunc(ball.x), Trunc(ball.y)));
      if time % Config.BALL_ACCEL_INTERVAL == 0 {
        ball.Accelerate(Config.BALL_ACCELERATION, accelLength);
      }
    }

    /**
     * The grid's part of a playing frame: the first grid hit, if any, is
     * answered, and every `LIFE_UPDATE_INTERVAL` frames the grid advances
     * one generation. `hit` is the hit and `beforeLife` the board just
     * before the generation step.
     */
    method GridPhase(circle: seq<(real, real)>, hitLength: real) returns (ghost hit: Option<GridHit>, ghost beforeLife: Board)
      requires Valid() && |circle| == 8 && hitLength >= 0.0
      modifies grid, grid.cells, ball
      ensures Valid()
      ensures hit == GridReply(old(grid.Cells()), grid.width, grid.height, old(ball.State()), circle)
      ensures hit.None? ==> beforeLife == old(grid.Cells()) && unchanged(ball)
      ensures hit.Some? ==> beforeLife == DamageResult(old(grid.Cells()), grid.width, grid.height,
        hit.value.cellX, hit.value.cellY, CalculateDamage(old(ball.speed), Config.BALL_DAMAGE_SPEED_BONUS)).board
      ensures hit.Some? ==> ball.State() == GridBounced(old(ball.State()), hit.value, hitLength)
      ensures grid.Cells() == if time % Config.LIFE_UPDATE_INTERVAL == 0 then Step(beforeLife, grid.width, grid.height, grid.maxHealth) else beforeLife
    {
      var found := CheckGridCollision(ball, grid, circle);
      hit := found;
      if found.Some? {
        var destroyed, cx, cy := HandleGridCollision(ball, grid, found.value, hitLength);
      }
      beforeLife := grid.Cells();
      if time % Config.LIFE_UPDATE_INTERVAL == 0 {
        grid.Update();
      }
    }

    /** Player `who` scores a point and the round restarts. */
    method ScorePoint(who: nat, heading: Heading)
      requires Valid() && ValidHeading(heading) && who < |players|
      modifies this, grid, ball, players
      ensures Valid()
      ensures forall i :: 0 <= i < |players| ==> players[i].score == old(players[i].score) + (if i == who then 1 else 0)
      ensures state == Placement && trail == [] && grid.Cells() == RestoredBoard(saved)
      ensures ball.State() == ResetState(CENTER_X, CENTER_Y, heading)
      ensures forall i :: 0 <= i < |players| ==> players[i].cellsRemaining == TopUp(old(players[i].cellsRemaining))
      ensures saved == old(saved) && time == old(time) && mouseDown == old(mouseDown) && placingCells == old(placingCells)
    {
      players[who].score := players[who].score + 1;
      ghost var scored := Scores();
      ResetRound(heading);
      assert Scores() == scored;
    }

    /**
     * The walls' part of a playing frame: top and bottom bounce the ball;
     * leaving on the left scores for the second player and on the right for
     * the first, and then the round restarts.
     */
    method WallPhase(heading: Heading) returns (scorer: Option<nat>)
      requires Valid() && ValidHeading(heading) && state == Playing
      modifies this, grid, ball, players
      ensures Valid()
      ensures scorer == ScorerOf(Playing, old(ball.x), old(ball.y))
      ensures forall i :: 0 <= i < |players| ==> players[i].score == old(players[i].score) + (if scorer == Some(i) then 1 else 0)
      ensures scorer.Some? ==> state == Placement && trail == [] && grid.Cells() == RestoredBoard(saved)
      ensures scorer.Some? ==> ball.State() == ResetState(CENTER_X, CENTER_Y, heading)
      ensures scorer.Some? ==> forall i :: 0 <= i < |players| ==> players[i].cellsRemaining == TopUp(old(players[i].cellsRemaining))
      ensures scorer.None? ==> state == Playing && trail == old(trail) && grid.cells == old(grid.cells) && grid.Cells() == old(grid.Cells())
      ensures scorer.None? ==> Banks() == old(Banks()) && ball.State() == AfterWalls(old(ball.State()))
      ensures saved == old(saved) && time == old(time) && mouseDown == old(mouseDown) && placingCells == old(placingCells)
    {
      var wall := CheckWallCollision(ball);
      if wall == Some(Top) || wall == Some(Bottom) {
        HandleWallCollision(ball, wall.value);
        scorer := None;
      } else if wall == Some(Left) {
        ScorePoint(1, heading);
        scorer := Some(1);
      } else if wall == Some(Right) {
        ScorePoint(0, heading);
        scorer := Some(0);
      } else {
        scorer := None;
      }
    }

    /**
     * The walls and then the grid, for a ball that has just moved: a point
     * resets the round and ends the frame; otherwise grid detection sees the
     * ball after any top or bottom bounce.
     */
    method Collide(inputs: FrameInputs) returns (scorer: Option<nat>, ghost hit: Option<GridHit>, ghost beforeLife: Board)
      requires Valid() && ValidInputs(inputs) && state == Playing
      modifies this, grid, grid.cells, ball, players
      ensures Valid()
      ensures time == old(time) && saved == old(saved) && mouseDown == old(mouseDown) && placingCells == old(placingCells)
      ensures scorer == ScorerOf(Playing, old(ball.x), old(ball.y))
      ensures forall i :: 0 <= i < |players| ==> players[i].score == old(players[i].score) + (if scorer == Some(i) then 1 else 0)
      ensures scorer.Some? ==> state == Placement && trail == [] && grid.Cells() == RestoredBoard(saved)
      ensures scorer.Some? ==> ball.State() == ResetState(CENTER_X, CENTER_Y, inputs.heading) && hit.None?
      ensures scorer.Some? ==> forall i :: 0 <= i < |players| ==> players[i].cellsRemaining == TopUp(old(players[i].cellsRemaining))
      ensures scorer.None? ==> state == Playing && Banks() == old(Banks()) && trail == old(trail)
      ensures scorer.None? ==> hit == GridReply(old(grid.Cells()), grid.width, grid.height, AfterWalls(old(ball.State())), inputs.circle)
      ensures scorer.None? ==> (ball.State() ==
        if hit.Some? then GridBounced(AfterWalls(old(ball.State())), hit.value, inputs.hitLength) else AfterWalls(old(ball.State())))
      ensures scorer.None? && hit.None? ==> beforeLife == old(grid.Cells())
      ensures scorer.None? && hit.Some? ==> (beforeLife ==
        DamageResult(old(grid.Cells()), grid.width, grid.height, hit.value.cellX, hit.value.cellY,
          CalculateDamage(ball.speed, Config.BALL_DAMAGE_SPEED_BONUS)).board)
      ensures scorer.None? ==> (grid.Cells() ==
        (if time % Config.LIFE_UPDATE_INTERVAL == 0 then Step(beforeLife, grid.width, grid.height, grid.maxHealth) else beforeLife))
    {
      scorer := WallPhase(inputs.heading);
      if scorer.Some? {
        return scorer, None, grid.Cells();
      }
      hit, beforeLife := GridPhase(inputs.circle, inputs.hitLength);
    }

    /** A frame in play: the clock advances, the ball moves, then the walls and the grid take their turns. */
    method PlayFrame(inputs: FrameInputs) returns (scorer: Option<nat>, ghost hit: Option<GridHit>, ghost beforeLife: Board)
      requires Valid() && ValidInputs(inputs) && state == Playing
      modifies this, grid, grid.cells, ball, players
      ensures Valid()
      ensures time == old(time) + 1 && saved == old(saved) && mouseDown == old(mouseDown) && placingCells == old(placingCells)
      ensures scorer == ScorerOf(Playing, old(ball.x) + old(ball.vx), old(ball.y) + old(ball.vy))
      ensures forall i :: 0 <= i < |players| ==> players[i].score == old(players[i].score) + (if scorer == Some(i) then 1 else 0)
      ensures scorer.Some? ==> state == Placement && trail == [] && grid.Cells() == RestoredBoard(saved)
      ensures scorer.Some? ==> ball.State() == ResetState(CENTER_X, CENTER_Y, inputs.heading) && hit.None?
      ensures scorer.Some? ==> forall i :: 0 <= i < |players| ==> players[i].cellsRemaining == TopUp(old(players[i].cellsRemaining))
      ensures scorer.None? ==> state == Playing && Banks() == old(Banks())
      ensures scorer.None? ==> trail == TrailAfter(old(trail), (Trunc(old(ball.x) + old(ball.vx)), Trunc(old(ball.y) + old(ball.vy))))
      ensures scorer.None? ==> (hit ==
        GridReply(old(grid.Cells()), grid.width, grid.height, BallBeforeGrid(old(ball.State()), time, inputs.accelLength), inputs.circle))
      ensures scorer.None? ==> (ball.State() ==
        var seen := BallBeforeGrid(old(ball.State()), time, inputs.accelLength);
        if hit.Some? then GridBounced(seen, hit.value, inputs.hitLength) else seen)
      ensures scorer.None? && hit.None? ==> beforeLife == old(grid.Cells())
      ensures scorer.None? && hit.Some? ==> (beforeLife ==
        DamageResult(old(grid.Cells()), grid.width, grid.height, hit.value.cellX, hit.value.cellY,
          CalculateDamage(ball.speed, Config.BALL_DAMAGE_SPEED_BONUS)).board)
      ensures scorer.None? ==> (grid.Cells() ==
        (if time % Config.LIFE_UPDATE_INTERVAL == 0 then Step(beforeLife, grid.width, grid.height, grid.maxHealth) else beforeLife))
    {
      MoveBall(inputs.accelLength);
      scorer, hit, beforeLife := Collide(inputs);
    }

    /**
     * One frame. The clock always advances; outside play nothing else
     * changes. In play the ball moves (and speeds up every
     * `BALL_ACCEL_INTERVAL` frames); top and bottom walls bounce it; leaving
     * on the left scores for the second player and on the right for the
     * first, and the round restarts at once with no grid hit or generation
     * step in that frame; otherwise a grid hit is answered and every
     * `LIFE_UPDATE_INTERVAL` frames the grid advances one generation.
     * `scorer`, `hit` and `beforeLife` name what happened.
     */
    method Update(inputs: FrameInputs) returns (ghost scorer: Option<nat>, ghost hit: Option<GridHit>, ghost beforeLife: Board)
      requires Valid() && ValidInputs(inputs)
      modifies this, grid, grid.cells, ball, players
      ensures Valid()
      ensures time == old(time) + 1 && saved == old(saved)
      ensures mouseDown == old(mouseDown) && placingCells == old(placingCells)
      ensures old(state) != Playing ==>
        state == old(state) && trail == old(trail) && unchanged(ball) && grid.cells == old(grid.cells)
        && grid.Cells() == old(grid.Cells()) && Banks() == old(Banks())
      ensures scorer == ScorerOf(old(state), old(ball.x) + old(ball.vx), old(ball.y) + old(ball.vy))
      ensures forall i :: 0 <= i < |players| ==> players[i].score == old(players[i].score) + (if scorer == Some(i) then 1 else 0)
      ensures scorer.Some? ==> state == Placement && trail == [] && grid.Cells() == RestoredBoard(saved)
      ensures scorer.Some? ==> ball.State() == ResetState(CENTER_X, CENTER_Y, inputs.heading) && hit.None?
      ensures scorer.Some? ==> forall i :: 0 <= i < |players| ==> players[i].cellsRemaining == TopUp(old(players[i].cellsRemaining))
      ensures old(state) == Playing && scorer.None? ==> state == Playing && Banks() == old(Banks())
      ensures old(state) == Playing && scorer.None? ==>
        trail == TrailAfter(old(trail), (Trunc(old(ball.x) + old(ball.vx)), Trunc(old(ball.y) + old(ball.vy))))
      ensures old(state) == Playing && scorer.None? ==> (hit ==
        GridReply(old(grid.Cells()), grid.width, grid.height, BallBeforeGrid(old(ball.State()), time, inputs.accelLength), inputs.circle))
      ensures old(state) == Playing && scorer.None? ==> (ball.State() ==
        var seen := BallBeforeGrid(old(ball.State()), time, inputs.accelLength);
        if hit.Some? then GridBounced(seen, hit.value, inputs.hitLength) else seen)
      ensures old(state) == Playing && scorer.None? && hit.None? ==> beforeLife == old(grid.Cells())
      ensures old(state) == Playing && scorer.None? && hit.Some? ==> (beforeLife ==
        DamageResult(old(grid.Cells()), grid.width, grid.height, hit.value.cellX, hit.value.cellY,
          CalculateDamage(ball.speed, Config.BALL_DAMAGE_SPEED_BONUS)).board)
      ensures old(state) == Playing && scorer.None? ==> (grid.Cells() ==
        (if time % Config.LIFE_UPDATE_INTERVAL == 0 then Step(beforeLife, grid.width, grid.height, grid.maxHealth) else beforeLife))
    {
      if state != Playing {
        time := time + 1;
        return None, None, grid.Cells();
      }
      scorer, hit, beforeLife := PlayFrame(inputs);
    }
  }
}
