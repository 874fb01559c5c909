# LifePong engine in Dafny

LifePong is Pong played across a Conway Game of Life board. In the
placement phase two players drag live cells into their own column zones,
paying for each one out of a cell bank. In play the ball bounces off the
top and bottom walls and off live cells, damaging them, while the board
evolves every few frames. The ball leaving on the left or right scores a
point, and then the round restarts from the board saved at the start of
play.

This project models the simulation engine of both versions of the game,
without any drawing, and proves properties of the model.

The newer, packaged version has these parts:
- the health grid (`lifepong/entities/grid.py`), a `LifeGrid` class over an `array2<int>`;
- the player (`lifepong/entities/player.py`);
- the ball (`lifepong/entities/ball.py`);
- the collision rules (`lifepong/systems/collision.py`);
- the match controller (`lifepong/core/game.py`), a `LifePong` class owning the grid, the ball and both players;
- the game states (`lifepong/core/states.py`);
- the configuration (`lifepong/config/settings.py`).

The older version is the single file `LifePong/Game.py`.

Both versions share one value-level specification:
- `Life` states Conway's rule on a wrapping board;
- `Zones` counts live cells in a column range;
- `Editing` states drag editing and the conservation of "bank plus live cells in the zone".

The imperative members are proved against that specification. The older
version is shown to be the newer one on 0/1 boards with full health 1
(`Legacy.LegacyStepIsStep`, `Legacy.DragIsApplyEdit`).

Modules, one per file:
- `Wrappers`: `Option`.
- `Config`: the settings.
- `Life`: boards, the wrapping neighbour count and one generation.
- `Zones`: live cells per zone, and how one write changes the count.
- `Grid`: the `LifeGrid` class.
- `Players`: the `Player` class.
- `Balls`: the `Ball` class and the cooldown countdown.
- `Collision`: damage, walls, grid hits, and the wall and grid responses.
- `Editing`: zone ownership and edit sessions.
- `States`: `GameState`.
- `Game`: the `LifePong` controller.
- `Legacy`: the older version.

The functions `math` and `random` supply in the source are parameters here:
- the heading of a reset ball (`Balls.Heading`);
- the cosine/sine table of the eight collision sample points;
- the square root that `normalize_velocity` takes of the velocity.

`Game.FrameInputs` bundles these for one frame. Input events reach the
controller already divided by `CELL_SIZE`, as grid coordinates. The
pickled save file is a stored `Option<Board>`, where `None` means no file.

A frame of `update` is split into `MoveBall`, `WallPhase` and `GridPhase`
(the last two joined by `Collide`). In play the clock's `time += 1` happens
inside `MoveBall`, before the ball moves, which is the order of the source.
The ball is stated as one `Balls.BallState` value. The frame contracts give
it as functions of the ball before the frame: `MovedBall`, `AfterWalls`,
`GridBounced` and `ResetState`.

## Model

| member | source | states |
|---|---|---|
| Life.StepRule | lifepong/entities/grid.py:92-109 | per cell: a live cell with 2 or 3 live neighbours keeps its health, a dead cell with exactly 3 gets full health, every other cell becomes 0; neighbours are read from the old board only |
| Life.NeighborCount | lifepong/entities/grid.py:78-90 | the count of live cells among the 8 neighbours, wrapping on both axes, is at most 8 |
| Life.NextHealth | lifepong/entities/grid.py:98-107 | the next health of one cell is 0, its own health or full health; a live cell that stays live keeps its health, and a neighbour count other than 2 or 3 always gives 0 |
| Life.Step | lifepong/entities/grid.py:92-109 | one generation is a board of the same size; what each cell becomes is stated by `StepRule` |
| Life.LiveAmongStep | lifepong/entities/grid.py:81-89 | step `3(dy+1)+(dx+1)` of the double loop adds 1 exactly when the neighbour at `((x+dx) mod w, (y+dy) mod h)` is live, and the centre adds nothing |
| Life.CountIgnoresHealth | lifepong/entities/grid.py:87-89 | the neighbour count depends only on which cells are live, not on their health |
| Life.StepKeepsHealthRange | lifepong/entities/grid.py:92-109 | a generation keeps every cell in `[0, max_health]` |
| Life.IsolatedCellDies | lifepong/entities/grid.py:92-109 | a live cell with no live neighbour is 0 after a generation |
| Life.SingleCellDies | lifepong/entities/grid.py:92-109 | a board of at least 3x3 with exactly one live cell is all 0 after a generation: the live cell's 8 wrapped neighbours are 8 other cells, and every other cell sees it at most once |
| Life.SingleLiveSeenOnce | lifepong/entities/grid.py:81-89 | on a board of at least 3x3 with one live cell, a cell sees it at most once among its 8 neighbours, and only where some step visits it |
| Zones.ZoneLiveAfterSet | lifepong/entities/grid.py:48-53 | writing one cell changes a zone's live count by exactly the change in that cell's liveness, and not at all outside the zone |
| Grid.EmptyBoard | lifepong/entities/grid.py:23-25 | `height` rows of `width` zeros |
| Grid.DamageResult | lifepong/entities/grid.py:62-76 | out of range or on a dead cell: not hit, not destroyed, board unchanged; on a live cell of health `h`: hit, destroyed iff `damage >= h`, health becomes `max(0, h - damage)` and no other cell changes |
| Grid.DamageKeepsHealthRange | lifepong/entities/grid.py:62-76 | with non-negative damage the board stays in `[0, max_health]` |
| Grid.DamageZoneLive | lifepong/entities/grid.py:62-76 | a zone's live count drops by exactly 1 when the damaged cell is destroyed inside it, and is unchanged otherwise |
| Grid.LifeGrid.constructor | lifepong/entities/grid.py:17-21 | an empty board of the given size; a missing (0) maximum health means `CELL_MAX_HEALTH` |
| Grid.LifeGrid.Reset | lifepong/entities/grid.py:27-29 | every cell 0, dimensions kept |
| Grid.LifeGrid.GetCell | lifepong/entities/grid.py:31-35 | the cell's health in range, 0 out of range |
| Grid.LifeGrid.IsAlive | lifepong/entities/grid.py:37-39 | alive iff in range and health > 0, so never out of range |
| Grid.LifeGrid.GetHealthRatio | lifepong/entities/grid.py:41-46 | 0 for a dead or out-of-range cell, `health / max_health` otherwise, so in `[0, 1]` on a board within range |
| Grid.LifeGrid.SetCell | lifepong/entities/grid.py:48-53 | true and only cell `(x, y)` changed in range; false and nothing changed out of range |
| Grid.LifeGrid.PlaceCell | lifepong/entities/grid.py:55-60 | as `SetCell`, writing exactly `max_health` |
| Grid.LifeGrid.DamageCell | lifepong/entities/grid.py:62-76 | the flags and the new board are `DamageResult` of the old board |
| Grid.LifeGrid.CountNeighbors | lifepong/entities/grid.py:78-90 | the loop's count is `NeighborCount` of the current board |
| Grid.LifeGrid.NextValue | lifepong/entities/grid.py:98-107 | the value the update loop writes for one cell is that cell of `Step` |
| Grid.LifeGrid.FillRow | lifepong/entities/grid.py:97-107 | one pass of the inner loop fills row `y` of the new buffer with that row of `Step` and leaves other rows alone |
| Grid.LifeGrid.Update | lifepong/entities/grid.py:92-109 | the board becomes `Step` of the old board, computed in a fresh buffer |
| Grid.LifeGrid.Save | lifepong/entities/grid.py:111-119 | the snapshot is the current board |
| Grid.LifeGrid.Load | lifepong/entities/grid.py:121-132 | a stored board of the grid's size replaces the cells and reports success; no stored board keeps the cells and reports failure |
| Players.PlaceResult | lifepong/entities/player.py:26-31 | succeeds iff the bank is positive, then takes exactly 1; otherwise the bank is unchanged |
| Players.PlaceKeepsBankNonNegative | lifepong/entities/player.py:26-31 | a bank that is not negative stays not negative |
| Players.PlaceThenRemoveRestores | lifepong/entities/player.py:26-35 | a successful place followed by a remove restores the bank |
| Players.Player.constructor | lifepong/entities/player.py:7-16 | the given id, bank and zone, and score 0 |
| Players.Player.CanPlace | lifepong/entities/player.py:18-20 | a cell can be placed iff the bank is positive; `PlaceCell` reports exactly this |
| Players.Player.IsInZone | lifepong/entities/player.py:22-24 | the column lies in the half-open zone `[zone_start, zone_end)`; `FirstOwner` is proved to pick zones by this test |
| Players.Player.PlaceCell | lifepong/entities/player.py:18-31 | returns `can_place()` (bank > 0) and updates the bank as `PlaceResult`; the score is untouched, and id and zone are constants |
| Players.Player.RemoveCell | lifepong/entities/player.py:33-35 | the bank rises by exactly 1 with no cap; the score is untouched |
| Balls.Min | lifepong/entities/ball.py:61 | Python's `min`: no greater than either argument and equal to one of them |
| Balls.Tick | lifepong/entities/ball.py:68-69 | the cooldown drops by 1 when positive and stays put otherwise |
| Balls.TickNValue | lifepong/entities/ball.py:68-69 | after `n` frames a cooldown `c >= 0` is `max(0, c - n)`, so never negative |
| Balls.CooldownExpires | lifepong/entities/ball.py:68-77 | after `set_collision_cooldown` the ball can collide again after exactly `COLLISION_COOLDOWN` updates and not before |
| Balls.ResetState | lifepong/entities/ball.py:27-38 | the ball `reset` leaves, as one value; `Ball.Reset` is proved to produce it |
| Balls.Moved | lifepong/entities/ball.py:64-69 | the ball `update` leaves, as one value: moved by its velocity, cooldown ticked, velocity and speed kept |
| Balls.Accelerated | lifepong/entities/ball.py:50-62 | the ball `accelerate` leaves, as one value: speed `min(speed + amount, BALL_MAX_SPEED)` and the velocity rescaled from the given length |
| Balls.Ball.constructor | lifepong/entities/ball.py:18-25 | the given position, zero velocity, base speed, cooldown 0 |
| Balls.Ball.Reset | lifepong/entities/ball.py:27-38 | the given position, base speed, cooldown 0, and velocity `(dir * speed * cos a, speed * sin a * sign)` for the given heading |
| Balls.Ball.GetCollisionPoints | lifepong/entities/ball.py:40-48 | exactly 8 points; point `i` is the centre plus `BALL_RADIUS` times entry `i` of the table of angles 0, 45, ..., 315 degrees |
| Balls.Ball.NormalizeVelocity | lifepong/entities/ball.py:50-55 | with a positive current length both components are divided by it and multiplied by `speed`; with length 0 nothing changes |
| Balls.Ball.Accelerate | lifepong/entities/ball.py:57-62 | speed becomes `min(speed + amount, BALL_MAX_SPEED)`, so for `amount >= 0` it never falls and never exceeds the maximum; then the velocity is rescaled |
| Balls.Ball.Update | lifepong/entities/ball.py:64-69 | position moves by the velocity and the cooldown ticks |
| Balls.Ball.CanCollide | lifepong/entities/ball.py:71-73 | a new collision can register iff the cooldown is 0; grid detection answers nothing otherwise (`Collision.GridReplyIsFirstLive`) |
| Balls.Ball.SetCollisionCooldown | lifepong/entities/ball.py:75-77 | the cooldown is exactly `COLLISION_COOLDOWN` and nothing else changes |
| Collision.CalculateDamage | lifepong/systems/collision.py:17-26 | `BALL_DAMAGE_BASE` without the speed bonus; with it, one more above 0.7 of the maximum speed and another above 0.9, so in `[base, base + 2]` |
| Collision.DamageMonotone | lifepong/systems/collision.py:17-26 | damage never decreases as speed grows |
| Collision.WallAt | lifepong/systems/collision.py:28-45 | top, then bottom, then left, then right, each chosen iff its test holds and no earlier one does; none iff the ball is strictly inside on all four sides |
| Collision.CheckWallCollision | lifepong/systems/collision.py:28-45 | the wall test of the ball's current position, which is `WallAt` |
| Collision.HandleWallCollision | lifepong/systems/collision.py:47-56 | top: `y = r`, `vy = abs(vy)`; bottom: `y = H - r`, `vy = -abs(vy)`; left or right: nothing; `x`, `vx`, speed and cooldown never change |
| Collision.WallBounced | lifepong/systems/collision.py:47-56 | the same response on a ball value: top puts the ball at `y = r` moving down, bottom at `y = H - r` moving up, side walls change nothing; `HandleWallCollision` is proved to produce it |
| Collision.AfterWalls | lifepong/core/game.py:198-203 | a ball value after the frame's wall test and its top or bottom response |
| Collision.CellIndex | lifepong/systems/collision.py:71-72 | the floor division of a coordinate by `CELL_SIZE` |
| Collision.Normal | lifepong/systems/collision.py:76-88 | horizontal with the sign of `dx` iff `abs(dx) > abs(dy)`, otherwise vertical, `+1` iff `dy > 0` |
| Collision.TieIsVertical | lifepong/systems/collision.py:83-88 | equal distances, including the centre itself, give a vertical normal, `-1` when `dy <= 0` |
| Collision.GridReply | lifepong/systems/collision.py:58-92 | no reply while the cooldown runs; otherwise the first sample point, in order, that lands on a live cell, with that cell and its normal |
| Collision.FirstLiveFromIsFirst | lifepong/systems/collision.py:70-92 | the search from point `i` on answers the first live point at or after `i`, and none iff no point from `i` on is live |
| Collision.GridReplyIsFirstLive | lifepong/systems/collision.py:58-92 | no reply under cooldown; with the cooldown at 0, none iff no sample point lands on a live cell; a reply names an in-range live cell and the first live point, with `HitFor`'s normal |
| Collision.CheckGridCollision | lifepong/systems/collision.py:58-92 | the loop over the 8 sample points returns exactly `GridReply` of the current board and ball |
| Collision.Bounce | lifepong/systems/collision.py:110-132 | a non-zero normal component negates that velocity component and pushes the ball one pixel past the cell's side; a zero component leaves that axis alone; then the velocity is rescaled |
| Collision.PushOut | lifepong/systems/collision.py:111-124 | for a positive normal the ball's edge lies beyond the cell's far side, for a negative one before its near side, and a zero normal leaves the coordinate alone |
| Collision.Bounced | lifepong/systems/collision.py:111-132 | with a positive length and speed, a non-zero normal reverses the direction of that component and a zero one keeps it; with length 0 the component is only reflected |
| Collision.GridBounced | lifepong/systems/collision.py:94-137 | the ball `handle_grid_collision` leaves, as one value: pushed out and reflected per axis, rescaled, with the cooldown armed; `HandleGridCollision` is proved to produce it |
| Collision.HandleGridCollision | lifepong/systems/collision.py:94-137 | exactly one `damage_cell` at the hit cell with `calculate_damage` of the ball, its destroyed flag and the cell returned, the bounce as `Bounce`, and the cooldown set to `COLLISION_COOLDOWN` |
| Editing.FirstOwner | lifepong/core/game.py:76-81 | the first zone, in player order, containing the column, and none iff no zone contains it |
| Editing.EditCell | lifepong/core/game.py:143-149 | one edit keeps the board's shape; what it does to the bank and cells is stated by `EditConserves`, `EditOutsideZone` and `EditKeepsBank` |
| Editing.ConfiguredOwners | lifepong/core/game.py:54-69 | with zones `[0, 40)` and `[80, 120)` columns 0..39 are the first player's, 80..119 the second's, and every other column is no one's |
| Editing.ConfiguredZonesDisjoint | lifepong/core/game.py:54-69 | the two configured zones share no column |
| Editing.EditConserves | lifepong/core/game.py:143-149 | one edit keeps its owner's bank plus the live cells of the owner's zone |
| Editing.EditOutsideZone | lifepong/core/game.py:143-149 | one edit leaves every other zone's live count alone |
| Editing.EditKeepsBank | lifepong/core/game.py:143-149 | one edit never makes a bank negative |
| Editing.ApplyEdit | lifepong/core/game.py:131-149 | an edit at a cell, applied by the cell's owner, keeps the board's size and the number of banks; its conservation laws are `ApplyEditConserves` and `ApplyEditKeepsBanks` |
| Editing.ApplyEditConserves | lifepong/core/game.py:131-149 | with disjoint zones one edit keeps every player's bank plus zone cells |
| Editing.ApplyEditKeepsBanks | lifepong/core/game.py:131-149 | one edit keeps every bank non-negative |
| Editing.SessionConserves | lifepong/core/game.py:131-149 | across any sequence of edits every player's bank plus zone cells is constant |
| Editing.SessionKeepsBanks | lifepong/core/game.py:131-149 | across any sequence of edits no bank goes negative |
| Game.Trunc | lifepong/core/game.py:190 | Python's `int()`: truncation toward zero |
| Game.TrailAfter | lifepong/core/game.py:190-192 | the new position appended, the oldest dropped once the trail is longer than `TRAIL_LENGTH`, so never longer |
| Game.TopUp | lifepong/core/game.py:171-176 | `min(bank + RESTART_CELLS, MAX_CELLS)` |
| Game.TopUpCutsOverfullBank | lifepong/core/game.py:171-176 | a bank above `MAX_CELLS` is cut back to `MAX_CELLS` |
| Game.TopUpInRange | lifepong/core/game.py:171-176 | a bank in `[0, MAX_CELLS]` never shrinks and stays in range |
| Game.RestoredBoard | lifepong/core/game.py:164-165 | the saved board, or an empty one when none of the grid's size was saved |
| Game.ScorerOf | lifepong/core/game.py:198-215 | in play, the second player scores exactly when the ball is at the left wall and not at top or bottom, and the first at the right wall |
| Game.MovedBall | lifepong/core/game.py:186-196 | the ball after a frame's move, sped up iff `BALL_ACCEL_INTERVAL` divides the frame number |
| Game.BallBeforeGrid | lifepong/core/game.py:186-203 | the ball grid detection sees in a frame that scores no point: moved, then bounced off the top or bottom |
| Game.FrameHitArmsCooldown | lifepong/core/game.py:186-238 | a frame can hit a cell only when it starts with a cooldown of at most 1, and the hit arms the full `COLLISION_COOLDOWN` |
| Game.NoHitDuringCooldown | lifepong/core/game.py:186-238 | a ball whose cooldown was armed fewer than `COLLISION_COOLDOWN - 1` frames ago cannot hit a cell, so no two hits are closer than `COLLISION_COOLDOWN` frames |
| Game.LifePong.constructor | lifepong/core/game.py:20-74 | placement, time 0, no press, place mode, empty grid of 120x60 with full health 3, players with ids 1 and 2, both banks 40, scores 0, and the ball centred at rest with the base speed and no cooldown |
| Game.LifePong.GetPlayerForPosition | lifepong/core/game.py:76-81 | the player `FirstOwner` names, or none |
| Game.LifePong.ChosenMode | lifepong/core/game.py:114-129 | in range and in a zone, a live cell chooses remove mode and an empty cell chooses place mode when the owner's bank is positive; otherwise the mode is kept |
| Game.LifePong.HandleMouseDown | lifepong/core/game.py:114-129 | always sets the press; the mode becomes `ChosenMode` of the press and the old mode; state, clock, trail and save are kept |
| Game.LifePong.HandleCellPlacement | lifepong/core/game.py:131-149 | board and banks become `ApplyEdit` of the old ones; every player's bank plus zone cells is kept and scores do not change |
| Game.LifePong.EditOwned | lifepong/core/game.py:143-149 | the owner's bank and the cell change as `EditCell` says |
| Game.LifePong.StartGame | lifepong/core/game.py:151-155 | the current board is saved, state is playing, and the whole ball is `ResetState` at the centre with the given heading |
| Game.LifePong.TopUpBanks | lifepong/core/game.py:171-176 | every bank becomes `TopUp` of itself; scores do not change |
| Game.LifePong.ResetRound | lifepong/core/game.py:162-176 | the board becomes the saved one (or empty), placement, empty trail, the whole ball is `ResetState` at the centre, banks topped up, scores kept |
| Game.LifePong.RestoreGrid | lifepong/core/game.py:164-165 | the grid becomes `RestoredBoard` of the save, in a fresh buffer |
| Game.LifePong.HandleEvent | lifepong/core/game.py:83-106 | quit and escape stop the loop; space from placement saves the board, enters play and serves the ball as `ResetState`, and play is entered only that way; a press in placement sets the button and the mode as `ChosenMode`; a release lifts the button; no other event touches the button or the mode |
| Game.LifePong.Drag | lifepong/core/game.py:108-110 | while the button is down in placement, one `ApplyEdit` at the pointer, keeping every player's total; otherwise nothing |
| Game.LifePong.MoveBall | lifepong/core/game.py:180-196 | the clock advances by 1, the whole ball becomes `MovedBall` for the new time, and the trail gains the truncated moved position |
| Game.LifePong.ScorePoint | lifepong/core/game.py:204-215 | exactly the scorer's score rises by 1; the board is restored, play returns to placement, the trail is cleared, the ball is `ResetState` at the centre and every bank is topped up |
| Game.LifePong.WallPhase | lifepong/core/game.py:198-215 | the scorer is `ScorerOf` the ball and only its score rises; a point resets the round and serves the ball as `ResetState`; without a point the ball becomes `AfterWalls` of itself and grid, banks and trail are untouched |
| Game.LifePong.Collide | lifepong/core/game.py:198-238 | walls and then grid for a moved ball: a point resets the round and ends the frame; otherwise the hit is `GridReply` of the ball after `AfterWalls`, and the ball, damage and generation follow as in `GridPhase` |
| Game.LifePong.GridPhase | lifepong/core/game.py:217-238 | the hit is `GridReply` of the board and ball; without one the ball is untouched, with one the cell takes `calculate_damage` and the ball becomes `GridBounced`; then the grid advances iff `time % LIFE_UPDATE_INTERVAL == 0` |
| Game.LifePong.PlayFrame | lifepong/core/game.py:180-238 | the clock advances; the scorer is `ScorerOf` the moved ball, only its score rises, and a point serves the ball as `ResetState` with no hit; otherwise banks are kept, the trail gains the moved position, the hit is `GridReply` of `BallBeforeGrid`, the ball is that bounced by `GridBounced` or left as seen, and the damage and generation follow the interval rules |
| Game.LifePong.Update | lifepong/core/game.py:178-238 | time always advances by 1; outside play nothing else changes; in play the frame is exactly as `PlayFrame` states: scorer, served ball after a point, and otherwise trail, `GridReply` hit, resulting ball, damage and generation |
| Legacy.CreateEmptyGrid | LifePong/Game.py:76-83 | `GRID_HEIGHT` rows of `GRID_WIDTH` zeros |
| Legacy.LegacyCell | LifePong/Game.py:99-110 | 1 iff the cell is 1 with a neighbour sum of 2 or 3, or 0 with a sum of 3; always 0 or 1 |
| Legacy.LegacyStep | LifePong/Game.py:86-111 | the new grid is 0/1 and of the same size |
| Legacy.UpdateGrid | LifePong/Game.py:86-111 | the loops build `LegacyStep` of the input in a fresh grid; the input is not changed |
| Legacy.SumIsCount | LifePong/Game.py:100-105 | on a 0/1 grid the sum of neighbour values is the live-neighbour count |
| Legacy.LegacyStepIsStep | LifePong/Game.py:86-111 | on a 0/1 grid the older generation is the health grid's generation with full health 1 |
| Legacy.LoadGrid | LifePong/Game.py:57-72 | the saved grid, or an empty grid when no file exists |
| Legacy.DragCell | LifePong/Game.py:212-218 | one older edit keeps the grid's shape; `DragCellIsEditCell` shows it is the newer edit with full health 1 |
| Legacy.DragCellIsEditCell | LifePong/Game.py:213-218 | on a 0/1 cell the older edit is the newer edit with full health 1 |
| Legacy.Drag | LifePong/Game.py:205-227 | the drag step keeps the grid's size; `DragIsApplyEdit` and `DragConserves` state what it does |
| Legacy.DragIsApplyEdit | LifePong/Game.py:210-227 | on a 0/1 grid the drag step is `ApplyEdit` with the zones `[0, 40)` and `[80, 120)` and full health 1 |
| Legacy.DragConserves | LifePong/Game.py:212-227 | a drag keeps the grid 0/1 and both banks non-negative, and keeps each bank plus its zone's live cells |
| Legacy.PressMode | LifePong/Game.py:196-200 | in a row of the grid and a zone whose bank is at least 0, placing iff the cell is 0; elsewhere the mode is kept |
| Legacy.LegacyGame.constructor | LifePong/Game.py:147-178 | empty grid, both banks 40, scores 0, not started, no press, place mode; any save file left from before is accepted as it is |
| Legacy.LegacyGame.PressSpace | LifePong/Game.py:185-188 | before play the grid is saved and play starts; during play nothing changes |
| Legacy.LegacyGame.MouseDown | LifePong/Game.py:190-200 | before play the press starts and the mode is `PressMode`; during play nothing changes |
| Legacy.LegacyGame.MouseUp | LifePong/Game.py:202-203 | the press ends |
| Legacy.LegacyGame.DragStep | LifePong/Game.py:205-227 | while pressed before play, the grid and banks become `Drag` of the old ones, and each player's bank plus zone cells is kept |
| Legacy.LegacyGame.PlayStep | LifePong/Game.py:229-264 | in play the grid advances one generation; leaving on the left scores for player 2 and on the right for player 1, and both stop play and reload the saved grid; banks are never refilled |

## Left out

- Drawing is left out: the renderer, particles, screen shake, trails as drawn, fonts, the display and the clock. None of them feeds back into the engine.
- Pygame event polling is left out. Events arrive one at a time as `Game.Event` values, already in grid coordinates, and the drag step is a separate call with the pointer's grid cell.
- Floating point is not modelled. Coordinates, velocities and speeds are exact reals, so the model states nothing about rounding.
- `math` and `random` are parameters: the reset heading, the cos/sin table of the sample points, and the velocity length. The heading's `cos^2 + sin^2 = 1` is not required.
- Balls.Ball.NormalizeVelocity: the current length is a parameter and is not tied to `sqrt(vx^2 + vy^2)`. The model therefore does not prove that the velocity's length equals `speed` after rescaling.
- Balls.Ball.Accelerate, Balls.Accelerated and Game.LifePong.MoveBall take the velocity length as a parameter, for the same reason.
- Grid.LifeGrid.CountNeighbors and Life.NeighborCount require a grid of positive width and height. On a zero-size grid the source's `%` by the width or height raises ZeroDivisionError (lifepong/entities/grid.py:85-86); that error is not modelled. Every grid the game builds is 120x60.
- Collision.HandleGridCollision and Collision.Bounce leave out two steps. The random jitter of `uniform(-0.2, 0.2)` on each component is left out. `_ensure_minimum_angle` is left out too, and with the configured `MIN_BOUNCE_ANGLE = 0.0` neither of its branches can fire.
- Grid.LifeGrid.Load: the source takes whatever the file unpickles and has no check. Here a stored board whose shape differs from the grid is treated as a failed load, so `cells` stays a rectangle of the grid's size.
- Game.RestoredBoard follows from that: a saved board of the wrong shape restarts the round with an empty board.
- The save file's errors other than "no file" are not modelled. Saving always succeeds.
- Legacy.LegacyGame.PlayStep: the older ball motion, its wall bounce and its cell bounces depend on `pygame.Rect` geometry and are left out. The ball's left and right extents after the frame's motion are parameters.
- `GameState.PAUSED` exists, but no transition reaches it or leaves it.
- The score, countdown and timing display of both versions is left out, along with `FPS`, `TITLE`, the particle lifetimes and the colours.

