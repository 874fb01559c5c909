/**
 * The older single-file version of the game, LifePong/Game.py: 0/1 cells,
 * a grid rebuilt by `update_grid` every frame, two global banks edited by
 * dragging in the side zones, and the grid saved when play starts and
 * reloaded after every point.
 *
 * Its neighbour rule sums the neighbours' values instead of counting live
 * ones; on 0/1 boards the two agree, so a generation here is the health
 * grid's generation with maximum health 1 (`LegacyStepIsStep`), and drag
 * editing is the same edit with full health 1 (`DragIsApplyEdit`).
 */
module Legacy {
  import opened Wrappers
  import opened Life
  import opened Zones
  import opened Editing

  const SCREEN_WIDTH: int := 1200
  const SCREEN_HEIGHT: int := 600
  const CELL_SIZE: int := 10
  const GRID_WIDTH: nat := SCREEN_WIDTH / CELL_SIZE
  const GRID_HEIGHT: nat := SCREEN_HEIGHT / CELL_SIZE
  const PLACING_WIDTH: int := 40
  /** Both banks start at 40 and are never refilled. */
  const STARTING_CELLS: int := 40

  /** `GRID_HEIGHT` rows of `GRID_WIDTH` zeros. */
  function CreateEmptyGrid(): (b: Board)
    ensures IsRect(b, GRID_WIDTH, GRID_HEIGHT) && IsBinary(b)
    ensures forall y, x :: 0 <= y < GRID_HEIGHT && 0 <= x < GRID_WIDTH ==> b[y][x] == 0
  {
    seq(GRID_HEIGHT, _ => seq(GRID_WIDTH, _ => 0))
  }

  /** The value step `k` of the double loop adds to the sum; the centre adds nothing. */
  function SumTerm(b: Board, w: nat, h: nat, x: int, y: int, k: nat): int
    requires IsRect(b, w, h) && w > 0 && h > 0 && k < 9
  {
    if OffsetX(k) == 0 && OffsetY(k) == 0 then 0
    else NeighborHealth(b, w, h, x, y, OffsetX(k), OffsetY(k))
  }

  /** The sum of the neighbours' values over the first `k` steps. */
  function SumAmong(b: Board, w: nat, h: nat, x: int, y: int, k: nat): int
    requires IsRect(b, w, h) && w > 0 && h > 0 && k <= 9
  {
    if k == 0 then 0 else SumAmong(b, w, h, x, y, k - 1) + SumTerm(b, w, h, x, y, k - 1)
  }

  /** The sum of the values of the 8 wrapped neighbours of `(x, y)`. */
  function NeighborSum(b: Board, w: nat, h: nat, x: int, y: int): int
    requires IsRect(b, w, h) && w > 0 && h > 0
  {
    SumAmong(b, w, h, x, y, STEPS)
  }

  /**
   * The next value of cell `(x, y)`: 1 for a cell holding 1 with a
   * neighbour sum of 2 or 3 and for a cell holding 0 with a sum of exactly
   * 3, and 0 for every other cell, whatever it holds.
   */
  function LegacyCell(b: Board, w: nat, h: nat, x: int, y: int): (v: int)
    requires IsRect(b, w, h) && 0 <= x < w && 0 <= y < h
    ensures v == 0 || v == 1
    ensures v == 1 <==> (
      || (b[y][x] == 1 && (NeighborSum(b, w, h, x, y) == 2 || NeighborSum(b, w, h, x, y) == 3))
      || (b[y][x] == 0 && NeighborSum(b, w, h, x, y) == 3))
  {
    var n := NeighborSum(b, w, h, x, y);
    if b[y][x] == 1 && (n == 2 || n == 3) then 1
    else if b[y][x] == 0 && n == 3 then 1
    else 0
  }

  /** The grid `update_grid` builds: every cell from the old grid only, and always 0/1. */
  function LegacyStep(b: Board, w: nat, h: nat): (r: Board)
    requires IsRect(b, w, h)
    ensures IsRect(r, w, h) && IsBinary(r)
  {
    seq(h, y requires 0 <= y < h =>
      seq(w, x requires 0 <= x < w => LegacyCell(b, w, h, x, y)))
  }

  /**
   * `update_grid`: a fresh zero grid whose cells are set to 1 one at a time,
   * row by row, reading neighbours from the input grid only.
   */
  method UpdateGrid(grid: Board) returns (newGrid: Board)
    requires IsRect(grid, GRID_WIDTH, GRID_HEIGHT)
    ensures newGrid == LegacyStep(grid, GRID_WIDTH, GRID_HEIGHT)
  {
    newGrid := CreateEmptyGrid();
    for y := 0 to GRID_HEIGHT
      invariant IsRect(newGrid, GRID_WIDTH, GRID_HEIGHT)
      invariant forall yy, x :: 0 <= yy < y && 0 <= x < GRID_WIDTH ==> newGrid[yy][x] == LegacyCell(grid, GRID_WIDTH, GRID_HEIGHT, x, yy)
      invariant forall yy, x :: y <= yy < GRID_HEIGHT && 0 <= x < GRID_WIDTH ==> newGrid[yy][x] == 0
    {
      for x := 0 to GRID_WIDTH
        invariant IsRect(newGrid, GRID_WIDTH, GRID_HEIGHT)
        invariant forall yy, xx :: 0 <= yy < y && 0 <= xx < GRID_WIDTH ==> newGrid[yy][xx] == LegacyCell(grid, GRID_WIDTH, GRID_HEIGHT, xx, yy)
        invariant forall xx :: 0 <= xx < x ==> newGrid[y][xx] == LegacyCell(grid, GRID_WIDTH, GRID_HEIGHT, xx, y)
        invariant forall xx :: x <= xx < GRID_WIDTH ==> newGrid[y][xx] == 0
        invariant forall yy, xx :: y < yy < GRID_HEIGHT && 0 <= xx < GRID_WIDTH ==> newGrid[yy][xx] == 0
      {
        var neighbors := NeighborSum(grid, GRID_WIDTH, GRID_HEIGHT, x, y);
        if grid[y][x] == 1 && (neighbors == 2 || neighbors == 3) {
          newGrid := SetAt(newGrid, x, y, 1);
        } else if grid[y][x] == 0 && neighbors == 3 {
          newGrid := SetAt(newGrid, x, y, 1);
        }
      }
    }
    BoardEq(newGrid, LegacyStep(grid, GRID_WIDTH, GRID_HEIGHT), GRID_WIDTH, GRID_HEIGHT);
  }

  /** On a 0/1 board the sum of neighbour values is the number of live neighbours. */
  lemma {:induction false} SumIsCount(b: Board, w: nat, h: nat, x: int, y: int, k: nat)
    requires IsRect(b, w, h) && w > 0 && h > 0 && k <= 9 && IsBinary(b)
    ensures SumAmong(b, w, h, x, y, k) == LiveAmong(b, w, h, x, y, k)
  {
    if k > 0 {
      SumIsCount(b, w, h, x, y, k - 1);
      if !(OffsetX(k - 1) == 0 && OffsetY(k - 1) == 0) {
        var v := NeighborHealth(b, w, h, x, y, OffsetX(k - 1), OffsetY(k - 1));
        assert v == 0 || v == 1;
      }
    }
  }

  /**
   * On a 0/1 board, a generation of the older version is a generation of
   * the health grid whose full health is 1.
   */
  lemma LegacyStepIsStep(b: Board, w: nat, h: nat)
    requires IsRect(b, w, h) && IsBinary(b)
    ensures LegacyStep(b, w, h) == Step(b, w, h, 1)
  {
    forall y, x | 0 <= y < h && 0 <= x < w
      ensures LegacyStep(b, w, h)[y][x] == Step(b, w, h, 1)[y][x]
    {
      SumIsCount(b, w, h, x, y, STEPS);
    }
    BoardEq(LegacyStep(b, w, h), Step(b, w, h, 1), w, h);
  }

  /** `load_grid`: the saved grid, or an empty grid when nothing was saved. */
  function LoadGrid(stored: Option<Board>): (b: Board)
    ensures stored.Some? ==> b == stored.value
    ensures stored.None? ==> IsRect(b, GRID_WIDTH, GRID_HEIGHT) && forall y, x :: 0 <= y < GRID_HEIGHT && 0 <= x < GRID_WIDTH ==> b[y][x] == 0
  {
    match stored
    case None => CreateEmptyGrid()
    case Some(g) => g
  }

  /**
   * One drag edit inside a zone, on one bank: placing needs a non-empty bank
   * and an empty cell, and sets it to 1; removing needs a cell holding 1
   * and clears it; the bank moves the other way by one.
   */
  function DragCell(b: Board, bank: int, placing: bool, x: int, y: int): (r: (Board, int))
    requires 0 <= y < |b| && 0 <= x < |b[y]|
    ensures |r.0| == |b| && forall yy :: 0 <= yy < |b| ==> |r.0[yy]| == |b[yy]|
  {
    if bank > 0 && placing && b[y][x] == 0 then (SetAt(b, x, y, 1), bank - 1)
    else if !placing && b[y][x] == 1 then (SetAt(b, x, y, 0), bank + 1)
    else (b, bank)
  }

  /** On a 0/1 cell the older edit is the health grid's edit with full health 1. */
  lemma DragCellIsEditCell(b: Board, bank: int, placing: bool, x: int, y: int)
    requires 0 <= y < |b| && 0 <= x < |b[y]| && (b[y][x] == 0 || b[y][x] == 1)
    ensures DragCell(b, bank, placing, x, y) == EditCell(b, bank, placing, x, y, 1)
  {
  }

  /**
   * The drag step of the frame loop: the left zone `[0, PLACING_WIDTH)`
   * edits the first bank, the right zone `[GRID_WIDTH - PLACING_WIDTH,
   * GRID_WIDTH)` the second; any other column or row changes nothing.
   */
  function Drag(b: Board, banks: (int, int), placing: bool, x: int, y: int): (r: (Board, (int, int)))
    requires IsRect(b, GRID_WIDTH, GRID_HEIGHT)
    ensures IsRect(r.0, GRID_WIDTH, GRID_HEIGHT)
  {
    if 0 <= y < GRID_HEIGHT then
      if 0 <= x < PLACING_WIDTH then
        var (b', bank) := DragCell(b, banks.0, placing, x, y);
        (b', (bank, banks.1))
      else if GRID_WIDTH - PLACING_WIDTH <= x < GRID_WIDTH then
        var (b', bank) := DragCell(b, banks.1, placing, x, y);
        (b', (banks.0, bank))
      else (b, banks)
    else (b, banks)
  }

  /** On a 0/1 board the older drag step is one edit of the newer version with full health 1. */
  lemma DragIsApplyEdit(b: Board, banks: (int, int), placing: bool, x: int, y: int)
    requires IsRect(b, GRID_WIDTH, GRID_HEIGHT) && IsBinary(b)
    ensures var r := Drag(b, banks, placing, x, y);
      var e := ApplyEdit(b, GRID_WIDTH, GRID_HEIGHT, ConfiguredZones(GRID_WIDTH, PLACING_WIDTH), [banks.0, banks.1], Edit(placing, x, y), 1);
      r.0 == e.0 && [r.1.0, r.1.1] == e.1
  {
    ConfiguredOwners(x);
    if 0 <= y < GRID_HEIGHT && 0 <= x < GRID_WIDTH {
      DragCellIsEditCell(b, banks.0, placing, x, y);
      DragCellIsEditCell(b, banks.1, placing, x, y);
    }
  }

  /**
   * A drag keeps the board 0/1, keeps each bank non-negative, and keeps
   * each bank plus the live cells of its zone.
   */
  lemma DragConserves(b: Board, banks: (int, int), placing: bool, x: int, y: int)
    requires IsRect(b, GRID_WIDTH, GRID_HEIGHT) && IsBinary(b) && banks.0 >= 0 && banks.1 >= 0
    ensures var r := Drag(b, banks, placing, x, y);
      && IsBinary(r.0) && r.1.0 >= 0 && r.1.1 >= 0
      && r.1.0 + ZoneLive(r.0, 0, PLACING_WIDTH) == banks.0 + ZoneLive(b, 0, PLACING_WIDTH)
      && r.1.1 + ZoneLive(r.0, GRID_WIDTH - PLACING_WIDTH, GRID_WIDTH) == banks.1 + ZoneLive(b, GRID_WIDTH - PLACING_WIDTH, GRID_WIDTH)
  {
    var zones := ConfiguredZones(GRID_WIDTH, PLACING_WIDTH);
    var e := ApplyEdit(b, GRID_WIDTH, GRID_HEIGHT, zones, [banks.0, banks.1], Edit(placing, x, y), 1);
    DragIsApplyEdit(b, banks, placing, x, y);
    ConfiguredZonesDisjoint(GRID_WIDTH, PLACING_WIDTH);
    ApplyEditConserves(b, GRID_WIDTH, GRID_HEIGHT, zones, [banks.0, banks.1], Edit(placing, x, y), 1);
    ApplyEditKeepsBanks(b, GRID_WIDTH, GRID_HEIGHT, zones, [banks.0, banks.1], Edit(placing, x, y), 1);
    assert Totals(e.0, zones, e.1)[0] == Totals(b, zones, [banks.0, banks.1])[0];
    assert Totals(e.0, zones, e.1)[1] == Totals(b, zones, [banks.0, banks.1])[1];
  }

  /**
   * The mode a mouse press chooses: in a row of the grid and a zone whose
   * bank is at least 0, placing iff the pressed cell is empty; anywhere
   * else the mode stays `placing`.
   */
  function PressMode(b: Board, banks: (int, int), placing: bool, x: int, y: int): (m: bool)
    requires IsRect(b, GRID_WIDTH, GRID_HEIGHT)
    ensures 0 <= y < GRID_HEIGHT && 0 <= x < PLACING_WIDTH && banks.0 >= 0 ==> (m <==> b[y][x] == 0)
    ensures 0 <= y < GRID_HEIGHT && GRID_WIDTH - PLACING_WIDTH <= x < GRID_WIDTH && banks.1 >= 0 ==> (m <==> b[y][x] == 0)
    ensures !(0 <= y < GRID_HEIGHT && ((0 <= x < PLACING_WIDTH && banks.0 >= 0) || (GRID_WIDTH - PLACING_WIDTH <= x < GRID_WIDTH && banks.1 >= 0))) ==> m == placing
  {
    if 0 <= y < GRID_HEIGHT then
      if 0 <= x < PLACING_WIDTH && banks.0 >= 0 then b[y][x] == 0
      else if GRID_WIDTH - PLACING_WIDTH <= x < GRID_WIDTH && banks.1 >= 0 then b[y][x] == 0
      else placing
    else placing
  }

  /**
   * The globals and `main` locals of the older version. `saved` stands for
   * the save file.
   */
  class LegacyGame {
    var grid: Board
    var player1Cells: int
    var player2Cells: int
    var player1Score: int
    var player2Score: int
    var gameStarted: bool
    var mouseDown: bool
    var placingCells: bool
    var saved: Option<Board>

    /**
     * The grid is a 0/1 grid of the configured size; once play has started
     * the file holds such a grid too (whatever was there before was
     * overwritten by the start); banks and scores are not negative.
     */
    predicate Valid()
      reads this
    {
      && IsRect(grid, GRID_WIDTH, GRID_HEIGHT) && IsBinary(grid)
      && (gameStarted ==> saved.Some? && IsRect(saved.value, GRID_WIDTH, GRID_HEIGHT) && IsBinary(saved.value))
      && player1Cells >= 0 && player2Cells >= 0
      && player1Score >= 0 && player2Score >= 0
    }

    /** Bank plus live cells of the zone, for each player. */
    function Totals(): (int, int)
      reads this
      requires Valid()
    {
      (player1Cells + ZoneLive(grid, 0, PLACING_WIDTH),
       player2Cells + ZoneLive(grid, GRID_WIDTH - PLACING_WIDTH, GRID_WIDTH))
    }

    /** The start of `main`; `saved` is whatever file a previous run left, if any. */
    constructor(saved: Option<Board>)
      ensures Valid()
      ensures grid == CreateEmptyGrid()
      ensures player1Cells == STARTING_CELLS && player2Cells == STARTING_CELLS
      ensures player1Score == 0 && player2Score == 0
      ensures !gameStarted && !mouseDown && placingCells
      ensures this.saved == saved
    {
      grid := CreateEmptyGrid();
      player1Cells := STARTING_CELLS;
      player2Cells := STARTING_CELLS;
      player1Score := 0;
      player2Score := 0;
      gameStarted := false;
      mouseDown := false;
      placingCells := true;
      this.saved := saved;
    }

    /** Space before play saves the grid and starts the game; during play it does nothing. */
    method PressSpace()
      requires Valid()
      modifies this
      ensures Valid()
      ensures !old(gameStarted) ==> gameStarted && saved == Some(grid)
      ensures old(gameStarted) ==> gameStarted && saved == old(saved)
      ensures grid == old(grid) && player1Cells == old(player1Cells) && player2Cells == old(player2Cells)
      ensures player1Score == old(player1Score) && player2Score == old(player2Score)
      ensures mouseDown == old(mouseDown) && placingCells == old(placingCells)
    {
      if !gameStarted {
        saved := Some(grid);
        gameStarted := true;
      }
    }

    /** A press before play starts dragging and chooses the mode. */
    method MouseDown(gridX: int, gridY: int)
      requires Valid()
      modifies this
      ensures Valid()
      ensures !old(gameStarted) ==> mouseDown && placingCells == PressMode(grid, (player1Cells, player2Cells), old(placingCells), gridX, gridY)
      ensures old(gameStarted) ==> mouseDown == old(mouseDown) && placingCells == old(placingCells)
      ensures grid == old(grid) && player1Cells == old(player1Cells) && player2Cells == old(player2Cells)
      ensures player1Score == old(player1Score) && player2Score == old(player2Score)
      ensures gameStarted == old(gameStarted) && saved == old(saved)
    {
      if !gameStarted {
        mouseDown := true;
        placingCells := PressMode(grid, (player1Cells, player2Cells), placingCells, gridX, gridY);
      }
    }

    /** A release stops dragging. */
    method MouseUp()
      requires Valid()
      modifies this
      ensures Valid() && !mouseDown
      ensures grid == old(grid) && player1Cells == old(player1Cells) && player2Cells == old(player2Cells)
      ensures player1Score == old(player1Score) && player2Score == old(player2Score)
      ensures gameStarted == old(gameStarted) && saved == old(saved) && placingCells == old(placingCells)
    {
      mouseDown := false;
    }

    /** The drag step: while the button is down before play, one edit at the pointer; each player's total is kept. */
    method DragStep(gridX: int, gridY: int)
      requires Valid()
      modifies this
      ensures Valid()
      ensures (grid, (player1Cells, player2Cells)) ==
        if old(mouseDown) && !old(gameStarted)
        then Drag(old(grid), (old(player1Cells), old(player2Cells)), placingCells, gridX, gridY)
        else (old(grid), (old(player1Cells), old(player2Cells)))
      ensures Totals() == old(Totals())
      ensures player1Score == old(player1Score) && player2Score == old(player2Score)
      ensures gameStarted == old(gameStarted) && saved == old(saved) && mouseDown == old(mouseDown) && placingCells == old(placingCells)
    {
      if mouseDown && !gameStarted {
        DragConserves(grid, (player1Cells, player2Cells), placingCells, gridX, gridY);
        var (g, banks) := Drag(grid, (player1Cells, player2Cells), placingCells, gridX, gridY);
        grid, player1Cells, player2Cells := g, banks.0, banks.1;
      }
    }

    /**
     * The play step of a frame. `ballLeft` and `ballRight` are the ball's
     * horizontal extents after this frame's motion. The grid advances one
     * generation; then leaving on the left scores for the second player and
     * on the right for the first, and either way play stops and the saved
     * grid comes back. The banks are not refilled.
     */
    method PlayStep(ballLeft: int, ballRight: int)
      requires Valid()
      modifies this
      ensures Valid()
      ensures !old(gameStarted) ==> grid == old(grid) && player1Score == old(player1Score) && player2Score == old(player2Score) && !gameStarted
      ensures old(gameStarted) && ballLeft <= 0 ==>
        player2Score == old(player2Score) + 1 && player1Score == old(player1Score) && !gameStarted && grid == LoadGrid(saved)
      ensures old(gameStarted) && ballLeft > 0 && ballRight >= SCREEN_WIDTH ==>
        player1Score == old(player1Score) + 1 && player2Score == old(player2Score) && !gameStarted && grid == LoadGrid(saved)
      ensures old(gameStarted) && ballLeft > 0 && ballRight < SCREEN_WIDTH ==>
        player1Score == old(player1Score) && player2Score == old(player2Score) && gameStarted
        && grid == LegacyStep(old(grid), GRID_WIDTH, GRID_HEIGHT) && grid == Step(old(grid), GRID_WIDTH, GRID_HEIGHT, 1)
      ensures player1Cells == old(player1Cells) && player2Cells == old(player2Cells)
      ensures saved == old(saved) && mouseDown == old(mouseDown) && placingCells == old(placingCells)
    {
      if gameStarted {
        grid := UpdateGrid(grid);
        LegacyStepIsStep(old(grid), GRID_WIDTH, GRID_HEIGHT);
        if ballLeft <= 0 {
          player2Score := player2Score + 1;
          grid := CreateEmptyGrid();
          gameStarted := false;
          grid := LoadGrid(saved);
        } else if ballRight >= SCREEN_WIDTH {
          player1Score := player1Score + 1;
          grid := CreateEmptyGrid();
          gameStarted := false;
          grid := LoadGrid(saved);
        }
      }
    }
  }
}
