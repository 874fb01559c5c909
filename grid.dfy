/**
 * The Game-of-Life grid with per-cell health of lifepong/entities/grid.py.
 * The cells are a `height x width` integer array indexed `[y, x]`; every
 * operation is specified through `Cells()`, the board value it holds.
 */
module Grid {
  import opened Wrappers
  import opened Life
  import Zones
  import Config

  /** A board of `h` rows of `w` dead cells. */
  function EmptyBoard(w: nat, h: nat): (b: Board)
    ensures IsRect(b, w, h)
    ensures forall y, x :: 0 <= y < h && 0 <= x < w ==> b[y][x] == 0
  {
    seq(h, _ => seq(w, _ => 0))
  }

  /** What hitting one cell does: whether it was hit, whether it died, and the new board. */
  datatype DamageOutcome = DamageOutcome(wasHit: bool, destroyed: bool, board: Board)

  /**
   * Hitting `(x, y)` of `b` for `damage`. A dead or out-of-range cell is not
   * hit and nothing changes; a live cell of health `c` is hit, is destroyed
   * exactly when `damage >= c`, and is left with `max(0, c - damage)`.
   */
  function DamageResult(b: Board, w: nat, h: nat, x: int, y: int, damage: int): (r: DamageOutcome)
    requires IsRect(b, w, h)
    ensures r.wasHit <==> 0 <= x < w && 0 <= y < h && b[y][x] > 0
    ensures !r.wasHit ==> !r.destroyed && r.board == b
    ensures r.wasHit ==> r.destroyed == (damage >= b[y][x])
    ensures r.wasHit ==> r.board == Zones.SetAt(b, x, y, if b[y][x] - damage > 0 then b[y][x] - damage else 0)
  {
    if !(0 <= x < w && 0 <= y < h) then DamageOutcome(false, false, b)
    else if b[y][x] <= 0 then DamageOutcome(false, false, b)
    else if b[y][x] - damage <= 0 then DamageOutcome(true, true, Zones.SetAt(b, x, y, 0))
    else DamageOutcome(true, false, Zones.SetAt(b, x, y, b[y][x] - damage))
  }

  /** Non-negative damage keeps every health in `[0, maxHealth]`. */
  lemma DamageKeepsHealthRange(b: Board, w: nat, h: nat, x: int, y: int, damage: int, maxHealth: int)
    requires IsRect(b, w, h) && HealthInRange(b, maxHealth) && damage >= 0
    ensures HealthInRange(DamageResult(b, w, h, x, y, damage).board, maxHealth)
  {
  }

  /** A hit removes a live cell from a zone exactly when it destroys it. */
  lemma DamageZoneLive(b: Board, w: nat, h: nat, x: int, y: int, damage: int, lo: int, hi: int)
    requires IsRect(b, w, h)
    ensures var r := DamageResult(b, w, h, x, y, damage);
      Zones.ZoneLive(r.board, lo, hi) == Zones.ZoneLive(b, lo, hi) - (if r.destroyed && lo <= x < hi then 1 else 0)
  {
    var r := DamageResult(b, w, h, x, y, damage);
    if r.wasHit {
      Zones.ZoneLiveAfterSet(b, x, y, if b[y][x] - damage > 0 then b[y][x] - damage else 0, lo, hi);
    }
  }

  class LifeGrid {
    const width: nat
    const height: nat
    const maxHealth: int
    var cells: array2<int>

    /** The array has the grid's dimensions; `max_health or CELL_MAX_HEALTH` is never 0. */
    ghost predicate Valid()
      reads this
    {
      cells.Length0 == height && cells.Length1 == width && maxHealth != 0
    }

    /** The board the array currently holds. */
    function Cells(): (b: Board)
      reads this, cells
      requires Valid()
      ensures IsRect(b, width, height)
      ensures forall y, x :: 0 <= y < height && 0 <= x < width ==> b[y][x] == cells[y, x]
    {
      var a := cells;
      seq(a.Length0, y requires 0 <= y < a.Length0 reads a =>
        seq(a.Length1, x requires 0 <= x < a.Length1 reads a => a[y, x]))
    }

    /** `0 <= x < width && 0 <= y < height`, the source's bounds check. */
    predicate InBounds(x: int, y: int) {
      0 <= x < width && 0 <= y < height
    }

    /** A grid of dead cells; a `maxHealth` of 0 stands for the source's `None` and means the default. */
    constructor (width: nat, height: nat, maxHealth: int)
      ensures Valid() && fresh(cells)
      ensures this.width == width && this.height == height
      ensures this.maxHealth == if maxHealth == 0 then Config.CELL_MAX_HEALTH else maxHealth
      ensures Cells() == EmptyBoard(width, height)
    {
      this.width := width;
      this.height := height;
      this.maxHealth := if maxHealth == 0 then Config.CELL_MAX_HEALTH else maxHealth;
      cells := new int[height, width]((_, _) => 0);
      new;
      BoardEq(Cells(), EmptyBoard(width, height), width, height);
    }

    /** Replaces the cells by a fresh empty array of the same dimensions. */
    method Reset()
      requires Valid()
      modifies this
      ensures Valid() && fresh(cells)
      ensures Cells() == EmptyBoard(width, height)
    {
      cells := new int[height, width]((_, _) => 0);
      BoardEq(Cells(), EmptyBoard(width, height), width, height);
    }

    /** The health at `(x, y)`; 0 for any coordinate outside the grid. */
    function GetCell(x: int, y: int): (h: int)
      reads this, cells
      requires Valid()
      ensures InBounds(x, y) ==> h == Cells()[y][x]
      ensures !InBounds(x, y) ==> h == 0
    {
      if InBounds(x, y) then cells[y, x] else 0
    }

    /** A cell is alive when its health is positive; never outside the grid. */
    predicate IsAlive(x: int, y: int)
      reads this, cells
      requires Valid()
      ensures IsAlive(x, y) <==> InBounds(x, y) && Cells()[y][x] > 0
    {
      GetCell(x, y) > 0
    }

    /** Health as a fraction of `maxHealth`, for the renderer; 0 for a dead cell. */
    function GetHealthRatio(x: int, y: int): (r: real)
      reads this, cells
      requires Valid()
      ensures !IsAlive(x, y) ==> r == 0.0
      ensures IsAlive(x, y) ==> r * (maxHealth as real) == GetCell(x, y) as real
      ensures HealthInRange(Cells(), maxHealth) && maxHealth > 0 ==> 0.0 <= r <= 1.0
    {
      var health := GetCell(x, y);
      if health <= 0 then 0.0 else health as real / maxHealth as real
    }

    /** Writes `value` at `(x, y)` when in range; reports whether it did. */
    method SetCell(x: int, y: int, value: int) returns (ok: bool)
      requires Valid()
      modifies cells
      ensures Valid()
      ensures ok == InBounds(x, y)
      ensures Cells() == if ok then Zones.SetAt(old(Cells()), x, y, value) else old(Cells())
    {
      ghost var before := Cells();
      if InBounds(x, y) {
        cells[y, x] := value;
        BoardEq(Cells(), Zones.SetAt(before, x, y, value), width, height);
        return true;
      }
      return false;
    }

    /** Sets `(x, y)` to full health when in range; reports whether it did. */
    method PlaceCell(x: int, y: int) returns (ok: bool)
      requires Valid()
      modifies cells
      ensures Valid()
      ensures ok == InBounds(x, y)
      ensures Cells() == if ok then Zones.SetAt(old(Cells()), x, y, maxHealth) else old(Cells())
    {
      ghost var before := Cells();
      if InBounds(x, y) {
        cells[y, x] := maxHealth;
        BoardEq(Cells(), Zones.SetAt(before, x, y, maxHealth), width, height);
        return true;
      }
      return false;
    }

    /** Hits `(x, y)` for `damage`, as `DamageResult` describes. */
    method DamageCell(x: int, y: int, damage: int) returns (wasHit: bool, destroyed: bool)
      requires Valid()
      modifies cells
      ensures Valid()
      ensures var r := DamageResult(old(Cells()), width, height, x, y, damage);
        wasHit == r.wasHit && destroyed == r.destroyed && Cells() == r.board
    {
      ghost var before := Cells();
      if !InBounds(x, y) {
        return false, false;
      }
      if cells[y, x] <= 0 {
        return false, false;
      }
      cells[y, x] := cells[y, x] - damage;
      destroyed := cells[y, x] <= 0;
      if destroyed {
        cells[y, x] := 0;
      }
      wasHit := true;
      BoardEq(Cells(), DamageResult(before, width, height, x, y, damage).board, width, height);
    }

    /** Live cells among the 8 neighbours of `(x, y)`, both axes wrapping. */
    method CountNeighbors(x: int, y: int) returns (count: int)
      requires Valid() && width > 0 && height > 0
      ensures count == NeighborCount(Cells(), width, height, x, y)
    {
      ghost var b := Cells();
      count := 0;
      for dy := -1 to 2
        invariant count == LiveAmong(b, width, height, x, y, 3 * (dy + 1))
      {
        for dx := -1 to 2
          invariant count == LiveAmong(b, width, height, x, y, 3 * (dy + 1) + (dx + 1))
        {
          LiveAmongStep(b, width, height, x, y, dx, dy);
          if dx == 0 && dy == 0 {
            continue;
          }
          var nx := (x + dx) % width;
          var ny := (y + dy) % height;
          assert b[ny][nx] == cells[ny, nx];
          if cells[ny, nx] > 0 {
            count := count + 1;
          }
        }
      }
    }

    /** The next-generation health of `(x, y)`, read from the current cells. */
    method NextValue(x: int, y: int) returns (v: int)
      requires Valid() && InBounds(x, y)
      ensures v == NextCell(Cells(), width, height, x, y, maxHealth)
    {
      var neighbors := CountNeighbors(x, y);
      var current := cells[y, x];
      v := 0;
      if current > 0 && (neighbors == 2 || neighbors == 3) {
        v := current;
      } else if current == 0 && neighbors == 3 {
        v := maxHealth;
      }
    }

    /** Fills row `y` of `next` with the next generation of row `y`; other rows are kept. */
    method FillRow(next: array2<int>, y: int)
      requires Valid() && 0 <= y < height
      requires next != cells && next.Length0 == height && next.Length1 == width
      modifies next
      ensures forall xx :: 0 <= xx < width ==> next[y, xx] == NextCell(Cells(), width, height, xx, y, maxHealth)
      ensures forall yy, xx :: 0 <= yy < height && 0 <= xx < width && yy != y ==> next[yy, xx] == old(next[yy, xx])
    {
      for x := 0 to width
        invariant forall xx :: 0 <= xx < x ==> next[y, xx] == NextCell(Cells(), width, height, xx, y, maxHealth)
        invariant forall yy, xx :: 0 <= yy < height && 0 <= xx < width && yy != y ==> next[yy, xx] == old(next[yy, xx])
      {
        var v := NextValue(x, y);
        next[y, x] := v;
      }
    }

    /**
     * One Conway generation into a fresh buffer: every neighbour count is
     * read from the old cells, survivors keep their health, births get
     * `maxHealth`, everything else is 0.
     */
    method Update()
      requires Valid()
      modifies this
      ensures Valid() && fresh(cells)
      ensures Cells() == Step(old(Cells()), width, height, maxHealth)
    {
      ghost var before := Cells();
      var next := new int[height, width]((_, _) => 0);
      for y := 0 to height
        invariant cells == old(cells) && Cells() == before
        invariant forall yy, xx :: 0 <= yy < y && 0 <= xx < width ==>
          next[yy, xx] == NextCell(before, width, height, xx, yy, maxHealth)
      {
        FillRow(next, y);
      }
      cells := next;
      BoardEq(Cells(), Step(before, width, height, maxHealth), width, height);
    }

    /** The board to store as the saved grid. */
    method Save() returns (snapshot: Board)
      requires Valid()
      ensures IsRect(snapshot, width, height)
      ensures forall y, x :: 0 <= y < height && 0 <= x < width ==> snapshot[y][x] == cells[y, x]
    {
      snapshot := Cells();
    }

    /**
     * Replaces the cells by the stored board. With nothing stored, or a
     * stored board of other dimensions, it fails and changes nothing.
     */
    method Load(stored: Option<Board>) returns (ok: bool)
      requires Valid()
      modifies this
      ensures Valid()
      ensures ok == (stored.Some? && IsRect(stored.value, width, height))
      ensures ok ==> fresh(cells) && Cells() == stored.value
      ensures !ok ==> cells == old(cells) && Cells() == old(Cells())
    {
      if stored.None? || !IsRect(stored.value, width, height) {
        return false;
      }
      var b := stored.value;
      cells := new int[height, width]((y, x) requires 0 <= y < height && 0 <= x < width => b[y][x]);
      BoardEq(Cells(), b, width, height);
      return true;
    }
  }
}
