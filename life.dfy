/**
 * Conway's rule on a toroidal board of cell healths, as a value-level
 * specification shared by the health grid of lifepong/entities/grid.py and
 * the 0/1 grid of LifePong/Game.py.
 *
 * A board is a list of rows, `b[y][x]`, as in the source. A cell whose
 * health is positive is alive.
 */
module Life {

  type Board = seq<seq<int>>

  /** `b` has `h` rows of `w` cells each. */
  predicate IsRect(b: Board, w: nat, h: nat) {
    |b| == h && forall y :: 0 <= y < |b| ==> |b[y]| == w
  }

  /** Every cell of `b` holds a health in `[0, maxHealth]`. */
  predicate HealthInRange(b: Board, maxHealth: int) {
    forall y, x :: 0 <= y < |b| && 0 <= x < |b[y]| ==> 0 <= b[y][x] <= maxHealth
  }

  /** Every cell of `b` is 0 or 1 (the older single-file version's cells). */
  predicate IsBinary(b: Board) {
    forall y, x :: 0 <= y < |b| && 0 <= x < |b[y]| ==> b[y][x] == 0 || b[y][x] == 1
  }

  /** Two rectangular boards with equal cells are equal. */
  lemma BoardEq(a: Board, b: Board, w: nat, h: nat)
    requires IsRect(a, w, h) && IsRect(b, w, h)
    requires forall y, x :: 0 <= y < h && 0 <= x < w ==> a[y][x] == b[y][x]
    ensures a == b
  {
    forall y | 0 <= y < h ensures a[y] == b[y] {
      assert forall x :: 0 <= x < w ==> a[y][x] == b[y][x];
    }
  }

  /**
   * The neighbour visited at step `k` of the source's double loop
   * `for dy in [-1, 0, 1]: for dx in [-1, 0, 1]`, i.e. `k == 3 * (dy + 1) + (dx + 1)`.
   */
  const STEPS: nat := 9

  function OffsetX(k: nat): int { k % 3 - 1 }
  function OffsetY(k: nat): int { k / 3 - 1 }

  /** Step `3 * (dy + 1) + (dx + 1)` of the double loop visits offset `(dx, dy)`. */
  lemma OffsetsOfStep(dx: int, dy: int)
    requires -1 <= dx <= 1 && -1 <= dy <= 1
    ensures OffsetX(3 * (dy + 1) + (dx + 1)) == dx && OffsetY(3 * (dy + 1) + (dx + 1)) == dy
  {
    var k := 3 * (dy + 1) + (dx + 1);
    assert k == (dy + 1) * 3 + (dx + 1);
  }

  /** The health of the neighbour at offset `(dx, dy)`, both axes wrapping. */
  function NeighborHealth(b: Board, w: nat, h: nat, x: int, y: int, dx: int, dy: int): int
    requires IsRect(b, w, h) && w > 0 && h > 0
  {
    b[(y + dy) % h][(x + dx) % w]
  }

  /** 1 when step `k` visits a live neighbour; the centre step (k == 4) is skipped. */
  function Contribution(b: Board, w: nat, h: nat, x: int, y: int, k: nat): nat
    requires IsRect(b, w, h) && w > 0 && h > 0 && k < 9
  {
    if OffsetX(k) == 0 && OffsetY(k) == 0 then 0
    else if NeighborHealth(b, w, h, x, y, OffsetX(k), OffsetY(k)) > 0 then 1
    else 0
  }

  /** Live neighbours among the first `k` steps of the double loop. */
  function LiveAmong(b: Board, w: nat, h: nat, x: int, y: int, k: nat): (n: nat)
    requires IsRect(b, w, h) && w > 0 && h > 0 && k <= 9
    ensures n <= k
    ensures k > 4 ==> n < k
  {
    if k == 0 then 0
    else LiveAmong(b, w, h, x, y, k - 1) + Contribution(b, w, h, x, y, k - 1)
  }

  /** Taking step `3 * (dy + 1) + (dx + 1)` adds that neighbour's liveness, except at the centre. */
  lemma LiveAmongStep(b: Board, w: nat, h: nat, x: int, y: int, dx: int, dy: int)
    requires IsRect(b, w, h) && w > 0 && h > 0 && -1 <= dx <= 1 && -1 <= dy <= 1
    ensures LiveAmong(b, w, h, x, y, 3 * (dy + 1) + (dx + 1) + 1) ==
      LiveAmong(b, w, h, x, y, 3 * (dy + 1) + (dx + 1)) +
      (if dx == 0 && dy == 0 then 0 else if b[(y + dy) % h][(x + dx) % w] > 0 then 1 else 0)
  {
    OffsetsOfStep(dx, dy);
  }

  /** The number of live cells among the 8 wrapped neighbours of `(x, y)`. */
  function NeighborCount(b: Board, w: nat, h: nat, x: int, y: int): (n: nat)
    requires IsRect(b, w, h) && w > 0 && h > 0
    ensures n <= 8
  {
    LiveAmong(b, w, h, x, y, STEPS)
  }

  /** The health a cell of health `current` with `neighbors` live neighbours has next. */
  function NextHealth(current: int, neighbors: int, maxHealth: int): (r: int)
    ensures r == 0 || r == current || r == maxHealth
    ensures current > 0 && r != 0 ==> r == current
    ensures neighbors != 2 && neighbors != 3 ==> r == 0
  {
    if current > 0 && (neighbors == 2 || neighbors == 3) then current
    else if current == 0 && neighbors == 3 then maxHealth
    else 0
  }

  /** The next health of cell `(x, y)` of `b`. */
  function NextCell(b: Board, w: nat, h: nat, x: int, y: int, maxHealth: int): int
    requires IsRect(b, w, h) && 0 <= x < w && 0 <= y < h
  {
    NextHealth(b[y][x], NeighborCount(b, w, h, x, y), maxHealth)
  }

  /** One synchronous generation: every cell computed from the old board only. */
  function Step(b: Board, w: nat, h: nat, maxHealth: int): (r: Board)
    requires IsRect(b, w, h)
    ensures IsRect(r, w, h)
  {
    seq(h, y requires 0 <= y < h =>
      seq(w, x requires 0 <= x < w => NextCell(b, w, h, x, y, maxHealth)))
  }

  /** The Conway rule, cell by cell: survival keeps health, birth gives full health. */
  lemma StepRule(b: Board, w: nat, h: nat, maxHealth: int, x: int, y: int)
    requires IsRect(b, w, h) && 0 <= x < w && 0 <= y < h
    ensures var n, c, r := NeighborCount(b, w, h, x, y), b[y][x], Step(b, w, h, maxHealth)[y][x];
      && (c > 0 && (n == 2 || n == 3) ==> r == c)
      && (c == 0 && n == 3 ==> r == maxHealth)
      && (!(c > 0 && (n == 2 || n == 3)) && !(c == 0 && n == 3) ==> r == 0)
  {
  }

  /** A generation keeps every cell in `[0, maxHealth]`. */
  lemma StepKeepsHealthRange(b: Board, w: nat, h: nat, maxHealth: int)
    requires IsRect(b, w, h) && HealthInRange(b, maxHealth)
    ensures HealthInRange(Step(b, w, h, maxHealth), maxHealth)
  {
    var r := Step(b, w, h, maxHealth);
    forall y, x | 0 <= y < |r| && 0 <= x < |r[y]| ensures 0 <= r[y][x] <= maxHealth {
      assert 0 <= b[y][x] <= maxHealth;
    }
  }

  /** Neighbour counts ignore health magnitude: only liveness matters. */
  lemma {:induction false} LiveAmongIgnoresHealth(a: Board, b: Board, w: nat, h: nat, x: int, y: int, k: nat)
    requires IsRect(a, w, h) && IsRect(b, w, h) && w > 0 && h > 0 && k <= 9
    requires forall yy, xx :: 0 <= yy < h && 0 <= xx < w ==> (a[yy][xx] > 0 <==> b[yy][xx] > 0)
    ensures LiveAmong(a, w, h, x, y, k) == LiveAmong(b, w, h, x, y, k)
  {
    if k > 0 {
      LiveAmongIgnoresHealth(a, b, w, h, x, y, k - 1);
      var dx, dy := OffsetX(k - 1), OffsetY(k - 1);
      assert (a[(y + dy) % h][(x + dx) % w] > 0) == (b[(y + dy) % h][(x + dx) % w] > 0);
    }
  }

  lemma CountIgnoresHealth(a: Board, b: Board, w: nat, h: nat, x: int, y: int)
    requires IsRect(a, w, h) && IsRect(b, w, h) && w > 0 && h > 0
    requires forall yy, xx :: 0 <= yy < h && 0 <= xx < w ==> (a[yy][xx] > 0 <==> b[yy][xx] > 0)
    ensures NeighborCount(a, w, h, x, y) == NeighborCount(b, w, h, x, y)
  {
    LiveAmongIgnoresHealth(a, b, w, h, x, y, STEPS);
  }

  /** With all 8 wrapped neighbours dead, a steps' count stays 0. */
  lemma {:induction false} NoLiveNeighbors(b: Board, w: nat, h: nat, x: int, y: int, k: nat)
    requires IsRect(b, w, h) && w > 0 && h > 0 && k <= 9
    requires forall j :: 0 <= j < 9 && j != 4 ==> NeighborHealth(b, w, h, x, y, OffsetX(j), OffsetY(j)) <= 0
    ensures LiveAmong(b, w, h, x, y, k) == 0
  {
    if k > 0 {
      NoLiveNeighbors(b, w, h, x, y, k - 1);
      if k - 1 != 4 {
        assert NeighborHealth(b, w, h, x, y, OffsetX(k - 1), OffsetY(k - 1)) <= 0;
      }
    }
  }

  /** A live cell whose 8 wrapped neighbours are all dead is dead after a generation. */
  lemma IsolatedCellDies(b: Board, w: nat, h: nat, maxHealth: int, x: int, y: int)
    requires IsRect(b, w, h) && 0 <= x < w && 0 <= y < h && b[y][x] > 0
    requires forall j :: 0 <= j < 9 && j != 4 ==> NeighborHealth(b, w, h, x, y, OffsetX(j), OffsetY(j)) <= 0
    ensures Step(b, w, h, maxHealth)[y][x] == 0
  {
    NoLiveNeighbors(b, w, h, x, y, STEPS);
  }

  /** On a board at least 3x3, distinct steps of the double loop visit distinct cells. */
  lemma NeighborsDistinct(w: nat, h: nat, x: int, y: int, i: nat, j: nat)
    requires w >= 3 && h >= 3 && i < 9 && j < 9 && i != j
    ensures (x + OffsetX(i)) % w != (x + OffsetX(j)) % w || (y + OffsetY(i)) % h != (y + OffsetY(j)) % h
  {
    if OffsetX(i) != OffsetX(j) {
      ModDistinct(x, OffsetX(i), OffsetX(j), w);
    } else {
      assert OffsetY(i) != OffsetY(j);
      ModDistinct(y, OffsetY(i), OffsetY(j), h);
    }
  }

  lemma ModDistinct(x: int, d: int, e: int, n: int)
    requires n >= 3 && -1 <= d <= 1 && -1 <= e <= 1 && d != e
    ensures (x + d) % n != (x + e) % n
  {
    var m := (x + d) / n - (x + e) / n;
    assert (x + d) - (x + e) == m * n + ((x + d) % n - (x + e) % n);
    if m >= 1 {
      assert m * n >= n;
    } else if m <= -1 {
      assert m * n <= -n;
    }
  }

  /** The only live cell of `b` is `(lx, ly)`. */
  predicate OnlyLive(b: Board, w: nat, h: nat, lx: int, ly: int)
    requires IsRect(b, w, h) && 0 <= lx < w && 0 <= ly < h
  {
    forall yy, xx :: 0 <= yy < h && 0 <= xx < w ==> (b[yy][xx] > 0 <==> (xx == lx && yy == ly))
  }

  /** Step `j` of the neighbour loop of `(x, y)` lands on `(lx, ly)`. */
  predicate Visits(w: nat, h: nat, x: int, y: int, j: nat, lx: int, ly: int)
    requires w > 0 && h > 0
  {
    (x + OffsetX(j)) % w == lx && (y + OffsetY(j)) % h == ly
  }

  /** With a single live cell on a board at least 3x3, a cell sees it at most once. */
  lemma {:induction false} SingleLiveSeenOnce(b: Board, w: nat, h: nat, lx: int, ly: int, x: int, y: int, k: nat)
    requires IsRect(b, w, h) && w >= 3 && h >= 3 && 0 <= lx < w && 0 <= ly < h && k <= 9
    requires OnlyLive(b, w, h, lx, ly)
    ensures LiveAmong(b, w, h, x, y, k) <= 1
    ensures LiveAmong(b, w, h, x, y, k) == 1 ==> exists j :: 0 <= j < k && Visits(w, h, x, y, j, lx, ly)
  {
    if k > 0 {
      SingleLiveSeenOnce(b, w, h, lx, ly, x, y, k - 1);
      if Contribution(b, w, h, x, y, k - 1) == 1 {
        SeenStep(b, w, h, lx, ly, x, y, k - 1);
      }
    }
  }

  /** A live contribution at step `i` is a visit of the live cell, and no earlier step visited it. */
  lemma SeenStep(b: Board, w: nat, h: nat, lx: int, ly: int, x: int, y: int, i: nat)
    requires IsRect(b, w, h) && w >= 3 && h >= 3 && 0 <= lx < w && 0 <= ly < h && i < 9
    requires OnlyLive(b, w, h, lx, ly) && Contribution(b, w, h, x, y, i) == 1
    ensures Visits(w, h, x, y, i, lx, ly)
    ensures forall j :: 0 <= j < i ==> !Visits(w, h, x, y, j, lx, ly)
  {
    var cx, cy := (x + OffsetX(i)) % w, (y + OffsetY(i)) % h;
    assert b[cy][cx] > 0;
    forall j | 0 <= j < i ensures !Visits(w, h, x, y, j, lx, ly) {
      NeighborsDistinct(w, h, x, y, j, i);
    }
  }

  /** On a board at least 3x3 no neighbour step of `(x, y)` lands back on `(x, y)`. */
  lemma NeighborsAreOthers(b: Board, w: nat, h: nat, x: int, y: int, j: nat)
    requires IsRect(b, w, h) && w >= 3 && h >= 3 && 0 <= x < w && 0 <= y < h && j < 9 && j != 4
    ensures (x + OffsetX(j)) % w != x || (y + OffsetY(j)) % h != y
  {
    NeighborsDistinct(w, h, x, y, j, 4);
    assert (x + OffsetX(4)) % w == x && (y + OffsetY(4)) % h == y;
  }

  /** The cell `(x, y)` of a board at least 3x3 with one live cell is dead after a generation. */
  lemma SingleCellDiesAt(b: Board, w: nat, h: nat, maxHealth: int, lx: int, ly: int, x: int, y: int)
    requires IsRect(b, w, h) && w >= 3 && h >= 3 && 0 <= lx < w && 0 <= ly < h
    requires OnlyLive(b, w, h, lx, ly) && 0 <= x < w && 0 <= y < h
    ensures Step(b, w, h, maxHealth)[y][x] == 0
  {
    if x == lx && y == ly {
      forall j | 0 <= j < 9 && j != 4
        ensures NeighborHealth(b, w, h, x, y, OffsetX(j), OffsetY(j)) <= 0
      {
        NeighborsAreOthers(b, w, h, x, y, j);
      }
      NoLiveNeighbors(b, w, h, x, y, STEPS);
    } else {
      SingleLiveSeenOnce(b, w, h, lx, ly, x, y, STEPS);
      assert b[y][x] <= 0;
    }
  }

  /** A board at least 3x3 with one live cell is all dead after a generation. */
  lemma SingleCellDies(b: Board, w: nat, h: nat, maxHealth: int, lx: int, ly: int)
    requires IsRect(b, w, h) && w >= 3 && h >= 3 && 0 <= lx < w && 0 <= ly < h
    requires OnlyLive(b, w, h, lx, ly)
    ensures forall y, x :: 0 <= y < h && 0 <= x < w ==> Step(b, w, h, maxHealth)[y][x] == 0
  {
    forall y, x | 0 <= y < h && 0 <= x < w ensures Step(b, w, h, maxHealth)[y][x] == 0 {
      SingleCellDiesAt(b, w, h, maxHealth, lx, ly, x, y);
    }
  }
}
