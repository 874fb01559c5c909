/**
 * Live cells inside a player's column zone `[lo, hi)`, and how a single-cell
 * write changes that count. Both versions of the game conserve
 * "bank + live cells in the zone" while editing; the lemmas here carry that.
 */
module Zones {
  import opened Life

  /** `b` with cell `(x, y)` replaced by `v`. */
  function SetAt(b: Board, x: int, y: int, v: int): (r: Board)
    requires 0 <= y < |b| && 0 <= x < |b[y]|
    ensures |r| == |b| && forall yy :: 0 <= yy < |b| ==> |r[yy]| == |b[yy]|
    ensures r[y][x] == v
    ensures forall yy, xx :: 0 <= yy < |b| && 0 <= xx < |b[yy]| && (yy != y || xx != x) ==> r[yy][xx] == b[yy][xx]
  {
    b[y := b[y][x := v]]
  }

  /** 1 when column `x` lies in `[lo, hi)` and `v` is a live health. */
  function LiveIn(v: int, x: int, lo: int, hi: int): nat {
    if lo <= x < hi && v > 0 then 1 else 0
  }

  /** Live cells of the first `n` columns of `row` that lie in `[lo, hi)`. */
  function RowLive(row: seq<int>, lo: int, hi: int, n: nat): (c: nat)
    requires n <= |row|
    ensures c <= n
  {
    if n == 0 then 0 else RowLive(row, lo, hi, n - 1) + LiveIn(row[n - 1], n - 1, lo, hi)
  }

  /** Live cells in columns `[lo, hi)` of the first `m` rows of `b`. */
  function ZoneLiveRows(b: Board, lo: int, hi: int, m: nat): nat
    requires m <= |b|
  {
    if m == 0 then 0 else ZoneLiveRows(b, lo, hi, m - 1) + RowLive(b[m - 1], lo, hi, |b[m - 1]|)
  }

  /** Live cells in columns `[lo, hi)` of `b`. */
  function ZoneLive(b: Board, lo: int, hi: int): nat {
    ZoneLiveRows(b, lo, hi, |b|)
  }

  /** Writing `v` at column `x` changes a row's count by the change in liveness at `x`. */
  lemma {:induction false} RowLiveAfterSet(row: seq<int>, x: int, v: int, lo: int, hi: int, n: nat)
    requires 0 <= x < |row| && n <= |row|
    ensures RowLive(row[x := v], lo, hi, n) ==
      RowLive(row, lo, hi, n) + (if x < n then LiveIn(v, x, lo, hi) - LiveIn(row[x], x, lo, hi) else 0)
  {
    if n > 0 {
      RowLiveAfterSet(row, x, v, lo, hi, n - 1);
    }
  }

  lemma {:induction false} ZoneLiveRowsAfterSet(b: Board, x: int, y: int, v: int, lo: int, hi: int, m: nat)
    requires 0 <= y < |b| && 0 <= x < |b[y]| && m <= |b|
    ensures ZoneLiveRows(SetAt(b, x, y, v), lo, hi, m) ==
      ZoneLiveRows(b, lo, hi, m) + (if y < m then LiveIn(v, x, lo, hi) - LiveIn(b[y][x], x, lo, hi) else 0)
  {
    if m > 0 {
      ZoneLiveRowsAfterSet(b, x, y, v, lo, hi, m - 1);
      if m - 1 == y {
        RowLiveAfterSet(b[y], x, v, lo, hi, |b[y]|);
        assert SetAt(b, x, y, v)[y] == b[y][x := v];
      } else {
        assert SetAt(b, x, y, v)[m - 1] == b[m - 1];
      }
    }
  }

  /**
   * Writing `v` at `(x, y)` changes the zone's live count by exactly the
   * change in liveness of that one cell, and not at all outside the zone.
   */
  lemma ZoneLiveAfterSet(b: Board, x: int, y: int, v: int, lo: int, hi: int)
    requires 0 <= y < |b| && 0 <= x < |b[y]|
    ensures ZoneLive(SetAt(b, x, y, v), lo, hi) ==
      ZoneLive(b, lo, hi) + LiveIn(v, x, lo, hi) - LiveIn(b[y][x], x, lo, hi)
    ensures !(lo <= x < hi) ==> ZoneLive(SetAt(b, x, y, v), lo, hi) == ZoneLive(b, lo, hi)
  {
    ZoneLiveRowsAfterSet(b, x, y, v, lo, hi, |b|);
  }
}
