/**
 * A player of lifepong/entities/player.py: an id, a bank of cells still to
 * place, a half-open column zone `[zoneStart, zoneEnd)` and a score. The
 * colour is rendering data and is not modelled.
 */
module Players {

  /** The bank and result of one `place_cell` on a bank of `bank` cells. */
  function PlaceResult(bank: int): (r: (bool, int))
    ensures r.0 <==> bank > 0
    ensures r.0 ==> r.1 == bank - 1
    ensures !r.0 ==> r.1 == bank
  {
    if bank > 0 then (true, bank - 1) else (false, bank)
  }

  /** Placing from a non-negative bank never makes it negative. */
  lemma PlaceKeepsBankNonNegative(bank: int)
    requires bank >= 0
    ensures PlaceResult(bank).1 >= 0
  {
  }

  /** A successful place followed by a remove gives the bank back. */
  lemma PlaceThenRemoveRestores(bank: int)
    requires PlaceResult(bank).0
    ensures PlaceResult(bank).1 + 1 == bank
  {
  }

  class Player {
    const id: int
    var cellsRemaining: int
    const zoneStart: int
    const zoneEnd: int
    var score: int

    /** A player with `cellsRemaining` in the bank, the given zone and score 0. */
    constructor (id: int, cellsRemaining: int, zoneStart: int, zoneEnd: int)
      ensures this.id == id && this.cellsRemaining == cellsRemaining
      ensures this.zoneStart == zoneStart && this.zoneEnd == zoneEnd
      ensures score == 0
    {
      this.id := id;
      this.cellsRemaining := cellsRemaining;
      this.zoneStart := zoneStart;
      this.zoneEnd := zoneEnd;
      score := 0;
    }

    /** The player may place while the bank holds a cell. */
    predicate CanPlace()
      reads this
    {
      cellsRemaining > 0
    }

    /** Column `gridX` lies in the half-open zone `[zoneStart, zoneEnd)`. */
    predicate IsInZone(gridX: int) {
      zoneStart <= gridX < zoneEnd
    }

    /** Takes one cell from the bank when there is one; reports whether it did. */
    method PlaceCell() returns (ok: bool)
      modifies this
      ensures (ok, cellsRemaining) == PlaceResult(old(cellsRemaining))
      ensures ok == old(CanPlace())
      ensures score == old(score)
    {
      if cellsRemaining > 0 {
        cellsRemaining := cellsRemaining - 1;
        return true;
      }
      return false;
    }

    /** Returns one cell to the bank; there is no cap here. */
    method RemoveCell()
      modifies this
      ensures cellsRemaining == old(cellsRemaining) + 1
      ensures score == old(score)
    {
      cellsRemaining := cellsRemaining + 1;
    }
  }
}
