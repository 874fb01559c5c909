/**
 * Drag editing in the placement phase, on values: which player owns a
 * column, what one edit does to the board and that player's bank, and the
 * conservation of "bank + live cells in the zone" over any run of edits.
 */
module Editing {
  import opened Wrappers
  import opened Life
  import opened Zones

  /** A player's zone: the half-open column range `[lo, hi)`. */
  type Zone = (int, int)

  predicate InZone(z: Zone, x: int) {
    z.0 <= x < z.1
  }

  /** The first zone, in list order, that contains column `x`. */
  function FirstOwner(zones: seq<Zone>, x: int): (r: Option<nat>)
    ensures r.Some? ==> r.value < |zones| && InZone(zones[r.value], x)
    ensures r.Some? ==> forall j :: 0 <= j < r.value ==> !InZone(zones[j], x)
    ensures r.None? <==> forall j :: 0 <= j < |zones| ==> !InZone(zones[j], x)
  {
    if |zones| == 0 then None
    else if InZone(zones[0], x) then Some(0)
    else match FirstOwner(zones[1..], x)
      case None => None
      case Some(i) => Some(i + 1)
  }

  /** No column lies in two zones. */
  ghost predicate Disjoint(zones: seq<Zone>) {
    forall i, j, x :: 0 <= i < j < |zones| && InZone(zones[i], x) ==> !InZone(zones[j], x)
  }

  /** The configured zones `[0, PLACING_WIDTH)` and `[GRID_WIDTH - PLACING_WIDTH, GRID_WIDTH)`. */
  function ConfiguredZones(gridWidth: int, placingWidth: int): seq<Zone> {
    [(0, placingWidth), (gridWidth - placingWidth, gridWidth)]
  }

  /**
   * With the configured zones of a 120-column grid and 40-column zones, the
   * left 40 columns are the first player's, the right 40 the second's, and
   * the 40 in between no one's.
   */
  lemma ConfiguredOwners(x: int)
    ensures var o := FirstOwner(ConfiguredZones(120, 40), x);
      && (o == Some(0) <==> 0 <= x < 40)
      && (o == Some(1) <==> 80 <= x < 120)
      && (o.None? <==> x < 0 || 40 <= x < 80 || 120 <= x)
  {
    var zs := ConfiguredZones(120, 40);
    assert zs[1..][1..] == [];
  }

  lemma ConfiguredZonesDisjoint(gridWidth: int, placingWidth: int)
    requires 0 <= placingWidth && 2 * placingWidth <= gridWidth
    ensures Disjoint(ConfiguredZones(gridWidth, placingWidth))
  {
  }

  /** One drag edit at a cell: place (`placing`) or remove. */
  datatype Edit = Edit(placing: bool, x: int, y: int)

  /**
   * One edit at `(x, y)` for the cell's owner with bank `bank`: placing on a
   * dead cell with a non-empty bank makes it a full-health cell and takes one
   * from the bank; removing a live cell kills it and gives one back;
   * anything else changes nothing.
   */
  function EditCell(b: Board, bank: int, placing: bool, x: int, y: int, maxHealth: int): (r: (Board, int))
    requires 0 <= y < |b| && 0 <= x < |b[y]|
    ensures |r.0| == |b| && forall yy :: 0 <= yy < |b| ==> |r.0[yy]| == |b[yy]|
  {
    if placing && !(b[y][x] > 0) then
      if bank > 0 then (SetAt(b, x, y, maxHealth), bank - 1) else (b, bank)
    else if !placing && b[y][x] > 0 then (SetAt(b, x, y, 0), bank + 1)
    else (b, bank)
  }

  /** An edit in a zone keeps its owner's bank plus the zone's live cells. */
  lemma EditConserves(b: Board, bank: int, placing: bool, x: int, y: int, maxHealth: int, z: Zone)
    requires 0 <= y < |b| && 0 <= x < |b[y]| && maxHealth > 0 && InZone(z, x)
    ensures var r := EditCell(b, bank, placing, x, y, maxHealth);
      r.1 + ZoneLive(r.0, z.0, z.1) == bank + ZoneLive(b, z.0, z.1)
  {
    ZoneLiveAfterSet(b, x, y, maxHealth, z.0, z.1);
    ZoneLiveAfterSet(b, x, y, 0, z.0, z.1);
  }

  /** An edit leaves the live count of any zone not containing its column alone. */
  lemma EditOutsideZone(b: Board, bank: int, placing: bool, x: int, y: int, maxHealth: int, z: Zone)
    requires 0 <= y < |b| && 0 <= x < |b[y]| && !InZone(z, x)
    ensures ZoneLive(EditCell(b, bank, placing, x, y, maxHealth).0, z.0, z.1) == ZoneLive(b, z.0, z.1)
  {
    ZoneLiveAfterSet(b, x, y, maxHealth, z.0, z.1);
    ZoneLiveAfterSet(b, x, y, 0, z.0, z.1);
  }

  /** A non-negative bank stays non-negative. */
  lemma EditKeepsBank(b: Board, bank: int, placing: bool, x: int, y: int, maxHealth: int)
    requires 0 <= y < |b| && 0 <= x < |b[y]| && bank >= 0
    ensures EditCell(b, bank, placing, x, y, maxHealth).1 >= 0
  {
  }

  /**
   * One edit on the whole board: outside the `w x h` board or outside every
   * zone nothing changes; otherwise the first owner's bank and the cell
   * change as `EditCell` says.
   */
  function ApplyEdit(b: Board, w: nat, h: nat, zones: seq<Zone>, banks: seq<int>, e: Edit, maxHealth: int): (r: (Board, seq<int>))
    requires IsRect(b, w, h) && |banks| == |zones|
    ensures IsRect(r.0, w, h) && |r.1| == |banks|
  {
    if !(0 <= e.x < w && 0 <= e.y < h) then (b, banks)
    else match FirstOwner(zones, e.x)
      case None => (b, banks)
      case Some(i) =>
        var (b', bank') := EditCell(b, banks[i], e.placing, e.x, e.y, maxHealth);
        (b', banks[i := bank'])
  }

  /** Bank plus live cells of zone `i`, for every `i`. */
  function Totals(b: Board, zones: seq<Zone>, banks: seq<int>): (t: seq<int>)
    requires |banks| == |zones|
    ensures |t| == |zones|
  {
    seq(|zones|, i requires 0 <= i < |zones| => banks[i] + ZoneLive(b, zones[i].0, zones[i].1))
  }

  /** With disjoint zones one edit keeps every player's total. */
  lemma ApplyEditConserves(b: Board, w: nat, h: nat, zones: seq<Zone>, banks: seq<int>, e: Edit, maxHealth: int)
    requires IsRect(b, w, h) && |banks| == |zones| && Disjoint(zones) && maxHealth > 0
    ensures var r := ApplyEdit(b, w, h, zones, banks, e, maxHealth);
      Totals(r.0, zones, r.1) == Totals(b, zones, banks)
  {
    var r := ApplyEdit(b, w, h, zones, banks, e, maxHealth);
    if 0 <= e.x < w && 0 <= e.y < h && FirstOwner(zones, e.x).Some? {
      var o := FirstOwner(zones, e.x).value;
      forall i | 0 <= i < |zones|
        ensures Totals(r.0, zones, r.1)[i] == Totals(b, zones, banks)[i]
      {
        if i == o {
          EditConserves(b, banks[o], e.placing, e.x, e.y, maxHealth, zones[o]);
        } else {
          assert !InZone(zones[i], e.x);
          EditOutsideZone(b, banks[o], e.placing, e.x, e.y, maxHealth, zones[i]);
        }
      }
    }
  }

  /** With non-negative banks, one edit keeps every bank non-negative. */
  lemma ApplyEditKeepsBanks(b: Board, w: nat, h: nat, zones: seq<Zone>, banks: seq<int>, e: Edit, maxHealth: int)
    requires IsRect(b, w, h) && |banks| == |zones|
    requires forall i :: 0 <= i < |banks| ==> banks[i] >= 0
    ensures var r := ApplyEdit(b, w, h, zones, banks, e, maxHealth);
      forall i :: 0 <= i < |r.1| ==> r.1[i] >= 0
  {
  }

  /** A placement session: the edits applied in order. */
  function Session(b: Board, w: nat, h: nat, zones: seq<Zone>, banks: seq<int>, edits: seq<Edit>, maxHealth: int): (r: (Board, seq<int>))
    requires IsRect(b, w, h) && |banks| == |zones|
    ensures IsRect(r.0, w, h) && |r.1| == |banks|
    decreases |edits|
  {
    if |edits| == 0 then (b, banks)
    else
      var (b', banks') := ApplyEdit(b, w, h, zones, banks, edits[0], maxHealth);
      Session(b', w, h, zones, banks', edits[1..], maxHealth)
  }

  /** Across any session each player's bank plus the live cells in their zone is constant. */
  lemma {:induction false} SessionConserves(b: Board, w: nat, h: nat, zones: seq<Zone>, banks: seq<int>, edits: seq<Edit>, maxHealth: int)
    requires IsRect(b, w, h) && |banks| == |zones| && Disjoint(zones) && maxHealth > 0
    ensures var r := Session(b, w, h, zones, banks, edits, maxHealth);
      Totals(r.0, zones, r.1) == Totals(b, zones, banks)
    decreases |edits|
  {
    if |edits| > 0 {
      var (b', banks') := ApplyEdit(b, w, h, zones, banks, edits[0], maxHealth);
      ApplyEditConserves(b, w, h, zones, banks, edits[0], maxHealth);
      SessionConserves(b', w, h, zones, banks', edits[1..], maxHealth);
    }
  }

  /** Across any session no bank that started non-negative goes negative. */
  lemma {:induction false} SessionKeepsBanks(b: Board, w: nat, h: nat, zones: seq<Zone>, banks: seq<int>, edits: seq<Edit>, maxHealth: int)
    requires IsRect(b, w, h) && |banks| == |zones|
    requires forall i :: 0 <= i < |banks| ==> banks[i] >= 0
    ensures var r := Session(b, w, h, zones, banks, edits, maxHealth);
      forall i :: 0 <= i < |r.1| ==> r.1[i] >= 0
    decreases |edits|
  {
    if |edits| > 0 {
      var (b', banks') := ApplyEdit(b, w, h, zones, banks, edits[0], maxHealth);
      ApplyEditKeepsBanks(b, w, h, zones, banks, edits[0], maxHealth);
      SessionKeepsBanks(b', w, h, zones, banks', edits[1..], maxHealth);
      assert Session(b, w, h, zones, banks, edits, maxHealth) == Session(b', w, h, zones, banks', edits[1..], maxHealth);
    }
  }
}
