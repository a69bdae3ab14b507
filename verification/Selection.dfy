/**
 * Which tiles a map extract asks for: the whole world to one zoom, and more detail inside an area
 * (packages/offline/src/pmtiles-extract.ts, `selectionTileCount`, `selectionProblem`, `wantedIds`,
 * `lowerBound`). The tiles an area touches at a zoom come from a parameter, `rangeOf`.
 */
module Selection {
  import opened Wrappers
  import opened TileIds
  import opened Sorting

  datatype GeoBounds = GeoBounds(west: real, south: real, east: real, north: real)
  datatype TileRange = TileRange(minX: nat, maxX: nat, minY: nat, maxY: nat)
  type RangeOf = (GeoBounds, nat) -> TileRange

  datatype ExtractSelection = ExtractSelection(worldMaxZoom: int, maxZoom: int, bounds: Option<GeoBounds>)

  type Tile = (nat, nat, nat)

  const MAX_EXTRACT_TILES: nat := 20_000_000

  /** A range of tiles of zoom `z`, as clamping into the zoom leaves it for a box with a size. */
  predicate RangeFits(r: TileRange, z: nat) {
    r.minX <= r.maxX < Pow2(z) && r.minY <= r.maxY < Pow2(z)
  }

  ghost predicate RangesFit(rangeOf: RangeOf) {
    forall b: GeoBounds, z: nat :: z <= PM_MAX_ZOOM && b.west < b.east && b.south < b.north ==> RangeFits(rangeOf(b, z), z)
  }

  predicate ZoomOk(z: int) {
    0 <= z <= PM_MAX_ZOOM
  }

  function RangeSize(r: TileRange): int {
    (r.maxX - r.minX + 1) * (r.maxY - r.minY + 1)
  }

  /** How many tiles the area's boxes hold from zoom `z` down. */
  function AreaCount(sel: ExtractSelection, rangeOf: RangeOf, z: nat): int
    decreases sel.maxZoom + 1 - z
  {
    if sel.bounds.None? || z > sel.maxZoom then 0
    else RangeSize(rangeOf(sel.bounds.value, z)) + AreaCount(sel, rangeOf, z + 1)
  }

  function WorldEnd(sel: ExtractSelection): nat
    requires sel.worldMaxZoom >= 0
  {
    ZoomStartId(sel.worldMaxZoom + 1)
  }

  function TileCount(sel: ExtractSelection, rangeOf: RangeOf): int
    requires sel.worldMaxZoom >= 0
  {
    WorldEnd(sel) + AreaCount(sel, rangeOf, sel.worldMaxZoom + 1)
  }

  method SelectionTileCount(sel: ExtractSelection, rangeOf: RangeOf) returns (n: int)
    requires sel.worldMaxZoom >= 0
    ensures n == TileCount(sel, rangeOf)
  {
    n := ZoomStartId(sel.worldMaxZoom + 1);
    if sel.bounds.Some? {
      var z := sel.worldMaxZoom + 1;
      while z <= sel.maxZoom
        invariant z > 0
        invariant n + AreaCount(sel, rangeOf, z) == TileCount(sel, rangeOf)
      {
        n := n + RangeSize(rangeOf(sel.bounds.value, z));
        z := z + 1;
      }
    }
  }

  /** Why a selection is refused before anything is read; nothing when it is accepted. */
  function SelectionProblem(sel: ExtractSelection, rangeOf: RangeOf): Option<string> {
    if !ZoomOk(sel.worldMaxZoom) || !ZoomOk(sel.maxZoom) then Some("zooms are whole numbers from 0 to 15")
    else if sel.maxZoom < sel.worldMaxZoom then Some("the area zoom must be at least the world zoom")
    else if sel.bounds.Some? && !OnEarth(sel.bounds.value) then Some("the area is not on the Earth")
    else if sel.bounds.Some? && (sel.bounds.value.west >= sel.bounds.value.east || sel.bounds.value.south >= sel.bounds.value.north)
    then Some("the area has no size (or crosses 180 degrees)")
    else if TileCount(sel, rangeOf) > MAX_EXTRACT_TILES then Some("that area and zoom are too many tiles")
    else None
  }

  predicate OnEarth(b: GeoBounds) {
    && -180.0 <= b.west <= 180.0 && -180.0 <= b.east <= 180.0
    && -90.0 <= b.south <= 90.0 && -90.0 <= b.north <= 90.0
  }

  /** A tile of the area, below the world part. */
  predicate InArea(sel: ExtractSelection, rangeOf: RangeOf, t: Tile) {
    && sel.bounds.Some? && sel.worldMaxZoom < t.0 <= sel.maxZoom
    && var r := rangeOf(sel.bounds.value, t.0);
       r.minX <= t.1 <= r.maxX && r.minY <= t.2 <= r.maxY
  }

  predicate Selected(sel: ExtractSelection, rangeOf: RangeOf, t: Tile) {
    t.0 <= sel.worldMaxZoom || InArea(sel, rangeOf, t)
  }

  // ---- the tiles of the area, in the order they are pushed ---------------------------------------------

  function ColumnTiles(z: nat, x: nat, y: nat, maxY: nat): (ts: seq<Tile>)
    decreases maxY + 1 - y
  {
    if y > maxY then [] else [(z, x, y)] + ColumnTiles(z, x, y + 1, maxY)
  }

  function ZoomTiles(z: nat, x: nat, r: TileRange): (ts: seq<Tile>)
    decreases r.maxX + 1 - x
  {
    if x > r.maxX then [] else ColumnTiles(z, x, r.minY, r.maxY) + ZoomTiles(z, x + 1, r)
  }

  function AreaTiles(sel: ExtractSelection, rangeOf: RangeOf, z: nat): (ts: seq<Tile>)
    decreases sel.maxZoom + 1 - z
  {
    if sel.bounds.None? || z > sel.maxZoom then [] else
      var r := rangeOf(sel.bounds.value, z);
      ZoomTiles(z, r.minX, r) + AreaTiles(sel, rangeOf, z + 1)
  }

  predicate Before(s: Tile, t: Tile) {
    s.0 < t.0 || (s.0 == t.0 && (s.1 < t.1 || (s.1 == t.1 && s.2 < t.2)))
  }

  /** Tiles by zoom, column and row: no tile twice. */
  predicate InOrder(ts: seq<Tile>) {
    forall i, j :: 0 <= i < j < |ts| ==> Before(ts[i], ts[j])
  }

  lemma {:induction false} ColumnTilesAre(z: nat, x: nat, y: nat, maxY: nat)
    ensures forall t: Tile :: t in ColumnTiles(z, x, y, maxY) <==> t.0 == z && t.1 == x && y <= t.2 <= maxY
    ensures InOrder(ColumnTiles(z, x, y, maxY))
    ensures |ColumnTiles(z, x, y, maxY)| == if y > maxY then 0 else maxY + 1 - y
    decreases maxY + 1 - y
  {
    if y <= maxY {
      ColumnTilesAre(z, x, y + 1, maxY);
    }
  }

  lemma JoinInOrder(a: seq<Tile>, b: seq<Tile>)
    requires InOrder(a) && InOrder(b) && forall s, t :: s in a && t in b ==> Before(s, t)
    ensures InOrder(a + b)
  {
  }

  lemma {:induction false} ZoomTilesAre(z: nat, x: nat, r: TileRange)
    ensures forall t: Tile :: t in ZoomTiles(z, x, r) <==> t.0 == z && x <= t.1 <= r.maxX && r.minY <= t.2 <= r.maxY
    ensures InOrder(ZoomTiles(z, x, r))
    decreases r.maxX + 1 - x
  {
    hide ColumnTiles, InOrder;
    if x <= r.maxX {
      ZoomTilesAre(z, x + 1, r);
      ColumnTilesAre(z, x, r.minY, r.maxY);
      JoinInOrder(ColumnTiles(z, x, r.minY, r.maxY), ZoomTiles(z, x + 1, r));
    } else {
      NoTilesInOrder();
    }
  }

  lemma NoTilesInOrder()
    ensures InOrder([])
  {
  }

  lemma {:induction false} ZoomTilesCount(z: nat, x: nat, r: TileRange)
    requires r.minY <= r.maxY && x <= r.maxX + 1
    ensures |ZoomTiles(z, x, r)| == (r.maxX - x + 1) * (r.maxY - r.minY + 1)
    decreases r.maxX + 1 - x
  {
    hide ColumnTiles;
    if x <= r.maxX {
      ZoomTilesCount(z, x + 1, r);
      ColumnTilesAre(z, x, r.minY, r.maxY);
      var rows := r.maxY - r.minY + 1;
      assert (r.maxX - x + 1) * rows == rows + (r.maxX - (x + 1) + 1) * rows;
    }
  }

  /** What the planner relies on of an accepted selection. */
  ghost predicate Accepted(sel: ExtractSelection, rangeOf: RangeOf) {
    RangesFit(rangeOf) && SelectionProblem(sel, rangeOf).None?
  }

  lemma AcceptedZooms(sel: ExtractSelection, rangeOf: RangeOf)
    requires Accepted(sel, rangeOf)
    ensures 0 <= sel.worldMaxZoom <= sel.maxZoom <= PM_MAX_ZOOM
  {
  }

  lemma AcceptedRange(sel: ExtractSelection, rangeOf: RangeOf, z: nat)
    requires Accepted(sel, rangeOf) && sel.bounds.Some? && z <= sel.maxZoom
    ensures z <= PM_MAX_ZOOM && RangeFits(rangeOf(sel.bounds.value, z), z)
  {
  }

  lemma {:induction false} AreaTilesAre(sel: ExtractSelection, rangeOf: RangeOf, z: nat)
    requires Accepted(sel, rangeOf) && z > sel.worldMaxZoom
    ensures forall t: Tile :: t in AreaTiles(sel, rangeOf, z) <==> InArea(sel, rangeOf, t) && t.0 >= z
    ensures InOrder(AreaTiles(sel, rangeOf, z)) && |AreaTiles(sel, rangeOf, z)| == AreaCount(sel, rangeOf, z)
    decreases sel.maxZoom + 1 - z
  {
    hide Accepted, InOrder, ZoomTiles, RangeFits;
    if sel.bounds.Some? && z <= sel.maxZoom {
      var r := rangeOf(sel.bounds.value, z);
      AcceptedRange(sel, rangeOf, z);
      AreaTilesAre(sel, rangeOf, z + 1);
      RangeIsNonEmpty(r, z);
      ZoomTilesAre(z, r.minX, r);
      ZoomTilesCount(z, r.minX, r);
      JoinInOrder(ZoomTiles(z, r.minX, r), AreaTiles(sel, rangeOf, z + 1));
    } else {
      NoTilesInOrder();
    }
  }

  lemma RangeIsNonEmpty(r: TileRange, z: nat)
    requires RangeFits(r, z)
    ensures r.minX <= r.maxX && r.minY <= r.maxY
  {
  }

  lemma AreaTilesAreTiles(sel: ExtractSelection, rangeOf: RangeOf, t: Tile)
    requires Accepted(sel, rangeOf) && InArea(sel, rangeOf, t)
    ensures IsTile(t)
  {
    AcceptedRange(sel, rangeOf, t.0);
  }

  // ---- the wanted ids ------------------------------------------------------------------------------------

  function IdOf(t: Tile): nat {
    if IsTile(t) then TileId(t.0, t.1, t.2) else 0
  }

  function Ids(ts: seq<Tile>): (ids: seq<nat>)
    ensures |ids| == |ts|
  {
    seq(|ts|, i requires 0 <= i < |ts| => IdOf(ts[i]))
  }

  function AtMost(a: nat, b: nat): bool {
    a <= b
  }

  /** The area's ids in increasing order. */
  function AreaOf(sel: ExtractSelection, rangeOf: RangeOf): seq<nat>
    requires sel.worldMaxZoom >= 0
  {
    Sort(Ids(AreaTiles(sel, rangeOf, sel.worldMaxZoom + 1)), AtMost)
  }

  lemma IdsAppend(a: seq<Tile>, b: seq<Tile>)
    ensures Ids(a + b) == Ids(a) + Ids(b)
  {
  }

  method PushColumn(ids: seq<nat>, z: nat, x: nat, r: TileRange) returns (more: seq<nat>)
    requires RangeFits(r, z) && z <= PM_MAX_ZOOM && x <= r.maxX
    ensures more == ids + Ids(ColumnTiles(z, x, r.minY, r.maxY))
  {
    hide TileId;
    more := ids;
    var y := r.minY;
    while y <= r.maxY
      invariant r.minY <= y
      invariant more + Ids(ColumnTiles(z, x, y, r.maxY)) == ids + Ids(ColumnTiles(z, x, r.minY, r.maxY))
    {
      var id := ZxyToTileId(z, x, y);
      IdsAppend([(z, x, y)], ColumnTiles(z, x, y + 1, r.maxY));
      assert Ids([(z, x, y)]) == [id.value];
      more := more + [id.value];
      y := y + 1;
    }
  }

  method PushZoom(ids: seq<nat>, z: nat, r: TileRange) returns (more: seq<nat>)
    requires RangeFits(r, z) && z <= PM_MAX_ZOOM
    ensures more == ids + Ids(ZoomTiles(z, r.minX, r))
  {
    hide ColumnTiles, Ids;
    more := ids;
    var x := r.minX;
    while x <= r.maxX
      invariant r.minX <= x
      invariant more + Ids(ZoomTiles(z, x, r)) == ids + Ids(ZoomTiles(z, r.minX, r))
    {
      IdsAppend(ColumnTiles(z, x, r.minY, r.maxY), ZoomTiles(z, x + 1, r));
      more := PushColumn(more, z, x, r);
      x := x + 1;
    }
    NoIds();
  }

  lemma NoIds()
    ensures Ids([]) == []
  {
  }

  /** The source's three nested loops, one method each. */
  method WantedIds(sel: ExtractSelection, rangeOf: RangeOf) returns (worldEnd: nat, area: seq<nat>)
    requires Accepted(sel, rangeOf)
    ensures worldEnd == WorldEnd(sel) && area == AreaOf(sel, rangeOf)
  {
    hide ZoomTiles, Ids, Accepted, ZoomStartId;
    AcceptedZooms(sel, rangeOf);
    worldEnd := ZoomStartId(sel.worldMaxZoom + 1);
    NoIds();
    if sel.bounds.None? || sel.maxZoom == sel.worldMaxZoom {
      return worldEnd, [];
    }
    var ids: seq<nat>, z := [], sel.worldMaxZoom + 1;
    while z <= sel.maxZoom
      invariant sel.worldMaxZoom < z
      invariant ids + Ids(AreaTiles(sel, rangeOf, z)) == Ids(AreaTiles(sel, rangeOf, sel.worldMaxZoom + 1))
    {
      AcceptedRange(sel, rangeOf, z);
      var r := rangeOf(sel.bounds.value, z);
      IdsAppend(ZoomTiles(z, r.minX, r), AreaTiles(sel, rangeOf, z + 1));
      ids := PushZoom(ids, z, r);
      z := z + 1;
    }
    assert ids + Ids([]) == ids;
    area := Sort(ids, AtMost);
  }

  /** Ids in increasing order, none twice. */
  predicate Increasing(a: seq<nat>) {
    forall i, j :: 0 <= i < j < |a| ==> a[i] < a[j]
  }

  lemma IdsOfTilesInOrder(ts: seq<Tile>)
    requires InOrder(ts) && forall t :: t in ts ==> IsTile(t)
    ensures NoDuplicates(Ids(ts))
  {
    hide TileId;
    forall i, j | 0 <= i < j < |ts|
      ensures Ids(ts)[i] != Ids(ts)[j]
    {
      TileIdsAreDistinct(ts[i], ts[j]);
    }
  }

  lemma IdInIds(ts: seq<Tile>, t: Tile)
    requires IsTile(t) && forall s :: s in ts ==> IsTile(s)
    ensures IdOf(t) in Ids(ts) <==> t in ts
  {
    hide TileId;
    if t in ts {
      var i :| 0 <= i < |ts| && ts[i] == t;
      assert Ids(ts)[i] == IdOf(t);
    }
    if IdOf(t) in Ids(ts) && t !in ts {
      var i :| 0 <= i < |ts| && Ids(ts)[i] == IdOf(t);
      TileIdsAreDistinct(ts[i], t);
      assert false;
    }
  }

  lemma AtMostIsAnOrder()
    ensures TotalOrder<nat>(AtMost)
  {
  }

  /** The area's ids are distinct, all after the world part, and as many as the selection's count says. */
  lemma AreaIsExact(sel: ExtractSelection, rangeOf: RangeOf)
    requires Accepted(sel, rangeOf)
    ensures Increasing(AreaOf(sel, rangeOf))
    ensures forall i :: 0 <= i < |AreaOf(sel, rangeOf)| ==> WorldEnd(sel) <= AreaOf(sel, rangeOf)[i] < ZoomStartId(PM_MAX_ZOOM + 1)
    ensures WorldEnd(sel) + |AreaOf(sel, rangeOf)| == TileCount(sel, rangeOf) <= MAX_EXTRACT_TILES
  {
    hide AreaTiles, TileId, AreaCount, ZoomStartId, Ids;
    var ts := AreaTiles(sel, rangeOf, sel.worldMaxZoom + 1);
    AreaTilesAre(sel, rangeOf, sel.worldMaxZoom + 1);
    forall t | t in ts
      ensures IsTile(t)
    {
      AreaTilesAreTiles(sel, rangeOf, t);
    }
    IdsOfTilesInOrder(ts);
    AtMostIsAnOrder();
    SortSorts<nat>(Ids(ts), AtMost);
    SortKeepsDistinct<nat>(Ids(ts), AtMost);
    var area := AreaOf(sel, rangeOf);
    forall i | 0 <= i < |area|
      ensures WorldEnd(sel) <= area[i] < ZoomStartId(PM_MAX_ZOOM + 1)
    {
      SortMembers<nat>(Ids(ts), AtMost, area[i]);
      var t := TileOfId(ts, area[i]);
      AreaTileIsDeep(sel, rangeOf, t);
    }
  }

  lemma TileOfId(ts: seq<Tile>, id: nat) returns (t: Tile)
    requires id in Ids(ts)
    ensures t in ts && IdOf(t) == id
  {
    var i :| 0 <= i < |ts| && Ids(ts)[i] == id;
    t := ts[i];
  }

  lemma AreaTileIsDeep(sel: ExtractSelection, rangeOf: RangeOf, t: Tile)
    requires Accepted(sel, rangeOf) && InArea(sel, rangeOf, t)
    ensures WorldEnd(sel) <= IdOf(t) < ZoomStartId(PM_MAX_ZOOM + 1)
  {
    hide TileId, ZoomStartId;
    AreaTilesAreTiles(sel, rangeOf, t);
    TileIdInZoom(t.0, t.1, t.2);
    ZoomStartMonotone(sel.worldMaxZoom, t.0);
    ZoomStartMonotone(t.0, PM_MAX_ZOOM + 1);
  }

  /** A tile's id is wanted exactly when the tile is in the world part or in the area. */
  lemma WantedIsSelected(sel: ExtractSelection, rangeOf: RangeOf, t: Tile)
    requires Accepted(sel, rangeOf) && IsTile(t)
    ensures IdOf(t) < WorldEnd(sel) || IdOf(t) in AreaOf(sel, rangeOf) <==> Selected(sel, rangeOf, t)
  {
    hide AreaTiles, TileId, ZoomStartId, Ids;
    var ts := AreaTiles(sel, rangeOf, sel.worldMaxZoom + 1);
    AreaTilesAre(sel, rangeOf, sel.worldMaxZoom + 1);
    forall s | s in ts
      ensures IsTile(s)
    {
      AreaTilesAreTiles(sel, rangeOf, s);
    }
    AtMostIsAnOrder();
    SortMembers<nat>(Ids(ts), AtMost, IdOf(t));
    IdInIds(ts, t);
    TileIdInZoom(t.0, t.1, t.2);
    if t.0 <= sel.worldMaxZoom {
      WorldTile(sel, t);
    } else {
      ZoomStartMonotone(sel.worldMaxZoom, t.0);
    }
  }

  lemma WorldTile(sel: ExtractSelection, t: Tile)
    requires IsTile(t) && t.0 <= sel.worldMaxZoom
    ensures IdOf(t) < WorldEnd(sel)
  {
    hide TileId, ZoomStartId;
    TileIdInZoom(t.0, t.1, t.2);
    ZoomStartMonotone(t.0, sel.worldMaxZoom + 1);
  }

  // ---- searching the sorted ids --------------------------------------------------------------------------

  /** The number of values before the first one at or after `v`. */
  function CountBelow(a: seq<nat>, v: nat): (k: nat)
    ensures k <= |a|
  {
    if a == [] || a[0] >= v then 0 else 1 + CountBelow(a[1..], v)
  }

  lemma {:induction false} CountBelowSplits(a: seq<nat>, v: nat)
    requires Increasing(a)
    ensures forall i :: 0 <= i < CountBelow(a, v) ==> a[i] < v
    ensures forall i :: CountBelow(a, v) <= i < |a| ==> a[i] >= v
  {
    if a != [] && a[0] < v {
      CountBelowSplits(a[1..], v);
    }
  }

  method LowerBound(a: seq<nat>, v: nat) returns (lo: nat)
    requires Increasing(a)
    ensures lo == CountBelow(a, v)
  {
    hide CountBelow;
    CountBelowSplits(a, v);
    var hi;
    lo, hi := 0, |a|;
    while lo < hi
      invariant 0 <= lo <= CountBelow(a, v) <= hi <= |a|
    {
      var mid := (lo + hi) / 2;
      if a[mid] < v {
        lo := mid + 1;
      } else {
        hi := mid;
      }
    }
  }
}
