/**
 * The live spatial index: a grid of cells with exact filtering
 * (packages/hot-spatial-index/src/index.ts), over the boxes of packages/world-model/src/geo.ts,
 * `boundsContain` and `boundsIntersect`. Degrees are real numbers.
 */
module GridIndex {
  import opened Wrappers
  import opened Sorting

  datatype Position = Position(latitude: real, longitude: real)

  /** A box of latitudes and longitudes; it crosses the antimeridian when its west is above its east. */
  datatype Bounds = Bounds(west: real, south: real, east: real, north: real)

  datatype Item = Item(id: string, at: Position, kind: Option<string>)

  type Cell = (int, int)

  predicate InWorld(p: Position) {
    -90.0 <= p.latitude <= 90.0 && -180.0 <= p.longitude <= 180.0
  }

  predicate Contains(b: Bounds, p: Position) {
    && b.south <= p.latitude <= b.north
    && if b.west <= b.east then b.west <= p.longitude <= b.east else p.longitude >= b.west || p.longitude <= b.east
  }

  predicate Intersect(a: Bounds, b: Bounds) {
    if a.north < b.south || a.south > b.north then false
    else if a.west <= a.east && b.west <= b.east then !(a.east < b.west || a.west > b.east)
    else if a.west > a.east && b.west > b.east then true
    else
      var s, n := if a.west > a.east then a else b, if a.west > a.east then b else a;
      n.east >= s.west || n.west <= s.east
  }

  /** Boxes that share a position intersect. */
  lemma SharedPositionIntersects(a: Bounds, b: Bounds, p: Position)
    requires Contains(a, p) && Contains(b, p)
    ensures Intersect(a, b)
  {
  }

  /** And only such boxes do. */
  lemma IntersectingShare(a: Bounds, b: Bounds) returns (p: Position)
    requires a.south <= a.north && b.south <= b.north && Intersect(a, b)
    ensures Contains(a, p) && Contains(b, p)
  {
    var lat := if a.south < b.south then b.south else a.south;
    var west := if a.west < b.west then b.west else a.west;
    if a.west <= a.east && b.west > b.east {
      p := Position(lat, if a.east >= b.west then a.east else a.west);
    } else if a.west > a.east && b.west <= b.east {
      p := Position(lat, if b.east >= a.west then b.east else b.west);
    } else {
      p := Position(lat, west);
    }
  }

  // ---- rows and columns -----------------------------------------------------------------------------------

  /** The size of a cell when half the circle is `rows` of them. */
  function CellSize(rows: nat): (s: real)
    requires rows > 0
    ensures s > 0.0 && rows as real * s == 180.0
  {
    180.0 / rows as real
  }

  /** Where the `n`th cell starts, from the south or the west. */
  function Edge(n: int, rows: nat): real
    requires rows > 0
  {
    n as real * CellSize(rows)
  }

  lemma Edges(n: int, rows: nat)
    requires rows > 0
    ensures Edge(n + 1, rows) == Edge(n, rows) + CellSize(rows)
    ensures Edge(0, rows) == 0.0 && Edge(rows, rows) == 180.0 && Edge(2 * rows, rows) == 360.0
  {
    hide CellSize;
    assert (2 * rows) as real * CellSize(rows) == 2.0 * (rows as real * CellSize(rows));
    assert (n + 1) as real * CellSize(rows) == n as real * CellSize(rows) + CellSize(rows);
  }

  /** How many whole cells fit below a distance. */
  function Index(d: real, rows: nat): int
    requires rows > 0
  {
    (d / CellSize(rows)).Floor
  }

  /** `n` cells fit below a distance exactly when it is that long. */
  lemma IndexAtLeast(d: real, rows: nat, n: int)
    requires rows > 0
    ensures Index(d, rows) >= n <==> d >= Edge(n, rows)
  {
    var s := CellSize(rows);
    var q := d / s;
    assert q * s == d;
    assert q >= n as real <==> q.Floor >= n;
    if q >= n as real {
      ScaleUp(n as real, q, s);
    } else {
      ScaleUpStrict(q, n as real, s);
    }
  }

  lemma ScaleUp(a: real, b: real, s: real)
    requires a <= b && s > 0.0
    ensures a * s <= b * s
  {
    assert (b - a) * s >= 0.0;
  }

  lemma ScaleUpStrict(a: real, b: real, s: real)
    requires a < b && s > 0.0
    ensures a * s < b * s
  {
    assert (b - a) * s > 0.0;
  }

  lemma IndexMonotone(d: real, e: real, rows: nat)
    requires rows > 0 && d <= e
    ensures Index(d, rows) <= Index(e, rows)
  {
    IndexAtLeast(d, rows, Index(d, rows));
    IndexAtLeast(e, rows, Index(d, rows));
  }

  function Min(a: int, b: int): int {
    if a < b then a else b
  }

  function Max(a: int, b: int): int {
    if a > b then a else b
  }

  /** The cell of a position: the last row and column take the positions on their far edge. */
  function CellOf(p: Position, rows: nat): Cell
    requires rows > 0
  {
    (Min(Index(p.latitude + 90.0, rows), rows - 1), Min(Index(p.longitude + 180.0, rows), 2 * rows - 1))
  }

  function CellBounds(c: Cell, rows: nat): Bounds
    requires rows > 0
  {
    Bounds(-180.0 + Edge(c.1, rows), -90.0 + Edge(c.0, rows), -180.0 + Edge(c.1 + 1, rows), -90.0 + Edge(c.0 + 1, rows))
  }

  /** A position of the world lies in its cell's box. */
  lemma PositionIsInItsCell(p: Position, rows: nat)
    requires rows > 0 && InWorld(p)
    ensures Contains(CellBounds(CellOf(p, rows), rows), p)
    ensures 0 <= CellOf(p, rows).0 < rows && 0 <= CellOf(p, rows).1 < 2 * rows
  {
    hide CellSize, Index, Edge;
    Edges(CellOf(p, rows).1, rows);
    BoxOfIndex(p.latitude + 90.0, rows, rows);
    BoxOfIndex(p.longitude + 180.0, rows, 2 * rows);
  }

  /** A distance up to `n` cells lies in the box of its index, the last box closed. */
  lemma BoxOfIndex(d: real, rows: nat, n: nat)
    requires rows > 0 && n > 0 && 0.0 <= d <= Edge(n, rows)
    ensures var i := Min(Index(d, rows), n - 1);
            0 <= i < n && Edge(i, rows) <= d <= Edge(i + 1, rows)
  {
    hide CellSize, Index, Edge;
    Edges(0, rows);
    var i := Index(d, rows);
    IndexAtLeast(d, rows, 0);
    IndexAtLeast(d, rows, i);
    IndexAtLeast(d, rows, i + 1);
    IndexAtLeast(d, rows, n - 1);
  }

  // ---- candidate cells ---------------------------------------------------------------------------------------

  /** A box that crosses the antimeridian is looked for in two parts. */
  function Parts(b: Bounds): seq<Bounds> {
    if b.west <= b.east then [b] else [b.(east := 180.0), b.(west := -180.0)]
  }

  /** The rows and columns looked through for a box: from `r0` to `r1`, from `c0` to `c1`. */
  datatype Window = Window(r0: int, r1: int, c0: int, c1: int)

  function WindowOf(b: Bounds, rows: nat): Window
    requires rows > 0
  {
    Window(Max(0, Index(b.south + 90.0, rows)), Min(rows - 1, Index(b.north + 90.0, rows)),
           Max(0, Index(b.west + 180.0, rows)), Min(2 * rows - 1, Index(b.east + 180.0, rows)))
  }

  predicate InWindow(c: Cell, w: Window) {
    w.r0 <= c.0 <= w.r1 && w.c0 <= c.1 <= w.c1
  }

  /** Wider than there are cells, the box is looked for cell by cell. */
  predicate CellByCell(w: Window, cells: int) {
    (w.r1 - w.r0 + 1) * (w.c1 - w.c0 + 1) > cells
  }

  predicate IsCandidateFor(c: Cell, b: Bounds, rows: nat, cells: int)
    requires rows > 0
  {
    if CellByCell(WindowOf(b, rows), cells) then Intersect(CellBounds(c, rows), b) else InWindow(c, WindowOf(b, rows))
  }

  predicate IsCandidate(c: Cell, b: Bounds, rows: nat, cells: int)
    requires rows > 0
  {
    exists part :: part in Parts(b) && IsCandidateFor(c, part, rows, cells)
  }

  /** A box misses a position on its own edge only at the pole or at the antimeridian. */
  lemma PartFinds(b: Bounds, rows: nat, cells: int, p: Position)
    requires rows > 0 && InWorld(p) && b.south <= p.latitude <= b.north && b.west <= p.longitude <= b.east
    requires b.south < 90.0 && b.west < 180.0
    ensures IsCandidateFor(CellOf(p, rows), b, rows, cells)
  {
    hide CellSize, Index, Edge, Intersect, CellByCell;
    var c := CellOf(p, rows);
    PositionIsInItsCell(p, rows);
    assert Intersect(CellBounds(c, rows), b) by { SharedPositionIntersects(CellBounds(c, rows), b, p); }
    hide CellBounds;
    IndexMonotone(b.south + 90.0, p.latitude + 90.0, rows);
    IndexMonotone(p.latitude + 90.0, b.north + 90.0, rows);
    IndexMonotone(b.west + 180.0, p.longitude + 180.0, rows);
    IndexMonotone(p.longitude + 180.0, b.east + 180.0, rows);
    IndexAtLeast(b.south + 90.0, rows, rows);
    IndexAtLeast(b.west + 180.0, rows, 2 * rows);
    Edges(0, rows);
  }

  // ---- when every position in a box is found --------------------------------------------------------------------

  /** The box has no position of the world in it. */
  predicate IsEmpty(b: Bounds) {
    || b.south > b.north || b.south > 90.0 || b.north < -90.0
    || if b.west <= b.east then b.west > 180.0 || b.east < -180.0 else b.west > 180.0 && b.east < -180.0
  }

  /** The box does not start at the pole, nor at 180 unless it reaches round to the last column. */
  predicate IsSearchable(b: Bounds, rows: nat)
    requires rows > 0
  {
    IsEmpty(b) || (b.south != 90.0 && (b.west != 180.0 || (b.west > b.east && b.east >= 180.0 - CellSize(rows))))
  }

  /** The cell of every position of the world in the box is a candidate, however many cells there are. */
  ghost predicate FindsAll(b: Bounds, rows: nat)
    requires rows > 0
  {
    forall p: Position, cells: nat :: InWorld(p) && Contains(b, p) ==> IsCandidate(CellOf(p, rows), b, rows, cells)
  }

  /** A position at 180 is found from the other side when the box reaches the last column there. */
  lemma FoundFromTheWest(b: Bounds, rows: nat, cells: int, p: Position)
    requires rows > 0 && InWorld(p) && b.south <= p.latitude <= b.north && b.south < 90.0 && p.longitude == 180.0
    requires b.west == -180.0 && 180.0 - CellSize(rows) <= b.east < 180.0
    ensures IsCandidateFor(CellOf(p, rows), b, rows, cells)
  {
    hide CellSize, Index, Edge, CellByCell;
    PositionIsInItsCell(p, rows);
    Edges(2 * rows - 1, rows);
    Edges(0, rows);
    IndexAtLeast(b.east + 180.0, rows, 2 * rows - 1);
    IndexAtLeast(p.longitude + 180.0, rows, 2 * rows - 1);
    IndexAtLeast(b.west + 180.0, rows, 1);
    IndexMonotone(b.south + 90.0, p.latitude + 90.0, rows);
    IndexMonotone(p.latitude + 90.0, b.north + 90.0, rows);
    IndexAtLeast(b.south + 90.0, rows, rows);
  }

  lemma SearchableFinds(b: Bounds, rows: nat, cells: int, p: Position)
    requires rows > 0 && IsSearchable(b, rows) && InWorld(p) && Contains(b, p)
    ensures IsCandidate(CellOf(p, rows), b, rows, cells)
  {
    hide CellSize, CellOf, IsCandidateFor;
    if b.west <= b.east {
      PartFinds(b, rows, cells, p);
      assert b in Parts(b);
    } else if p.longitude >= b.west && b.west != 180.0 {
      PartFinds(b.(east := 180.0), rows, cells, p);
      assert b.(east := 180.0) in Parts(b);
    } else {
      if p.longitude <= b.east {
        PartFinds(b.(west := -180.0), rows, cells, p);
      } else {
        FoundFromTheWest(b.(west := -180.0), rows, cells, p);
      }
      assert b.(west := -180.0) in Parts(b);
    }
  }

  /** From the pole on there are no rows to look through. */
  lemma PoleHasNoRows(b: Bounds, rows: nat, cells: nat, c: Cell)
    requires rows > 0 && b.south == 90.0 && b.north >= 90.0
    ensures !IsCandidateFor(c, b, rows, cells)
  {
    hide CellSize, Index, Edge, Intersect, CellBounds;
    IndexAtLeast(180.0, rows, rows);
    IndexAtLeast(180.0, rows, rows + 1);
    Edges(rows, rows);
    IndexAtLeast(b.north + 90.0, rows, rows);
    var w := WindowOf(b, rows);
    assert w.r1 - w.r0 + 1 == 0;
    assert (w.r1 - w.r0 + 1) * (w.c1 - w.c0 + 1) == 0;
  }

  /** From 180 on there are no columns to look through. */
  lemma EdgeHasNoColumns(b: Bounds, rows: nat, cells: nat, c: Cell)
    requires rows > 0 && b.west == 180.0 && b.east >= 180.0
    ensures !IsCandidateFor(c, b, rows, cells)
  {
    hide CellSize, Index, Edge, Intersect, CellBounds;
    Edges(2 * rows, rows);
    IndexAtLeast(360.0, rows, 2 * rows);
    IndexAtLeast(360.0, rows, 2 * rows + 1);
    IndexAtLeast(b.east + 180.0, rows, 2 * rows);
    var w := WindowOf(b, rows);
    assert w.c1 - w.c0 + 1 == 0;
    assert (w.r1 - w.r0 + 1) * (w.c1 - w.c0 + 1) == 0;
  }

  /** A box that ends short of the last column does not have it. */
  lemma ShortOfTheLastColumn(b: Bounds, rows: nat, cells: nat, c: Cell)
    requires rows > 0 && b.west == -180.0 && b.west <= b.east < 180.0 - CellSize(rows) && c.1 == 2 * rows - 1
    ensures !IsCandidateFor(c, b, rows, cells)
  {
    hide CellSize, Index, Edge, CellByCell;
    Edges(2 * rows - 1, rows);
    Edges(2 * rows, rows);
    IndexAtLeast(b.east + 180.0, rows, 2 * rows - 1);
  }

  /** A box that ends before -180 has nothing. */
  lemma EndsBefore(b: Bounds, rows: nat, cells: nat, c: Cell)
    requires rows > 0 && b.west == -180.0 && b.east < -180.0 && 0 <= c.1 < 2 * rows
    ensures b.south <= b.north && b.south < 90.0 && b.north >= -90.0 ==> !IsCandidateFor(c, b, rows, cells)
  {
    hide CellSize, Index, Edge, CellBounds, Intersect;
    Edges(0, rows);
    var w := WindowOf(b, rows);
    IndexAtLeast(b.east + 180.0, rows, 0);
    if b.south <= b.north && b.south < 90.0 && b.north >= -90.0 {
      IndexMonotone(b.south + 90.0, b.north + 90.0, rows);
      IndexAtLeast(b.south + 90.0, rows, rows);
      IndexAtLeast(b.north + 90.0, rows, 0);
      assert w.r1 - w.r0 + 1 >= 0 && w.c1 - w.c0 + 1 <= 0;
      NegativeProduct(w.r1 - w.r0 + 1, w.c1 - w.c0 + 1);
    }
  }

  lemma NegativeProduct(a: int, b: int)
    requires a >= 0 && b <= 0
    ensures a * b <= 0
  {
  }

  /** A position of the world in a box that is not searchable, whose cell is not looked in. */
  lemma MissedPosition(b: Bounds, rows: nat, cells: nat) returns (p: Position)
    requires rows > 0 && !IsSearchable(b, rows)
    ensures InWorld(p) && Contains(b, p) && !IsCandidate(CellOf(p, rows), b, rows, cells)
  {
    hide CellSize, Index, Edge, IsCandidateFor;
    if b.south == 90.0 {
      var lon := if b.west <= b.east || b.west <= 180.0 then (if b.west < -180.0 then -180.0 else b.west) else if b.east > 180.0 then 180.0 else b.east;
      p := Position(90.0, lon);
      forall part | part in Parts(b) ensures !IsCandidateFor(CellOf(p, rows), part, rows, cells) {
        PoleHasNoRows(part, rows, cells, CellOf(p, rows));
      }
    } else {
      p := Position(if b.south < -90.0 then -90.0 else b.south, 180.0);
      Edges(0, rows);
      IndexAtLeast(360.0, rows, 2 * rows);
      forall part | part in Parts(b) ensures !IsCandidateFor(CellOf(p, rows), part, rows, cells) {
        if part.west == 180.0 {
          EdgeHasNoColumns(part, rows, cells, CellOf(p, rows));
        } else if part.east >= -180.0 {
          ShortOfTheLastColumn(part, rows, cells, CellOf(p, rows));
        } else {
          EndsBefore(part, rows, cells, CellOf(p, rows));
        }
      }
    }
  }

  /** Every position in a box is found exactly when the box is searchable. */
  lemma FindsAllIffSearchable(b: Bounds, rows: nat)
    requires rows > 0
    ensures FindsAll(b, rows) <==> IsSearchable(b, rows)
  {
    if IsSearchable(b, rows) {
      forall p: Position, cells: nat | InWorld(p) && Contains(b, p)
        ensures IsCandidate(CellOf(p, rows), b, rows, cells)
      {
        SearchableFinds(b, rows, cells, p);
      }
    } else {
      var p := MissedPosition(b, rows, 0);
    }
  }

  // ---- the index -------------------------------------------------------------------------------------------------

  datatype Entry = Entry(item: Item, cell: Cell)

  /** Every item is in the cell of its position, and in no other; no cell is empty. */
  ghost predicate Agree(cells: map<Cell, map<string, Item>>, items: map<string, Entry>, rows: nat)
    requires rows > 0
  {
    && (forall id :: id in items ==> items[id].item.id == id && items[id].cell == CellOf(items[id].item.at, rows))
    && (forall id :: id in items ==> items[id].cell in cells && id in cells[items[id].cell])
    && (forall c, id :: c in cells && id in cells[c] ==> id in items && items[id] == Entry(cells[c][id], c))
    && (forall c :: c in cells ==> cells[c] != map[])
  }

  /** An item put in the cell of its position. */
  function Put(cells: map<Cell, map<string, Item>>, c: Cell, item: Item): map<Cell, map<string, Item>> {
    cells[c := (if c in cells then cells[c] else map[])[item.id := item]]
  }

  /** An item taken out of a cell, and the cell with it when it was the last. */
  function Take(cells: map<Cell, map<string, Item>>, c: Cell, id: string): map<Cell, map<string, Item>> {
    if c !in cells then cells
    else if cells[c] - {id} == map[] then cells - {c}
    else cells[c := cells[c] - {id}]
  }

  lemma TakeAgrees(cells: map<Cell, map<string, Item>>, items: map<string, Entry>, rows: nat, id: string)
    requires rows > 0 && Agree(cells, items, rows) && id in items
    ensures Agree(Take(cells, items[id].cell, id), items - {id}, rows)
  {
    hide CellOf;
    var c := items[id].cell;
    var after, entries := Take(cells, c, id), items - {id};
    assert forall d :: d in after ==> d in cells && after[d] == (if d == c then cells[c] - {id} else cells[d]);
    forall d, i | d in after && i in after[d]
      ensures i in entries && entries[i] == Entry(after[d][i], d)
    {
      assert items[i] == Entry(cells[d][i], d);
    }
    forall i | i in entries
      ensures entries[i].cell in after && i in after[entries[i].cell]
    {
      assert i in cells[items[i].cell];
      if items[i].cell == c { assert i in cells[c] - {id}; }
    }
    forall d | d in after ensures after[d] != map[] {
      assert cells[d] != map[];
    }
  }

  lemma PutAgrees(cells: map<Cell, map<string, Item>>, items: map<string, Entry>, rows: nat, item: Item)
    requires rows > 0 && Agree(cells, items, rows) && (item.id in items ==> items[item.id].cell == CellOf(item.at, rows))
    ensures Agree(Put(cells, CellOf(item.at, rows), item), items[item.id := Entry(item, CellOf(item.at, rows))], rows)
  {
    hide CellOf;
    var c := CellOf(item.at, rows);
    var after, entries := Put(cells, c, item), items[item.id := Entry(item, c)];
    assert forall d :: d in after <==> d in cells || d == c;
    forall d, i | d in after && i in after[d]
      ensures i in entries && entries[i] == Entry(after[d][i], d)
    {
      if d != c || i != item.id {
        assert items[i] == Entry(cells[d][i], d);
      }
    }
    forall i | i in entries
      ensures entries[i].cell in after && i in after[entries[i].cell]
    {
      if i != item.id { assert i in cells[items[i].cell]; }
    }
    forall d | d in after ensures after[d] != map[] {
      if d == c { assert item.id in after[c]; }
    }
  }

  /** What a query asks of an item. */
  predicate Wanted(item: Item, b: Bounds, kinds: Option<set<string>>) {
    && (kinds.Some? ==> item.kind.Some? && item.kind.value != "" && item.kind.value in kinds.value)
    && Contains(b, item.at)
  }

  /**
   * An item of the world is wanted exactly when its kind is one of those asked for, if any are, and it lies
   * in one of the parts of the box, which do not cross the antimeridian.
   */
  lemma WantedWhen(item: Item, b: Bounds, kinds: Option<set<string>>)
    requires InWorld(item.at)
    ensures Wanted(item, b, kinds) <==>
              && (kinds.None? || exists k :: k in kinds.value && k != "" && item.kind == Some(k))
              && exists part :: part in Parts(b)
                   && part.south <= item.at.latitude <= part.north && part.west <= item.at.longitude <= part.east
  {
    if Wanted(item, b, kinds) {
      var part := if b.west <= b.east then b
                  else if item.at.longitude >= b.west then b.(east := 180.0) else b.(west := -180.0);
      assert part in Parts(b);
    }
  }

  class Grid {
    const rows: nat
    var cells: map<Cell, map<string, Item>>
    var items: map<string, Entry>

    ghost predicate Valid()
      reads this
    {
      rows > 0 && Agree(cells, items, rows)
    }

    constructor (rows: nat)
      requires rows > 0
      ensures Valid() && items == map[] && this.rows == rows
    {
      this.rows := rows;
      cells, items := map[], map[];
    }

    /** Insert or move an item. */
    method Upsert(item: Item)
      requires Valid()
      modifies this
      ensures Valid() && items == old(items)[item.id := Entry(item, CellOf(item.at, rows))]
    {
      hide Agree, CellOf;
      var key := CellOf(item.at, rows);
      ghost var rest := items;
      if item.id in items && items[item.id].cell != key {
        var existing := items[item.id].cell;
        TakeAgrees(cells, items, rows, item.id);
        rest := items - {item.id};
        if existing in cells {
          var without := cells[existing] - {item.id};
          cells := if without == map[] then cells - {existing} else cells[existing := without];
        }
      }
      PutAgrees(cells, rest, rows, item);
      cells := cells[key := (if key in cells then cells[key] else map[])[item.id := item]];
      items := items[item.id := Entry(item, key)];
      assert items == rest[item.id := Entry(item, key)];
    }

    method Remove(id: string) returns (removed: bool)
      requires Valid()
      modifies this
      ensures Valid() && items == old(items) - {id} && removed == (id in old(items))
    {
      hide Agree;
      if id !in items {
        assert items - {id} == items;
        return false;
      }
      TakeAgrees(cells, items, rows, id);
      var c := items[id].cell;
      if c in cells {
        var without := cells[c] - {id};
        cells := if without == map[] then cells - {c} else cells[c := without];
      }
      items := items - {id};
      return true;
    }

    method Get(id: string) returns (item: Option<Item>)
      ensures item == if id in items then Some(items[id].item) else None
    {
      return if id in items then Some(items[id].item) else None;
    }

    method Clear()
      requires Valid()
      modifies this
      ensures Valid() && items == map[]
    {
      cells, items := map[], map[];
    }

    /** The cells of one part of a box that have not been met yet. */
    method CellsOfPart(part: Bounds, seen: seq<Cell>) returns (out: seq<Cell>)
      requires rows > 0 && NoDuplicates(seen) && forall c :: c in seen ==> c in cells
      ensures NoDuplicates(out)
      ensures forall c :: c in out <==> c in seen || (c in cells && IsCandidateFor(c, part, rows, |cells|))
    {
      var w := WindowOf(part, rows);
      out := seen;
      if CellByCell(w, |cells|) {
        hide CellBounds, Intersect, WindowOf, NoDuplicates, CellByCell;
        var left := cells.Keys;
        while left != {}
          invariant left <= cells.Keys && NoDuplicates(out)
          invariant forall c :: c in out <==> c in seen || (c in cells && c !in left && Intersect(CellBounds(c, rows), part))
        {
          var key :| key in left;
          left := left - {key};
          if key !in out && Intersect(CellBounds(key, rows), part) {
            OneMore(out, key);
            out := out + [key];
          }
        }
      } else {
        hide NoDuplicates, WindowOf, CellByCell;
        for r := w.r0 to Max(w.r0, w.r1 + 1)
          invariant NoDuplicates(out)
          invariant forall c :: c in out <==> c in seen || (c in cells && InWindow(c, w) && c.0 < r)
        {
          for col := w.c0 to Max(w.c0, w.c1 + 1)
            invariant NoDuplicates(out)
            invariant forall c :: c in out <==> c in seen || (c in cells && InWindow(c, w) && (c.0 < r || (c.0 == r && c.1 < col)))
          {
            if (r, col) !in out && (r, col) in cells {
              OneMore(out, (r, col));
              out := out + [(r, col)];
            }
          }
        }
      }
    }

    /** The candidate cells of a box, each once. */
    method CandidateCells(b: Bounds) returns (out: seq<Cell>)
      requires rows > 0
      ensures NoDuplicates(out) && forall c :: c in out <==> c in cells && IsCandidate(c, b, rows, |cells|)
    {
      hide IsCandidateFor, NoDuplicates;
      var parts := Parts(b);
      out := [];
      NoneTwice();
      for i := 0 to |parts|
        invariant NoDuplicates(out)
        invariant forall c :: c in out <==> c in cells && exists k :: 0 <= k < i && IsCandidateFor(c, parts[k], rows, |cells|)
      {
        out := CellsOfPart(parts[i], out);
      }
    }

    /** The items of a cell that are wanted, up to a limit on all the items found. */
    method WantedInCell(cell: map<string, Item>, b: Bounds, kinds: Option<set<string>>, found: seq<Item>, limit: Option<int>)
      returns (out: seq<Item>, full: bool)
      requires limit.Some? ==> |found| == 0 || |found| < limit.value
      requires forall id :: id in cell ==> cell[id].id == id
      ensures |found| <= |out| && out[..|found|] == found
      ensures forall k :: |found| <= k < |out| ==> Wanted(out[k], b, kinds) && HasValue(cell, out[k])
      ensures forall j, k :: |found| <= j < k < |out| ==> out[j] != out[k]
      ensures !full ==> forall id :: id in cell && Wanted(cell[id], b, kinds) ==> cell[id] in out[|found|..]
      ensures full ==> limit.Some? && |out| == Max(limit.value, 1)
      ensures !full && limit.Some? ==> |out| == 0 || |out| < limit.value
    {
      hide Wanted;
      out, full := found, false;
      var left := cell.Keys;
      while left != {} && !full
        invariant left <= cell.Keys && |found| <= |out| && out[..|found|] == found
        invariant forall k :: |found| <= k < |out| ==> Wanted(out[k], b, kinds) && HasValue(cell, out[k]) && out[k].id !in left
        invariant forall j, k :: |found| <= j < k < |out| ==> out[j] != out[k]
        invariant forall id :: id in cell && id !in left && Wanted(cell[id], b, kinds) ==> cell[id] in out[|found|..]
        invariant full ==> limit.Some? && |out| == Max(limit.value, 1)
        invariant !full && limit.Some? ==> |out| == 0 || |out| < limit.value
      {
        var id :| id in left;
        left := left - {id};
        if Wanted(cell[id], b, kinds) {
          ghost var before := out;
          out := out + [cell[id]];
          assert out[|found|..] == before[|found|..] + [cell[id]];
          full := limit.Some? && |out| >= limit.value;
        }
      }
    }

    /**
     * The items in a box, each once: those a look at every item gives, when the box is searchable and
     * the items are in the world. A limit of one or less stops at the first.
     */
    method WithinBounds(b: Bounds, kinds: Option<set<string>>, limit: Option<int>) returns (out: seq<Item>)
      requires Valid()
      ensures NoDuplicates(out)
      ensures forall i :: i in out ==> i.id in items && items[i.id].item == i && Wanted(i, b, kinds)
      ensures limit.Some? ==> |out| <= Max(limit.value, 1)
      ensures (limit.None? || |out| < Max(limit.value, 1)) ==> HasCandidatesOf(items, b, kinds, rows, |cells|, out)
      ensures (limit.None? || |out| < Max(limit.value, 1)) && IsSearchable(b, rows) && AllInWorld(items) ==> HasAllOf(items, b, kinds, out)
    {
      hide Agree, Found, IsCandidate, IsSearchable, AllInWorld, Wanted, NoDuplicates, HasAllOf, HasCandidatesOf;
      AgreeMeansOneCellEach(cells, items, rows);
      var look := CandidateCells(b);
      out := [];
      var full := false;
      NothingFound(cells, b, kinds);
      for i := 0 to |look|
        invariant Found(cells, look[..i], b, kinds, out, false)
        invariant limit.Some? ==> |out| == 0 || |out| < limit.value
      {
        var more;
        NewCell(look, i);
        IdsAreKeys(cells, look[i]);
        more, full := WantedInCell(cells[look[i]], b, kinds, out, limit);
        FoundMore(cells, look[..i], look[i], b, kinds, out, more, full);
        out := more;
        assert look[..i + 1] == look[..i] + [look[i]];
        if full {
          FoundIsHeld(cells, items, rows, look[..i + 1], b, kinds, out, true);
          FoundOnce(cells, look[..i + 1], b, kinds, out, true);
          return;
        }
      }
      assert look[..|look|] == look;
      FoundIsHeld(cells, items, rows, look, b, kinds, out, false);
      FoundOnce(cells, look, b, kinds, out, false);
    }
  }

  lemma IdsAreKeys(cells: map<Cell, map<string, Item>>, c: Cell)
    requires OneCellEach(cells) && c in cells
    ensures forall id :: id in cells[c] ==> cells[c][id].id == id
  {
  }

  lemma NothingFound(cells: map<Cell, map<string, Item>>, b: Bounds, kinds: Option<set<string>>)
    ensures Found(cells, [], b, kinds, [], false)
  {
  }

  lemma NewCell(look: seq<Cell>, i: nat)
    requires NoDuplicates(look) && i < |look|
    ensures look[i] !in look[..i]
  {
  }

  lemma FoundOnce(cells: map<Cell, map<string, Item>>, looked: seq<Cell>, b: Bounds, kinds: Option<set<string>>, out: seq<Item>, full: bool)
    requires Found(cells, looked, b, kinds, out, full)
    ensures NoDuplicates(out)
  {
  }

  lemma AgreeMeansOneCellEach(cells: map<Cell, map<string, Item>>, items: map<string, Entry>, rows: nat)
    requires rows > 0 && Agree(cells, items, rows)
    ensures OneCellEach(cells)
  {
    hide CellOf;
    forall c, id | c in cells && id in cells[c]
      ensures cells[c][id].id == id
    {
      assert items[id] == Entry(cells[c][id], c);
    }
    forall c, d, i | HasItem(cells, c, i) && HasItem(cells, d, i)
      ensures c == d
    {
      assert items[i.id] == Entry(cells[c][i.id], c) && items[i.id] == Entry(cells[d][i.id], d);
    }
  }

  ghost predicate AllInWorld(items: map<string, Entry>) {
    forall id :: id in items ==> InWorld(items[id].item.at)
  }

  /** All the items wanted are among those found. */
  ghost predicate HasAllOf(items: map<string, Entry>, b: Bounds, kinds: Option<set<string>>, out: seq<Item>) {
    forall id :: id in items && Wanted(items[id].item, b, kinds) ==> items[id].item in out
  }

  /** All the items wanted whose cell is a candidate are among those found. */
  ghost predicate HasCandidatesOf(items: map<string, Entry>, b: Bounds, kinds: Option<set<string>>, rows: nat, cells: nat, out: seq<Item>)
    requires rows > 0
  {
    forall id :: id in items && Wanted(items[id].item, b, kinds) && IsCandidate(items[id].cell, b, rows, cells) ==> items[id].item in out
  }

  lemma FoundIsHeld(cells: map<Cell, map<string, Item>>, items: map<string, Entry>, rows: nat, looked: seq<Cell>, b: Bounds,
                    kinds: Option<set<string>>, out: seq<Item>, full: bool)
    requires rows > 0 && Agree(cells, items, rows) && Found(cells, looked, b, kinds, out, full)
    requires !full ==> forall c :: c in looked <==> c in cells && IsCandidate(c, b, rows, |cells|)
    ensures forall i :: i in out ==> i.id in items && items[i.id].item == i && Wanted(i, b, kinds)
    ensures !full ==> HasCandidatesOf(items, b, kinds, rows, |cells|, out)
    ensures !full && IsSearchable(b, rows) && AllInWorld(items) ==> HasAllOf(items, b, kinds, out)
  {
    hide CellOf, IsCandidate, IsSearchable, Wanted;
    if !full {
      forall id | id in items && Wanted(items[id].item, b, kinds) && IsCandidate(items[id].cell, b, rows, |cells|)
        ensures items[id].item in out
      {
        var c := items[id].cell;
        assert c in looked && cells[c][id] == items[id].item;
      }
      if IsSearchable(b, rows) && AllInWorld(items) {
        forall id | id in items && Wanted(items[id].item, b, kinds)
          ensures items[id].item in out
        {
          WantedIsContained(items[id].item, b, kinds);
          SearchableFinds(b, rows, |cells|, items[id].item.at);
        }
      }
    }
  }

  lemma WantedIsContained(item: Item, b: Bounds, kinds: Option<set<string>>)
    requires Wanted(item, b, kinds)
    ensures Contains(b, item.at)
  {
  }

  /** What a query has found in the cells looked in so far: wanted items of theirs, none twice, all of them unless it is full. */
  ghost predicate Found(cells: map<Cell, map<string, Item>>, looked: seq<Cell>, b: Bounds, kinds: Option<set<string>>, out: seq<Item>, full: bool) {
    && (forall k :: 0 <= k < |out| ==> Wanted(out[k], b, kinds) && exists c :: c in looked && HasItem(cells, c, out[k]))
    && NoDuplicates(out)
    && (!full ==> forall c, id :: c in looked && c in cells && id in cells[c] && Wanted(cells[c][id], b, kinds) ==> cells[c][id] in out)
  }

  predicate HasValue(cell: map<string, Item>, item: Item) {
    item.id in cell && cell[item.id] == item
  }

  predicate HasItem(cells: map<Cell, map<string, Item>>, c: Cell, item: Item) {
    c in cells && HasValue(cells[c], item)
  }

  ghost predicate OneCellEach(cells: map<Cell, map<string, Item>>) {
    && (forall c, d, i :: HasItem(cells, c, i) && HasItem(cells, d, i) ==> c == d)
    && (forall c, id :: c in cells && id in cells[c] ==> cells[c][id].id == id)
  }

  lemma FoundMore(cells: map<Cell, map<string, Item>>, looked: seq<Cell>, c: Cell, b: Bounds, kinds: Option<set<string>>,
                  found: seq<Item>, out: seq<Item>, full: bool)
    requires Found(cells, looked, b, kinds, found, false) && c in cells && c !in looked && OneCellEach(cells)
    requires |found| <= |out| && out[..|found|] == found
    requires forall k :: |found| <= k < |out| ==> Wanted(out[k], b, kinds) && HasValue(cells[c], out[k])
    requires forall j, k :: |found| <= j < k < |out| ==> out[j] != out[k]
    requires !full ==> forall id :: id in cells[c] && Wanted(cells[c][id], b, kinds) ==> cells[c][id] in out[|found|..]
    ensures Found(cells, looked + [c], b, kinds, out, full)
  {
    hide Wanted;
    assert forall k :: 0 <= k < |found| ==> out[k] == found[k];
    assert c in looked + [c] && forall d :: d in looked ==> d in looked + [c];
    forall k | 0 <= k < |out|
      ensures Wanted(out[k], b, kinds) && exists d :: d in looked + [c] && HasItem(cells, d, out[k])
      ensures k >= |found| ==> HasItem(cells, c, out[k])
    {
      if k < |found| {
        assert Wanted(found[k], b, kinds);
        var d :| d in looked && HasItem(cells, d, found[k]);
        assert d in looked + [c] && HasItem(cells, d, out[k]);
      } else {
        assert HasItem(cells, c, out[k]);
      }
    }
    forall j, k | 0 <= j < k < |out|
      ensures out[j] != out[k]
    {
      if j < |found| <= k {
        var d :| d in looked && HasItem(cells, d, found[j]);
      }
    }
    if !full {
      forall d, id | d in looked + [c] && d in cells && id in cells[d] && Wanted(cells[d][id], b, kinds)
        ensures cells[d][id] in out
      {
        if d == c {
          assert cells[c][id] in out[|found|..];
        } else {
          assert cells[d][id] in found;
        }
      }
    }
  }

  lemma OneMore(s: seq<Cell>, c: Cell)
    requires NoDuplicates(s) && c !in s
    ensures NoDuplicates(s + [c])
  {
  }

  lemma NoneTwice()
    ensures NoDuplicates<Cell>([])
  {
  }
}
