/**
 * Outlines of the area where a grid is at least a level, by marching squares
 * (packages/connector-runtime/src/contours.ts, `traceLevel` and the padded grid of `contourRecords`).
 *
 * Crossings are keyed by the cell edge they lie on. What makes every outline close is that the
 * links from crossing to crossing are a permutation of the crossed edges: each is left by exactly
 * one cell and entered by exactly one, because the padded border keeps the area off the rim.
 */
module Contours {
  import opened Wrappers
  import opened Numbers

  /** A grid value; the border and the missing points are below every level. */
  datatype Value = Below | Level(v: real)

  /** A padded grid of `width` columns and `height` rows, row by row. */
  datatype Field = Field(width: nat, height: nat, cells: seq<Value>)

  /** A cell edge: along a row from (i, j) to (i + 1, j), or up a column from (i, j) to (i, j + 1). */
  datatype Edge = Across(i: nat, j: nat) | Up(i: nat, j: nat)

  ghost predicate Valid(f: Field) {
    f.width >= 2 && f.height >= 2 && |f.cells| == f.width * f.height
  }

  lemma IndexFits(f: Field, i: nat, j: nat)
    requires Valid(f) && i < f.width && j < f.height
    ensures 0 <= j * f.width + i < |f.cells|
  {
    MulMonotone(j + 1, f.height, f.width);
  }

  function At(f: Field, i: nat, j: nat): Value
    requires Valid(f) && i < f.width && j < f.height
  {
    IndexFits(f, i, j);
    f.cells[j * f.width + i]
  }

  predicate OnRim(f: Field, i: nat, j: nat) {
    i == 0 || j == 0 || i + 1 == f.width || j + 1 == f.height
  }

  ghost predicate RimBelow(f: Field)
    requires Valid(f)
  {
    forall i: nat, j: nat :: i < f.width && j < f.height && OnRim(f, i, j) ==> At(f, i, j) == Below
  }

  /** The border is below every level. */
  ghost predicate Padded(f: Field) {
    Valid(f) && RimBelow(f)
  }

  predicate Inside(f: Field, level: real, i: nat, j: nat)
    requires Valid(f)
  {
    i < f.width && j < f.height && At(f, i, j).Level? && At(f, i, j).v >= level
  }

  // ---- one cell --------------------------------------------------------------------------------------

  /** A cell as the tracer sees it: its corners counter-clockwise from the lower left, and its mean. */
  datatype Cell = Cell(ins: seq<bool>, meanInside: bool)

  type Side = c: int | 0 <= c < 4

  predicate CellOk(cell: Cell) {
    |cell.ins| == 4
  }

  /** `(c + n) % 4`, for `n` up to 4. */
  function Turn(c: Side, n: nat): Side
    requires n <= 4
  {
    if c + n < 4 then c + n else c + n - 4
  }

  /** Going round the cell, the area is left across side `c`. */
  predicate IsExit(cell: Cell, c: Side)
    requires CellOk(cell)
  {
    cell.ins[c] && !cell.ins[Turn(c, 1)]
  }

  predicate IsEntry(cell: Cell, c: Side)
    requires CellOk(cell)
  {
    !cell.ins[c] && cell.ins[Turn(c, 1)]
  }

  /** The sides before `c` that are crossed, in order, each with whether it is an exit. */
  function OrderUpTo(cell: Cell, c: nat): seq<(bool, Side)>
    requires CellOk(cell) && c <= 4
  {
    if c == 0 then [] else
      OrderUpTo(cell, c - 1)
      + if IsExit(cell, c - 1) then [(true, c - 1 as Side)] else if IsEntry(cell, c - 1) then [(false, c - 1 as Side)] else []
  }

  /** The side the outline goes to from exit `c`: the first entry met one way round or the other. */
  function NextSide(cell: Cell, c: Side): Side
    requires CellOk(cell)
  {
    if cell.meanInside then
      if IsEntry(cell, Turn(c, 1)) then Turn(c, 1) else if IsEntry(cell, Turn(c, 2)) then Turn(c, 2) else Turn(c, 3)
    else
      if IsEntry(cell, Turn(c, 3)) then Turn(c, 3) else if IsEntry(cell, Turn(c, 2)) then Turn(c, 2) else Turn(c, 1)
  }

  /** The side the outline came from to entry `d`. */
  function PrevSide(cell: Cell, d: Side): Side
    requires CellOk(cell)
  {
    if cell.meanInside then
      if IsExit(cell, Turn(d, 3)) then Turn(d, 3) else if IsExit(cell, Turn(d, 2)) then Turn(d, 2) else Turn(d, 1)
    else
      if IsExit(cell, Turn(d, 1)) then Turn(d, 1) else if IsExit(cell, Turn(d, 2)) then Turn(d, 2) else Turn(d, 3)
  }

  /** In a cell the links pair the exits with the entries, one to one. */
  lemma SidesPair(cell: Cell, c: Side)
    requires CellOk(cell)
    ensures IsExit(cell, c) ==> IsEntry(cell, NextSide(cell, c)) && PrevSide(cell, NextSide(cell, c)) == c
    ensures IsEntry(cell, c) ==> IsExit(cell, PrevSide(cell, c)) && NextSide(cell, PrevSide(cell, c)) == c
  {
  }

  /**
   * What a link cuts off: with the mean inside, only outside corners lie to its right, from the exit
   * round to the entry; with the mean outside, only inside corners lie to its left.
   */
  lemma LinkCutsOff(cell: Cell, c: Side, k: nat)
    requires CellOk(cell) && IsExit(cell, c) && k < 4
    ensures cell.meanInside && k < Steps(c, NextSide(cell, c)) ==> !cell.ins[Turn(c, 1 + k)]
    ensures !cell.meanInside && k < Steps(NextSide(cell, c), c) ==> cell.ins[Turn(NextSide(cell, c), 1 + k)]
  {
  }

  /** Steps counter-clockwise from side `a` to side `b`. */
  function Steps(a: Side, b: Side): nat {
    if b >= a then b - a else b + 4 - a
  }

  // ---- the grid's cells --------------------------------------------------------------------------------

  function CornerI(i: nat, c: Side): nat {
    if c == 1 || c == 2 then i + 1 else i
  }

  function CornerJ(j: nat, c: Side): nat {
    if c >= 2 then j + 1 else j
  }

  /** `crossing`: the edge between two neighbouring corners, whichever comes first. */
  function EdgeBetween(i0: nat, j0: nat, i1: nat, j1: nat): Edge {
    if i0 == i1 then Up(i0, if j0 < j1 then j0 else j1) else Across(if i0 < i1 then i0 else i1, j0)
  }

  function SideEdge(i: nat, j: nat, c: Side): Edge {
    var d := Turn(c, 1);
    EdgeBetween(CornerI(i, c), CornerJ(j, c), CornerI(i, d), CornerJ(j, d))
  }

  function Sum(a: Value, b: Value, c: Value, d: Value): Value {
    if a.Level? && b.Level? && c.Level? && d.Level? then Level(a.v + b.v + c.v + d.v) else Below
  }

  /** Whether the mean of a cell's corners is at least the level; the border makes it minus infinity. */
  predicate MeanInside(f: Field, level: real, i: nat, j: nat)
    requires Valid(f) && i + 1 < f.width && j + 1 < f.height
  {
    var sum := Sum(At(f, i, j), At(f, i + 1, j), At(f, i + 1, j + 1), At(f, i, j + 1));
    sum.Level? && sum.v / 4.0 >= level
  }

  function CellAt(f: Field, level: real, i: nat, j: nat): (cell: Cell)
    requires Valid(f) && i + 1 < f.width && j + 1 < f.height
    ensures CellOk(cell) && forall c: Side :: cell.ins[c] == Inside(f, level, CornerI(i, c), CornerJ(j, c))
  {
    Cell([Inside(f, level, i, j), Inside(f, level, i + 1, j), Inside(f, level, i + 1, j + 1), Inside(f, level, i, j + 1)],
         MeanInside(f, level, i, j))
  }

  predicate CellIn(f: Field, i: nat, j: nat) {
    i + 1 < f.width && j + 1 < f.height
  }

  /** One end of the edge is inside and the other is not. */
  predicate Crossed(f: Field, level: real, e: Edge)
    requires Valid(f)
  {
    match e
    case Across(i, j) => i + 1 < f.width && j < f.height && Inside(f, level, i, j) != Inside(f, level, i + 1, j)
    case Up(i, j) => i < f.width && j + 1 < f.height && Inside(f, level, i, j) != Inside(f, level, i, j + 1)
  }

  /** The cell that a crossed edge leaves: the one that has the inside end first going round it. */
  function ExitCell(f: Field, level: real, e: Edge): (int, int, Side)
    requires Valid(f)
  {
    match e
    case Across(i, j) => if Inside(f, level, i, j) then (i, j, 0) else (i, j - 1, 2)
    case Up(i, j) => if Inside(f, level, i, j) then (i - 1, j, 1) else (i, j, 3)
  }

  /** The cell on its other side, which it enters. */
  function EntryCell(f: Field, level: real, e: Edge): (int, int, Side)
    requires Valid(f)
  {
    match e
    case Across(i, j) => if Inside(f, level, i, j) then (i, j - 1, 2) else (i, j, 0)
    case Up(i, j) => if Inside(f, level, i, j) then (i, j, 3) else (i - 1, j, 1)
  }

  lemma InsideIsOffTheRim(f: Field, level: real, i: nat, j: nat)
    requires Padded(f) && Inside(f, level, i, j)
    ensures !OnRim(f, i, j) && i + 1 < f.width && j + 1 < f.height
  {
  }

  /** A crossed edge has a cell of the grid on each side, one left by it and one entered. */
  lemma CrossedHasTwoCells(f: Field, level: real, e: Edge)
    requires Padded(f) && Crossed(f, level, e)
    ensures var (i, j, c) := ExitCell(f, level, e);
            && i >= 0 && j >= 0 && CellIn(f, i, j) && SideEdge(i, j, c) == e && IsExit(CellAt(f, level, i, j), c)
    ensures var (i, j, d) := EntryCell(f, level, e);
            && i >= 0 && j >= 0 && CellIn(f, i, j) && SideEdge(i, j, d) == e && IsEntry(CellAt(f, level, i, j), d)
  {
    hide At;
    match e {
      case Across(i, j) =>
        if Inside(f, level, i, j) { InsideIsOffTheRim(f, level, i, j); } else { InsideIsOffTheRim(f, level, i + 1, j); }
      case Up(i, j) =>
        if Inside(f, level, i, j) { InsideIsOffTheRim(f, level, i, j); } else { InsideIsOffTheRim(f, level, i, j + 1); }
    }
  }

  /** A side of a cell that is left or entered is a crossed edge, and this is its cell. */
  lemma SideIsCrossed(f: Field, level: real, i: nat, j: nat, c: Side)
    requires Valid(f) && CellIn(f, i, j)
    ensures IsExit(CellAt(f, level, i, j), c) ==> Crossed(f, level, SideEdge(i, j, c)) && ExitCell(f, level, SideEdge(i, j, c)) == (i, j, c)
    ensures IsEntry(CellAt(f, level, i, j), c) ==> Crossed(f, level, SideEdge(i, j, c)) && EntryCell(f, level, SideEdge(i, j, c)) == (i, j, c)
  {
    hide At, MeanInside;
  }

  /** The crossing after `e`: across the cell that `e` leaves. */
  function Successor(f: Field, level: real, e: Edge): Edge
    requires Padded(f) && Crossed(f, level, e)
  {
    CrossedHasTwoCells(f, level, e);
    var (i, j, c) := ExitCell(f, level, e);
    SideEdge(i, j, NextSide(CellAt(f, level, i, j), c))
  }

  /** The crossing before `e`: across the cell that `e` enters. */
  function Predecessor(f: Field, level: real, e: Edge): Edge
    requires Padded(f) && Crossed(f, level, e)
  {
    CrossedHasTwoCells(f, level, e);
    var (i, j, d) := EntryCell(f, level, e);
    SideEdge(i, j, PrevSide(CellAt(f, level, i, j), d))
  }

  /** The links are a permutation of the crossed edges: each has one after it and one before it. */
  lemma SuccessorIsAPermutation(f: Field, level: real, e: Edge)
    requires Padded(f) && Crossed(f, level, e)
    ensures Crossed(f, level, Successor(f, level, e)) && Predecessor(f, level, Successor(f, level, e)) == e
    ensures Crossed(f, level, Predecessor(f, level, e)) && Successor(f, level, Predecessor(f, level, e)) == e
  {
    hide At, MeanInside, Inside, SideEdge, IsExit, IsEntry, NextSide, PrevSide, ExitCell, EntryCell, Crossed;
    CrossedHasTwoCells(f, level, e);
    var (i, j, c) := ExitCell(f, level, e);
    SidesPair(CellAt(f, level, i, j), c);
    SideIsCrossed(f, level, i, j, NextSide(CellAt(f, level, i, j), c));
    var (i', j', d) := EntryCell(f, level, e);
    SidesPair(CellAt(f, level, i', j'), d);
    SideIsCrossed(f, level, i', j', PrevSide(CellAt(f, level, i', j'), d));
  }

  // ---- the area on the left -------------------------------------------------------------------------------

  /** The end of an edge on the left of a step across it, the step given by its columns and rows. */
  function LeftEnd(e: Edge, dx: int, dy: int): (nat, nat) {
    match e
    case Across(i, j) => if dy > 0 then (i, j) else (i + 1, j)
    case Up(i, j) => if dx < 0 then (i, j) else (i, j + 1)
  }

  function RightEnd(e: Edge, dx: int, dy: int): (nat, nat) {
    match e
    case Across(i, j) => if dy > 0 then (i + 1, j) else (i, j)
    case Up(i, j) => if dx < 0 then (i, j + 1) else (i, j)
  }

  /** A step across the edge, from one cell to the next, has the area on its left and not on its right. */
  predicate AreaOnTheLeft(f: Field, level: real, e: Edge, from: (int, int), to: (int, int))
    requires Valid(f)
  {
    var dx, dy := to.0 - from.0, to.1 - from.1;
    var l, r := LeftEnd(e, dx, dy), RightEnd(e, dx, dy);
    && (dx, dy) in {(1, 0), (-1, 0), (0, 1), (0, -1)}
    && (l.0 - r.0, l.1 - r.1) == (-dy, dx)
    && Inside(f, level, l.0, l.1) && !Inside(f, level, r.0, r.1)
  }

  /** Where the outline goes from a crossing, the next crossing is met coming from: it goes through one cell between them. */
  lemma SuccessorIsThroughTheCell(f: Field, level: real, e: Edge)
    requires Padded(f) && Crossed(f, level, e)
    ensures Crossed(f, level, Successor(f, level, e))
    ensures var to, from := ExitCell(f, level, e), EntryCell(f, level, Successor(f, level, e)); (to.0, to.1) == (from.0, from.1)
  {
    hide At, MeanInside, Inside, SideEdge, IsExit, IsEntry, NextSide, PrevSide, ExitCell, EntryCell, Crossed;
    CrossedHasTwoCells(f, level, e);
    var (i, j, c) := ExitCell(f, level, e);
    SidesPair(CellAt(f, level, i, j), c);
    SideIsCrossed(f, level, i, j, NextSide(CellAt(f, level, i, j), c));
  }

  /** A crossing is stepped across from the cell it enters to the cell it leaves, with the area on the left. */
  lemma CrossingHasAreaOnTheLeft(f: Field, level: real, e: Edge)
    requires Valid(f) && Crossed(f, level, e)
    ensures var to, from := ExitCell(f, level, e), EntryCell(f, level, e);
            AreaOnTheLeft(f, level, e, (from.0, from.1), (to.0, to.1))
  {
    hide At;
  }

  // ---- building the links --------------------------------------------------------------------------------

  function OrderIs(b0: bool, b1: bool, b2: bool, b3: bool): seq<(bool, Side)> {
    (if b0 != b1 then [(b0, 0 as Side)] else []) + (if b1 != b2 then [(b1, 1 as Side)] else [])
    + (if b2 != b3 then [(b2, 2 as Side)] else []) + (if b3 != b0 then [(b3, 3 as Side)] else [])
  }

  lemma OrderIsOrder(cell: Cell)
    requires CellOk(cell)
    ensures OrderUpTo(cell, 4) == OrderIs(cell.ins[0], cell.ins[1], cell.ins[2], cell.ins[3])
  {
    assert OrderUpTo(cell, 1) == if cell.ins[0] != cell.ins[1] then [(cell.ins[0], 0 as Side)] else [];
    assert OrderUpTo(cell, 2) == OrderUpTo(cell, 1) + if cell.ins[1] != cell.ins[2] then [(cell.ins[1], 1 as Side)] else [];
    assert OrderUpTo(cell, 3) == OrderUpTo(cell, 2) + if cell.ins[2] != cell.ins[3] then [(cell.ins[2], 2 as Side)] else [];
    assert OrderUpTo(cell, 4) == OrderUpTo(cell, 3) + if cell.ins[3] != cell.ins[0] then [(cell.ins[3], 3 as Side)] else [];
  }

  /** The links of a cell: from each exit, and no other side, to the entry it goes to. */
  ghost predicate LinksOf(cell: Cell, links: map<Side, Side>)
    requires CellOk(cell)
  {
    && (forall c: Side :: c in links <==> IsExit(cell, c))
    && (forall c: Side :: c in links ==> links[c] == NextSide(cell, c))
  }

  predicate IsSaddle(cell: Cell)
    requires CellOk(cell)
  {
    cell.ins[0] == cell.ins[2] && cell.ins[1] == cell.ins[3] && cell.ins[0] != cell.ins[1]
  }

  lemma CrossingsCount(cell: Cell)
    requires CellOk(cell)
    ensures var o := OrderUpTo(cell, 4);
            && |o| in {0, 2, 4} && (|o| == 4 <==> IsSaddle(cell)) && (|o| == 0 <==> forall c: Side :: cell.ins[c] == cell.ins[0])
            && (|o| == 4 ==> o[0] == (cell.ins[0], 0) && o[1] == (!cell.ins[0], 1) && o[2] == (cell.ins[0], 2) && o[3] == (!cell.ins[0], 3))
  {
    OrderIsOrder(cell);
  }

  lemma TwoCrossings(cell: Cell)
    requires CellOk(cell) && |OrderUpTo(cell, 4)| == 2
    ensures var o := OrderUpTo(cell, 4);
            o[0].0 != o[1].0 && LinksOf(cell, if o[0].0 then map[o[0].1 := o[1].1] else map[o[1].1 := o[0].1])
  {
    OrderIsOrder(cell);
  }

  /** A saddle, its crossings taken from the first exit on. */
  lemma SaddleLinks(cell: Cell)
    requires CellOk(cell) && IsSaddle(cell)
    ensures var c := if cell.ins[0] then 0 else 1;
            LinksOf(cell, if cell.meanInside then map[Turn(c, 0) := Turn(c, 1), Turn(c, 2) := Turn(c, 3)]
                          else map[Turn(c, 0) := Turn(c, 3), Turn(c, 2) := Turn(c, 1)])
  {
  }

  method LinkCell(cell: Cell) returns (links: map<Side, Side>)
    requires CellOk(cell)
    ensures LinksOf(cell, links)
  {
    CrossingsCount(cell);
    if (cell.ins[0] && cell.ins[1] && cell.ins[2] && cell.ins[3]) || !(cell.ins[0] || cell.ins[1] || cell.ins[2] || cell.ins[3]) {
      return map[];
    }
    hide LinksOf, IsSaddle;
    var order: seq<(bool, Side)> := [];
    for c: int := 0 to 4
      invariant order == OrderUpTo(cell, c)
    {
      if cell.ins[c] != cell.ins[Turn(c, 1)] {
        order := order + [(cell.ins[c], c)];
      }
    }
    if |order| == 2 {
      TwoCrossings(cell);
      return if order[0].0 then map[order[0].1 := order[1].1] else map[order[1].1 := order[0].1];
    }
    var start := if order[0].0 then 0 else 1;
    var s := [order[start].1, order[(start + 1) % 4].1, order[(start + 2) % 4].1, order[(start + 3) % 4].1];
    SaddleLinks(cell);
    if cell.meanInside {
      return map[s[0] := s[1], s[2] := s[3]];
    }
    return map[s[0] := s[3], s[2] := s[1]];
  }

  /** Sides of cells in the order they are linked: row by row, and round each cell. */
  predicate LinkedEarlier(at: (int, int, Side), i: nat, j: nat, c: nat) {
    at.1 < j || (at.1 == j && (at.0 < i || (at.0 == i && at.2 < c)))
  }

  /** The links made before side `c` of cell (i, j): from each crossing that leaves a cell there, to the next. */
  ghost predicate LinkedBefore(f: Field, level: real, next: map<Edge, Edge>, i: nat, j: nat, c: nat)
    requires Padded(f)
  {
    && (forall e: Edge :: e in next <==> Crossed(f, level, e) && LinkedEarlier(ExitCell(f, level, e), i, j, c))
    && (forall e: Edge :: e in next ==> Crossed(f, level, e) && next[e] == Successor(f, level, e))
  }

  /** All the links. */
  ghost predicate Linked(f: Field, level: real, next: map<Edge, Edge>)
    requires Padded(f)
  {
    && (forall e: Edge :: e in next <==> Crossed(f, level, e))
    && (forall e: Edge :: e in next ==> next[e] == Successor(f, level, e))
  }

  /** Linking an exit. */
  lemma LinkExit(f: Field, level: real, next: map<Edge, Edge>, i: nat, j: nat, c: Side)
    requires Padded(f) && CellIn(f, i, j) && LinkedBefore(f, level, next, i, j, c) && IsExit(CellAt(f, level, i, j), c)
    ensures SideEdge(i, j, c) !in next
    ensures LinkedBefore(f, level, next[SideEdge(i, j, c) := SideEdge(i, j, NextSide(CellAt(f, level, i, j), c))], i, j, c + 1)
  {
    hide At, SideEdge, IsExit, NextSide, Crossed, Inside, MeanInside, ExitCell, RimBelow;
    SideIsCrossed(f, level, i, j, c);
    var e := SideEdge(i, j, c);
    forall x: Edge | Crossed(f, level, x) && ExitCell(f, level, x) == (i, j, c)
      ensures x == e
    {
      CrossedHasTwoCells(f, level, x);
    }
  }

  /** Passing a side that is not an exit. */
  lemma PassSide(f: Field, level: real, next: map<Edge, Edge>, i: nat, j: nat, c: Side)
    requires Padded(f) && CellIn(f, i, j) && LinkedBefore(f, level, next, i, j, c) && !IsExit(CellAt(f, level, i, j), c)
    ensures LinkedBefore(f, level, next, i, j, c + 1)
  {
    hide At, SideEdge, IsExit, NextSide, Crossed, Inside, MeanInside, ExitCell, RimBelow;
    forall x: Edge | Crossed(f, level, x)
      ensures ExitCell(f, level, x) != (i, j, c)
    {
      CrossedHasTwoCells(f, level, x);
    }
  }

  /** After a cell's last side, the next cell's first. */
  lemma NextCell(f: Field, level: real, next: map<Edge, Edge>, i: nat, j: nat)
    requires Padded(f) && LinkedBefore(f, level, next, i, j, 4)
    ensures LinkedBefore(f, level, next, i + 1, j, 0)
  {
    hide At, Crossed, Inside, ExitCell, RimBelow, Successor;
  }

  lemma NextRow(f: Field, level: real, next: map<Edge, Edge>, j: nat)
    requires Padded(f) && LinkedBefore(f, level, next, f.width - 1, j, 0)
    ensures LinkedBefore(f, level, next, 0, j + 1, 0)
  {
    hide At, Crossed, Inside, ExitCell, RimBelow, Successor;
    forall x: Edge | Crossed(f, level, x)
      ensures 0 <= ExitCell(f, level, x).0 < f.width - 1
    {
      CrossedHasTwoCells(f, level, x);
    }
  }

  lemma LastRow(f: Field, level: real, next: map<Edge, Edge>)
    requires Padded(f) && LinkedBefore(f, level, next, 0, f.height - 1, 0)
    ensures Linked(f, level, next)
  {
    hide At, Crossed, Inside, ExitCell, RimBelow, Successor;
    forall x: Edge | Crossed(f, level, x)
      ensures 0 <= ExitCell(f, level, x).1 < f.height - 1
    {
      CrossedHasTwoCells(f, level, x);
    }
  }

  lemma NothingLinked(f: Field, level: real)
    requires Padded(f)
    ensures LinkedBefore(f, level, map[], 0, 0, 0)
  {
    hide At, Crossed, Inside, ExitCell, RimBelow, Successor;
    forall x: Edge | Crossed(f, level, x)
      ensures 0 <= ExitCell(f, level, x).1 && 0 <= ExitCell(f, level, x).0
    {
      CrossedHasTwoCells(f, level, x);
    }
  }

  /** A map and its keys in order of insertion. */
  ghost predicate KeysOf(next: map<Edge, Edge>, keys: seq<Edge>) {
    forall e: Edge :: e in next <==> e in keys
  }

  method LinkCells(f: Field, level: real) returns (next: map<Edge, Edge>, keys: seq<Edge>)
    requires Padded(f)
    ensures Linked(f, level, next) && KeysOf(next, keys)
  {
    hide LinkedBefore, RimBelow, At, Inside, MeanInside, SideEdge, NextSide, IsExit;
    next, keys := map[], [];
    NothingLinked(f, level);
    for j := 0 to f.height - 1
      invariant LinkedBefore(f, level, next, 0, j, 0) && KeysOf(next, keys)
    {
      for i := 0 to f.width - 1
        invariant LinkedBefore(f, level, next, i, j, 0) && KeysOf(next, keys)
      {
        var cell := CellAt(f, level, i, j);
        var links := LinkCell(cell);
        for c := 0 to 4
          invariant LinkedBefore(f, level, next, i, j, c) && KeysOf(next, keys)
        {
          if c in links {
            LinkExit(f, level, next, i, j, c);
            next := next[SideEdge(i, j, c) := SideEdge(i, j, links[c])];
            keys := keys + [SideEdge(i, j, c)];
          } else {
            PassSide(f, level, next, i, j, c);
          }
        }
        NextCell(f, level, next, i, j);
      }
      NextRow(f, level, next, j);
    }
    LastRow(f, level, next);
  }

  // ---- following the links -------------------------------------------------------------------------------

  /** Every link leads to the start of another, and no two lead to the same. */
  ghost predicate Permutes(p: map<Edge, Edge>) {
    && (forall e: Edge {:trigger p[e]} :: e in p ==> p[e] in p)
    && (forall a: Edge, b: Edge :: a in p && b in p && p[a] == p[b] ==> a == b)
  }

  /** The links of a padded grid permute its crossed edges. */
  lemma LinksPermute(f: Field, level: real, next: map<Edge, Edge>)
    requires Padded(f) && Linked(f, level, next)
    ensures Permutes(next)
  {
    hide At, Crossed, RimBelow, Successor, Predecessor;
    forall e: Edge | e in next
      ensures next[e] in next && Predecessor(f, level, next[e]) == e
    {
      SuccessorIsAPermutation(f, level, e);
    }
  }

  /** Keys each linked to the next, the last to `k`. */
  ghost predicate Chain(p: map<Edge, Edge>, path: seq<Edge>, k: Edge) {
    && path != [] && (forall i :: 0 <= i < |path| ==> path[i] in p)
    && (forall i :: 0 < i < |path| ==> p[path[i - 1]] == path[i]) && p[path[|path| - 1]] == k
  }

  ghost predicate Distinct(path: seq<Edge>) {
    forall i, j :: 0 <= i < j < |path| ==> path[i] != path[j]
  }

  /** A closed outline: keys each linked to the next and the last to the first, none twice. */
  ghost predicate IsCycle(p: map<Edge, Edge>, c: seq<Edge>) {
    Distinct(c) && c != [] && Chain(p, c, c[0])
  }

  /** What is left of the links after whole cycles are taken out: each still leads to another. */
  ghost predicate LeftOf(p: map<Edge, Edge>, next: map<Edge, Edge>) {
    forall e: Edge {:trigger next[e]} :: e in next ==> e in p && next[e] == p[e] && p[e] in next
  }

  /** The links of `before` but those of the keys in `path`. */
  ghost predicate Without(before: map<Edge, Edge>, next: map<Edge, Edge>, path: seq<Edge>) {
    && (forall e: Edge :: e in next <==> e in before && e !in path)
    && (forall e: Edge :: e in next ==> next[e] == before[e])
  }

  lemma ChainMore(p: map<Edge, Edge>, path: seq<Edge>, k: Edge)
    requires Chain(p, path, k) && k in p
    ensures Chain(p, path + [k], p[k])
  {
  }

  lemma DistinctMore(path: seq<Edge>, k: Edge)
    requires Distinct(path) && k !in path
    ensures Distinct(path + [k])
  {
  }

  lemma WithoutMore(before: map<Edge, Edge>, next: map<Edge, Edge>, path: seq<Edge>, k: Edge)
    requires Without(before, next, path) && k in next
    ensures Without(before, next - {k}, path + [k])
  {
    assert forall e: Edge :: e in path + [k] <==> e in path || e == k;
  }

  lemma SameEnd(p: map<Edge, Edge>, a: Edge, b: Edge)
    requires Permutes(p) && a in p && b in p && p[a] == p[b]
    ensures a == b
  {
  }

  /** A chain without repeats whose end is among its keys ends at its first key. */
  lemma ChainCloses(p: map<Edge, Edge>, path: seq<Edge>, k: Edge)
    requires Permutes(p) && Chain(p, path, k) && Distinct(path) && k in path
    ensures k == path[0]
  {
    hide Permutes;
    var i :| 0 <= i < |path| && path[i] == k;
    if i > 0 {
      SameEnd(p, path[i - 1], path[|path| - 1]);
      assert false;
    }
  }

  lemma StaysLinked(p: map<Edge, Edge>, before: map<Edge, Edge>, next: map<Edge, Edge>, c: seq<Edge>, e: Edge)
    requires Permutes(p) && LeftOf(p, before) && Without(before, next, c) && IsCycle(p, c) && e in next
    ensures e in p && next[e] == p[e] && p[e] in next
  {
    hide IsCycle, Permutes;
    assert before[e] == next[e];
    if p[e] in c {
      var prior := PriorInCycle(p, c, p[e]);
      SameEnd(p, prior, e);
      assert false;
    }
  }

  /** Taking a whole cycle out leaves links that still lead to one another. */
  lemma CycleOut(p: map<Edge, Edge>, before: map<Edge, Edge>, next: map<Edge, Edge>, c: seq<Edge>)
    requires Permutes(p) && LeftOf(p, before) && Without(before, next, c) && IsCycle(p, c)
    ensures LeftOf(p, next)
  {
    hide IsCycle, Permutes, Without;
    forall e: Edge | e in next
      ensures e in p && next[e] == p[e] && p[e] in next
    {
      StaysLinked(p, before, next, c, e);
    }
  }

  lemma PriorInCycle(p: map<Edge, Edge>, c: seq<Edge>, k: Edge) returns (prior: Edge)
    requires IsCycle(p, c) && k in c
    ensures prior in c && prior in p && p[prior] == k
  {
    var j :| 0 <= j < |c| && c[j] == k;
    prior := if j > 0 then c[j - 1] else c[|c| - 1];
  }

  /**
   * Round an outline each crossing is stepped across from the cell that the one before it leads
   * through, with the area on the left.
   */
  lemma OutlineHasAreaOnTheLeft(f: Field, level: real, next: map<Edge, Edge>, c: seq<Edge>, k: nat)
    requires Padded(f) && Linked(f, level, next) && IsCycle(next, c) && k < |c|
    ensures Crossed(f, level, c[k])
    ensures var prior := c[if k == 0 then |c| - 1 else k - 1];
            && Crossed(f, level, prior)
            && var from, to := ExitCell(f, level, prior), ExitCell(f, level, c[k]);
               AreaOnTheLeft(f, level, c[k], (from.0, from.1), (to.0, to.1))
  {
    hide At, Crossed, RimBelow, Successor, ExitCell, EntryCell, AreaOnTheLeft, Distinct;
    var prior := c[if k == 0 then |c| - 1 else k - 1];
    assert prior in next && next[prior] == c[k];
    SuccessorIsThroughTheCell(f, level, prior);
    CrossingHasAreaOnTheLeft(f, level, c[k]);
  }

  // ---- the rings -----------------------------------------------------------------------------------------

  type Pt = (real, real)

  const MAX_CONTOUR_RINGS: nat := 5000

  /** The point kept for a crossing. */
  function PointAt(points: map<Edge, Pt>, e: Edge): (p: Pt)
    ensures e in points ==> p == points[e]
  {
    if e in points then points[e] else (0.0, 0.0)
  }

  /** The points of a path, one for each run of equal points. */
  function Thinned(points: map<Edge, Pt>, path: seq<Edge>): seq<Pt> {
    if path == [] then [] else
      var ring, pt := Thinned(points, path[..|path| - 1]), PointAt(points, path[|path| - 1]);
      if ring == [] || ring[|ring| - 1] != pt then ring + [pt] else ring
  }

  /** Shoelace: twice the area, positive counter-clockwise. */
  function TwiceArea(ring: seq<Pt>): real {
    if |ring| < 2 then 0.0 else
      ring[0].0 * ring[1].1 - ring[1].0 * ring[0].1 + TwiceArea(ring[1..])
  }

  function Abs(v: real): real {
    if v < 0.0 then -v else v
  }

  /** Paths that meet enclose what each does. */
  lemma {:induction false} AreasAddUp(a: seq<Pt>, p: Pt, b: seq<Pt>)
    ensures TwiceArea(a + [p] + b) == TwiceArea(a + [p]) + TwiceArea([p] + b)
  {
    if a == [] {
      assert [] + [p] + b == [p] + b && [] + [p] == [p];
    } else {
      var rest := a[1..];
      AreasAddUp(rest, p, b);
      assert (a + [p] + b)[1..] == rest + [p] + b && (a + [p])[1..] == rest + [p];
      assert a == [a[0]] + rest;
    }
  }

  /** The area of a triangle, and of none. */
  lemma AreaOfTriangle(p: Pt, q: Pt, r: Pt)
    ensures TwiceArea([p, q, r, p]) == (q.0 - p.0) * (r.1 - p.1) - (r.0 - p.0) * (q.1 - p.1)
    ensures TwiceArea([p, q, p]) == 0.0
  {
    assert [p, q, r, p][1..] == [q, r, p] && [q, r, p][1..] == [r, p] && [r, p][1..] == [p];
    assert [p, q, p][1..] == [q, p] && [q, p][1..] == [p];
    assert TwiceArea([r, p]) == r.0 * p.1 - p.0 * r.1;
    assert TwiceArea([q, r, p]) == q.0 * r.1 - r.0 * q.1 + TwiceArea([r, p]);
    assert TwiceArea([q, p]) == q.0 * p.1 - p.0 * q.1;
  }

  /** The area of a ring is the sum of those of the triangles it is cut into from its first point. */
  lemma CutOffTriangle(p: Pt, q: Pt, r: Pt, others: seq<Pt>)
    ensures TwiceArea([p, q, r] + others + [p]) == TwiceArea([p, q, r, p]) + TwiceArea([p, r] + others + [p])
  {
    AreasAddUp([p, q], r, others + [p]);
    AreasAddUp([p], r, others + [p]);
    AreasAddUp([p, q], r, [p]);
    AreasAddUp([p], r, [p]);
    AreaOfTriangle(p, r, p);
    assert [p, q] + [r] + (others + [p]) == [p, q, r] + others + [p] && [p] + [r] + (others + [p]) == [p, r] + others + [p];
    assert [p, q] + [r] + [p] == [p, q, r, p] && [p] + [r] + [p] == [p, r, p];
    assert [p, q] + [r] == [p, q, r] && [p] + [r] == [p, r] && [r] + [p] == [r, p];
    assert TwiceArea([p, r]) + TwiceArea([r, p]) == 0.0;
  }

  /** The rings drawn for what has been followed: one when it has an area, else none. */
  function Drawn(ring: seq<Pt>): seq<seq<Pt>> {
    if |ring| < 3 then [] else
      var closed := if ring[0] != ring[|ring| - 1] then ring + [ring[0]] else ring;
      if |closed| >= 4 && Abs(TwiceArea(closed) / 2.0) > 0.000000001 then [closed] else []
  }

  function RingsOf(points: map<Edge, Pt>, cycles: seq<seq<Edge>>): seq<seq<Pt>> {
    if cycles == [] then [] else
      RingsOf(points, cycles[..|cycles| - 1]) + Drawn(Thinned(points, cycles[|cycles| - 1]))
  }

  // ---- what a ring is --------------------------------------------------------------------------------------

  /** A ring as the map draws it: closed, no two neighbours the same, and round some area. */
  ghost predicate IsRing(ring: seq<Pt>) {
    && |ring| >= 4
    && ring[0] == ring[|ring| - 1]
    && (forall k :: 0 <= k < |ring| - 1 ==> ring[k] != ring[k + 1])
    && (TwiceArea(ring) / 2.0 > 0.000000001 || TwiceArea(ring) / 2.0 < -0.000000001)
  }

  /** Where the next of the places is, or the end. */
  function NextOf(at: seq<nat>, k: nat, end: nat): nat {
    if k + 1 < |at| then at[k + 1] else end
  }

  /** `kept` are the points of the crossings at `at`, one for each run of crossings of one point: all of them, in order. */
  ghost predicate Reduces(points: map<Edge, Pt>, path: seq<Edge>, at: seq<nat>, kept: seq<Pt>) {
    && |at| == |kept| && (path != [] ==> at != [] && at[0] == 0)
    && (forall k :: 0 <= k < |at| ==> at[k] < |path|)
    && (forall k, l :: 0 <= k < l < |at| ==> at[k] < at[l])
    && (forall k :: 0 <= k < |at| - 1 ==> kept[k] != kept[k + 1])
    && (forall k, i :: 0 <= k < |at| && at[k] <= i < NextOf(at, k, |path|) ==> PointAt(points, path[i]) == kept[k])
  }

  /** The points of an outline in order, without repeats, and the first once more when they do not end with it. */
  ghost predicate Outlines(points: map<Edge, Pt>, path: seq<Edge>, ring: seq<Pt>) {
    exists at, kept :: Reduces(points, path, at, kept) && kept != []
      && ring == if kept[|kept| - 1] == kept[0] then kept else kept + [kept[0]]
  }

  /** The rings are those of the outlines that have one, in order. */
  ghost predicate RingsAreOf(points: map<Edge, Pt>, cycles: seq<seq<Edge>>, rings: seq<seq<Pt>>, of: seq<nat>) {
    && |of| == |rings|
    && (forall k :: 0 <= k < |of| ==> of[k] < |cycles| && IsRing(rings[k]) && Outlines(points, cycles[of[k]], rings[k]))
    && (forall k, l :: 0 <= k < l < |of| ==> of[k] < of[l])
    && (forall i: nat, ring :: i < |cycles| && IsRing(ring) && Outlines(points, cycles[i], ring) ==> i in of)
  }

  lemma ReducesMore(points: map<Edge, Pt>, path: seq<Edge>, at: seq<nat>, kept: seq<Pt>, e: Edge)
    requires Reduces(points, path, at, kept) && (kept == [] || kept[|kept| - 1] != PointAt(points, e))
    ensures Reduces(points, path + [e], at + [|path|], kept + [PointAt(points, e)])
  {
    hide PointAt;
  }

  lemma ReducesSame(points: map<Edge, Pt>, path: seq<Edge>, at: seq<nat>, kept: seq<Pt>, e: Edge)
    requires Reduces(points, path, at, kept) && kept != [] && kept[|kept| - 1] == PointAt(points, e)
    ensures Reduces(points, path + [e], at, kept)
  {
    hide PointAt;
  }

  lemma RunIsOnePoint(points: map<Edge, Pt>, path: seq<Edge>, at: seq<nat>, kept: seq<Pt>, k: nat, i: nat)
    requires Reduces(points, path, at, kept) && k < |at| && at[k] <= i < NextOf(at, k, |path|)
    ensures i < |path| && PointAt(points, path[i]) == kept[k]
  {
    hide PointAt;
  }

  lemma ReducesLess(points: map<Edge, Pt>, path: seq<Edge>, at: seq<nat>, kept: seq<Pt>, e: Edge)
    requires Reduces(points, path + [e], at, kept)
    ensures at != [] && kept[|kept| - 1] == PointAt(points, e)
    ensures var n := |at| - 1;
            if at[n] == |path| then Reduces(points, path, at[..n], kept[..n]) && (n > 0 ==> kept[n - 1] != PointAt(points, e))
            else Reduces(points, path, at, kept)
  {
    hide PointAt;
    var more, n := path + [e], |at| - 1;
    assert more[|path|] == e;
    assert at[n] < |more|;
    assert at != [];
    RunIsOnePoint(points, more, at, kept, n, |path|);
    if at[n] == |path| {
      forall k, i | 0 <= k < n && at[k] <= i < NextOf(at[..n], k, |path|)
        ensures PointAt(points, path[i]) == kept[k]
      {
        RunIsOnePoint(points, more, at, kept, k, i);
      }
      assert n > 0 ==> kept[n - 1] != kept[n - 1 + 1];
    } else {
      forall k, i | 0 <= k < |at| && at[k] <= i < NextOf(at, k, |path|)
        ensures PointAt(points, path[i]) == kept[k]
      {
        RunIsOnePoint(points, more, at, kept, k, i);
      }
    }
  }

  lemma ThinnedMore(points: map<Edge, Pt>, path: seq<Edge>, e: Edge)
    ensures var ring, pt := Thinned(points, path), PointAt(points, e);
            Thinned(points, path + [e]) == if ring == [] || ring[|ring| - 1] != pt then ring + [pt] else ring
  {
    assert (path + [e])[..|path|] == path;
  }

  /** What is kept of an outline's points is what is followed. */
  lemma {:induction false} ReducesIsThinned(points: map<Edge, Pt>, path: seq<Edge>, at: seq<nat>, kept: seq<Pt>)
    requires Reduces(points, path, at, kept)
    ensures kept == Thinned(points, path)
  {
    if path != [] {
      var before, e, n := path[..|path| - 1], path[|path| - 1], |at| - 1;
      assert path == before + [e];
      ReducesLess(points, before, at, kept, e);
      ThinnedMore(points, before, e);
      hide Reduces, PointAt, Thinned;
      if at[n] == |before| {
        ReducesIsThinned(points, before, at[..n], kept[..n]);
        assert kept == kept[..n] + [kept[n]];
      } else {
        ReducesIsThinned(points, before, at, kept);
        assert kept != [] by { ReducesSize(points, path, at, kept); }
      }
    } else {
      ReducesSize(points, path, at, kept);
    }
  }

  lemma ReducesSize(points: map<Edge, Pt>, path: seq<Edge>, at: seq<nat>, kept: seq<Pt>)
    requires Reduces(points, path, at, kept)
    ensures |at| == |kept| && (kept == [] <==> path == [])
    ensures forall k :: 0 <= k < |kept| - 1 ==> kept[k] != kept[k + 1]
  {
    if at != [] {
      assert path != [] by { assert at[0] < |path|; }
    }
  }

  lemma {:induction false} ThinnedReduces(points: map<Edge, Pt>, path: seq<Edge>) returns (at: seq<nat>)
    ensures Reduces(points, path, at, Thinned(points, path))
  {
    at := [];
    if path != [] {
      var before, e := path[..|path| - 1], path[|path| - 1];
      assert path == before + [e];
      at := ThinnedReduces(points, before);
      var kept := Thinned(points, before);
      ThinnedMore(points, before, e);
      hide Reduces, PointAt, Thinned;
      ReducesSize(points, before, at, kept);
      if kept == [] || kept[|kept| - 1] != PointAt(points, e) {
        ReducesMore(points, before, at, kept, e);
        at := at + [|before|];
      } else {
        ReducesSame(points, before, at, kept, e);
      }
    }
  }

  /** An outline's ring is the one drawn for it, if it has one. */
  lemma DrawnIsTheRing(points: map<Edge, Pt>, path: seq<Edge>)
    ensures var drawn := Drawn(Thinned(points, path));
            && |drawn| <= 1
            && (forall ring :: IsRing(ring) && Outlines(points, path, ring) ==> drawn == [ring])
            && (drawn != [] ==> IsRing(drawn[0]) && Outlines(points, path, drawn[0]))
  {
    hide TwiceArea, Thinned, Reduces;
    var kept, drawn := Thinned(points, path), Drawn(Thinned(points, path));
    var at := ThinnedReduces(points, path);
    ReducesSize(points, path, at, kept);
    forall ring | IsRing(ring) && Outlines(points, path, ring)
      ensures drawn == [ring]
    {
      var at', kept' :| Reduces(points, path, at', kept') && kept' != []
        && ring == if kept'[|kept'| - 1] == kept'[0] then kept' else kept' + [kept'[0]];
      ReducesIsThinned(points, path, at', kept');
    }
  }

  /** The rings drawn for outlines are theirs, one for each that has one. */
  lemma {:induction false} RingsAreTheirs(points: map<Edge, Pt>, cycles: seq<seq<Edge>>) returns (of: seq<nat>)
    ensures RingsAreOf(points, cycles, RingsOf(points, cycles), of)
  {
    of := [];
    if cycles != [] {
      hide IsRing, Outlines, Drawn, Thinned;
      var before, last := cycles[..|cycles| - 1], |cycles| - 1;
      assert cycles == before + [cycles[last]];
      hide RingsAreOf;
      of := RingsAreTheirs(points, before);
      DrawnIsTheRing(points, cycles[last]);
      RingsAreMore(points, before, cycles[last], RingsOf(points, before), Drawn(Thinned(points, cycles[last])), of);
      if Drawn(Thinned(points, cycles[last])) != [] {
        of := of + [last];
      }
    }
  }

  lemma RingsAreMore(points: map<Edge, Pt>, before: seq<seq<Edge>>, path: seq<Edge>, rings: seq<seq<Pt>>, drawn: seq<seq<Pt>>, of: seq<nat>)
    requires RingsAreOf(points, before, rings, of) && |drawn| <= 1
    requires forall ring :: IsRing(ring) && Outlines(points, path, ring) ==> drawn == [ring]
    requires drawn != [] ==> IsRing(drawn[0]) && Outlines(points, path, drawn[0])
    ensures RingsAreOf(points, before + [path], rings + drawn, if drawn == [] then of else of + [|before|])
  {
    hide IsRing, Outlines;
    var cycles, of' := before + [path], if drawn == [] then of else of + [|before|];
    assert forall k :: 0 <= k < |of| ==> of'[k] == of[k];
    forall i: nat, ring | i < |cycles| && IsRing(ring) && Outlines(points, cycles[i], ring)
      ensures i in of'
    {
      if i < |before| {
        assert i in of;
      } else {
        assert drawn == [ring] && of'[|of|] == i;
      }
    }
  }

  /** The keys followed so far from `start`, each linked to the next, the last to `k`. */
  ghost predicate PathTo(p: map<Edge, Edge>, start: Edge, cycle: seq<Edge>, k: Edge) {
    && Distinct(cycle)
    && if cycle == [] then k == start else cycle[0] == start && Chain(p, cycle, k)
  }

  /** The tracer on its way: `cycle` has been followed from `start` and deleted, and leads to `k`. */
  ghost predicate Following(p: map<Edge, Edge>, links: map<Edge, Edge>, next: map<Edge, Edge>, start: Edge, cycle: seq<Edge>, k: Edge) {
    && LeftOf(p, links) && Without(links, next, cycle) && PathTo(p, start, cycle, k)
    && (forall e :: e in cycle ==> e in links) && k in links
  }

  lemma FollowingStarts(p: map<Edge, Edge>, links: map<Edge, Edge>, start: Edge)
    requires LeftOf(p, links) && start in links
    ensures Following(p, links, links, start, [], start)
  {
  }

  lemma PathMore(p: map<Edge, Edge>, start: Edge, cycle: seq<Edge>, k: Edge)
    requires PathTo(p, start, cycle, k) && k in p && k !in cycle
    ensures PathTo(p, start, cycle + [k], p[k])
  {
    hide Chain, Distinct;
    DistinctMore(cycle, k);
    if cycle == [] {
      ChainStarts(p, k);
      assert [] + [k] == [k];
    } else {
      ChainMore(p, cycle, k);
    }
  }

  lemma LeftAt(p: map<Edge, Edge>, links: map<Edge, Edge>, k: Edge)
    requires LeftOf(p, links) && k in links
    ensures k in p && links[k] == p[k] && p[k] in links
  {
  }

  lemma FollowingStep(p: map<Edge, Edge>, links: map<Edge, Edge>, next: map<Edge, Edge>, start: Edge, cycle: seq<Edge>, k: Edge)
    requires Following(p, links, next, start, cycle, k) && k in next
    ensures Following(p, links, next - {k}, start, cycle + [k], next[k])
  {
    hide PathTo, LeftOf, Without;
    assert links[k] == next[k] && k !in cycle by { WithoutAt(links, next, cycle, k); }
    LeftAt(p, links, k);
    PathMore(p, start, cycle, k);
    WithoutMore(links, next, cycle, k);
  }

  lemma WithoutAt(before: map<Edge, Edge>, next: map<Edge, Edge>, path: seq<Edge>, k: Edge)
    requires Without(before, next, path) && k in next
    ensures k in before && before[k] == next[k] && k !in path
  {
  }

  lemma FollowingEnds(p: map<Edge, Edge>, links: map<Edge, Edge>, next: map<Edge, Edge>, start: Edge, cycle: seq<Edge>, k: Edge)
    requires Permutes(p) && Following(p, links, next, start, cycle, k) && k !in next
    ensures IsCycle(p, cycle) && cycle[0] == start && k == start && LeftOf(p, next)
  {
    hide Chain, Distinct, Permutes, LeftOf;
    assert cycle != [];
    ChainCloses(p, cycle, k);
    CycleOut(p, links, next, cycle);
  }

  lemma ChainStarts(p: map<Edge, Edge>, k: Edge)
    requires k in p
    ensures Chain(p, [k], p[k])
  {
  }

  /** Follow the links from a key until they end, deleting each: they end where they began. */
  method FollowFrom(ghost p: map<Edge, Edge>, links: map<Edge, Edge>, points: map<Edge, Pt>, start: Edge)
    returns (next: map<Edge, Edge>, ring: seq<Pt>, ghost cycle: seq<Edge>)
    requires Permutes(p) && LeftOf(p, links) && start in links
    ensures IsCycle(p, cycle) && cycle[0] == start && forall e :: e in cycle ==> e in links
    ensures Without(links, next, cycle) && LeftOf(p, next)
    ensures ring == Thinned(points, cycle)
  {
    hide Following, Permutes, LeftOf;
    next, ring, cycle := links, [], [];
    var k := start;
    FollowingStarts(p, links, start);
    while k in next
      invariant Following(p, links, next, start, cycle, k)
      invariant ring == Thinned(points, cycle)
      decreases next.Keys
    {
      var pt := PointAt(points, k);
      if |ring| == 0 || ring[|ring| - 1] != pt {
        ring := ring + [pt];
      }
      FollowingStep(p, links, next, start, cycle, k);
      ghost var was := cycle;
      cycle := cycle + [k];
      assert cycle[..|cycle| - 1] == was;
      var n := next[k];
      next := next - {k};
      k := n;
    }
    FollowingEnds(p, links, next, start, cycle, k);
    FollowingFacts(p, links, next, start, cycle, k);
  }

  lemma FollowingFacts(p: map<Edge, Edge>, links: map<Edge, Edge>, next: map<Edge, Edge>, start: Edge, cycle: seq<Edge>, k: Edge)
    requires Following(p, links, next, start, cycle, k)
    ensures Without(links, next, cycle) && forall e :: e in cycle ==> e in links
  {
    hide PathTo, LeftOf;
  }

  /** The keys of the cycles traced and of the links left are those of all the links, each in one place. */
  ghost predicate Partition(p: map<Edge, Edge>, next: map<Edge, Edge>, cycles: seq<seq<Edge>>) {
    && (forall c :: c in cycles ==> IsCycle(p, c))
    && (forall e: Edge :: e in p <==> e in next || exists i :: 0 <= i < |cycles| && e in cycles[i])
    && (forall e: Edge, i :: 0 <= i < |cycles| && e in cycles[i] ==> e !in next)
    && (forall e: Edge, i, j :: 0 <= i < j < |cycles| && e in cycles[i] ==> e !in cycles[j])
  }

  lemma PartitionMore(p: map<Edge, Edge>, links: map<Edge, Edge>, next: map<Edge, Edge>, cycles: seq<seq<Edge>>, c: seq<Edge>)
    requires Partition(p, links, cycles) && IsCycle(p, c) && (forall e :: e in c ==> e in links) && Without(links, next, c)
    ensures Partition(p, next, cycles + [c])
  {
    hide IsCycle;
    var more := cycles + [c];
    assert forall i :: 0 <= i < |cycles| ==> more[i] == cycles[i];
    assert more[|cycles|] == c;
    forall e: Edge | e in p
      ensures e in next || exists i :: 0 <= i < |more| && e in more[i]
    {
      if e !in next && e !in c {
        var i :| 0 <= i < |cycles| && e in cycles[i];
        assert e in more[i];
      }
    }
  }

  /** The rings of closed outlines that share no crossing: of all of them, or of some that are too many. */
  ghost predicate Traced(links: map<Edge, Edge>, points: map<Edge, Pt>, r: Result<seq<seq<Pt>>>, cycles: seq<seq<Edge>>) {
    && (forall c :: c in cycles ==> IsCycle(links, c))
    && (r.Success? ==> Partition(links, map[], cycles) && |r.value| <= MAX_CONTOUR_RINGS && exists of :: RingsAreOf(points, cycles, r.value, of))
    && (r.Failure? ==>
          && (exists next :: Partition(links, next, cycles))
          && exists rings, of :: |rings| > MAX_CONTOUR_RINGS && RingsAreOf(points, cycles, rings, of))
  }

  /**
   * Every link is followed: the outlines are closed, no crossing is in two of them, and when the
   * tracer does not give up for too many rings every crossing is in one.
   */
  method TraceLinks(links: map<Edge, Edge>, keys: seq<Edge>, points: map<Edge, Pt>)
    returns (r: Result<seq<seq<Pt>>>)
    requires Permutes(links) && KeysOf(links, keys)
    ensures exists cycles :: Traced(links, points, r, cycles)
  {
    hide IsCycle, Permutes, Drawn, Thinned, Without, LeftOf, Partition, RingsAreOf;
    var next, rings := links, [];
    ghost var cycles: seq<seq<Edge>> := [];
    AllIsLeft(links);
    for i := 0 to |keys|
      invariant Partition(links, next, cycles) && LeftOf(links, next)
      invariant forall j :: 0 <= j < i ==> keys[j] !in next
      invariant rings == RingsOf(points, cycles) && |rings| <= MAX_CONTOUR_RINGS
      invariant forall c :: c in cycles ==> IsCycle(links, c)
    {
      if keys[i] in next {
        ghost var before := next;
        var ring; ghost var cycle;
        next, ring, cycle := FollowFrom(links, next, points, keys[i]);
        PartitionMore(links, before, next, cycles, cycle);
        OnlyFewer(before, next, cycle);
        assert (cycles + [cycle])[..|cycles|] == cycles;
        cycles := cycles + [cycle];
        rings := rings + Drawn(ring);
        assert keys[i] !in next by { StartIsGone(links, before, next, cycle); }
      }
      if |rings| > MAX_CONTOUR_RINGS {
        r := Failure("too many areas");
        assert Partition(links, next, cycles);
        ghost var of := RingsAreTheirs(points, cycles);
        assert Traced(links, points, r, cycles);
        return;
      }
    }
    NothingIsLeft(links, next, keys, cycles);
    r := Success(rings);
    ghost var of := RingsAreTheirs(points, cycles);
    assert Traced(links, points, r, cycles);
  }

  lemma AllIsLeft(p: map<Edge, Edge>)
    requires Permutes(p)
    ensures LeftOf(p, p) && Partition(p, p, [])
  {
  }

  lemma OnlyFewer(before: map<Edge, Edge>, next: map<Edge, Edge>, c: seq<Edge>)
    requires Without(before, next, c)
    ensures forall e: Edge :: e in next ==> e in before
  {
  }

  lemma StartIsGone(p: map<Edge, Edge>, before: map<Edge, Edge>, next: map<Edge, Edge>, c: seq<Edge>)
    requires Without(before, next, c) && IsCycle(p, c)
    ensures c[0] !in next
  {
  }

  lemma NothingIsLeft(p: map<Edge, Edge>, next: map<Edge, Edge>, keys: seq<Edge>, cycles: seq<seq<Edge>>)
    requires KeysOf(p, keys) && Partition(p, next, cycles) && forall j :: 0 <= j < |keys| ==> keys[j] !in next
    ensures Partition(p, map[], cycles)
  {
    hide IsCycle;
    forall e: Edge
      ensures e !in next
    {
      if e in p {
        var j :| 0 <= j < |keys| && keys[j] == e;
      }
    }
  }

  /** Rings that are those of outlines are closed and have an area. */
  lemma TracedAreRings(links: map<Edge, Edge>, points: map<Edge, Pt>, r: Result<seq<seq<Pt>>>, cycles: seq<seq<Edge>>)
    requires Traced(links, points, r, cycles)
    ensures r.Success? ==> |r.value| <= MAX_CONTOUR_RINGS && forall ring :: ring in r.value ==> IsRing(ring)
  {
    hide IsRing, Outlines, Partition, IsCycle;
  }

  /**
   * The outlines of one level: closed, no crossing in two of them, and every crossed edge of the grid
   * in one, unless there are too many of them. Each ring is closed, has an area, and is that of its
   * own outline; every outline that has one is given.
   */
  method TraceLevel(f: Field, level: real, points: map<Edge, Pt>) returns (r: Result<seq<seq<Pt>>>)
    requires Padded(f)
    ensures exists next, cycles :: Linked(f, level, next) && Permutes(next) && Traced(next, points, r, cycles)
    ensures r.Success? ==> |r.value| <= MAX_CONTOUR_RINGS && forall ring :: ring in r.value ==> IsRing(ring)
  {
    hide Linked, Permutes, Traced, RimBelow, IsRing;
    var next, keys := LinkCells(f, level);
    LinksPermute(f, level, next);
    r := TraceLinks(next, keys, points);
    ghost var cycles :| Traced(next, points, r, cycles);
    TracedAreRings(next, points, r, cycles);
  }

  // ---- filling the padded grid ---------------------------------------------------------------------------

  /** A value read, with the column (after the lead column) and row it was found on, if any. */
  datatype Sample = Sample(i: Option<nat>, j: Option<nat>, v: Option<Value>)

  /** The longitudes: `nx` columns, repeated across the seam on the right and, with `lead`, on the left. */
  datatype Axes = Axes(nx: nat, ny: nat, wraps: bool, lead: nat)

  ghost predicate AxesOk(a: Axes) {
    && a.ny >= 2 && a.lead <= 1 && (a.lead == 1 ==> a.wraps) && a.nx >= 2 + a.lead + if a.wraps then 1 else 0
  }

  /** A sample's column is one of the longitudes' own, not one repeated across the seam. */
  ghost predicate SampleOk(a: Axes, s: Sample) {
    && (s.i.Some? ==> a.lead <= s.i.value && s.i.value + (if a.wraps then 1 else 0) < a.nx)
    && (s.j.Some? ==> s.j.value < a.ny)
  }

  predicate Lands(s: Sample, i: nat, j: nat) {
    s.i == Some(i) && s.j == Some(j) && s.v.Some?
  }

  /** The last value given for a column and row. */
  function LastGiven(samples: seq<Sample>, i: nat, j: nat): Value {
    if samples == [] then Below else
      var s := samples[|samples| - 1];
      if Lands(s, i, j) then s.v.value else LastGiven(samples[..|samples| - 1], i, j)
  }

  /** The column whose values a padded column shows: its own, or the one it repeats across the seam. */
  function ShownIn(a: Axes, x: nat): nat
    requires AxesOk(a) && 0 < x <= a.nx
  {
    if a.wraps && x == a.nx then a.lead else if a.lead == 1 && x == 1 then a.nx - 2 else x - 1
  }

  /** The padded grid holds what was given last for each place, and nothing on its rim. */
  ghost predicate Shows(a: Axes, f: Field, samples: seq<Sample>)
    requires AxesOk(a)
  {
    && Valid(f) && f.width == a.nx + 2 && f.height == a.ny + 2
    && forall x: nat, y: nat :: x < f.width && y < f.height ==>
         At(f, x, y) == if OnRim(f, x, y) then Below else LastGiven(samples, ShownIn(a, x), y - 1)
  }

  lemma SameCell(w: nat, x: nat, y: nat, x': nat, y': nat)
    requires x < w && x' < w && y * w + x == y' * w + x'
    ensures x == x' && y == y'
  {
    if y < y' {
      MulMonotone(y + 1, y', w);
    } else if y' < y {
      MulMonotone(y' + 1, y, w);
    }
  }

  /** One cell of the grid set. */
  ghost predicate Put(f: Field, x: nat, y: nat, v: Value, g: Field)
    requires Valid(f) && x < f.width && y < f.height
  {
    && Valid(g) && g.width == f.width && g.height == f.height
    && At(g, x, y) == v
    && forall x': nat, y': nat :: x' < f.width && y' < f.height && (x' != x || y' != y) ==> At(g, x', y') == At(f, x', y')
  }

  lemma PutIsPut(f: Field, x: nat, y: nat, v: Value)
    requires Valid(f) && x < f.width && y < f.height
    ensures 0 <= y * f.width + x < |f.cells|
    ensures Put(f, x, y, v, f.(cells := f.cells[y * f.width + x := v]))
  {
    IndexFits(f, x, y);
    var g := f.(cells := f.cells[y * f.width + x := v]);
    forall x': nat, y': nat | x' < f.width && y' < f.height && (x' != x || y' != y)
      ensures At(g, x', y') == At(f, x', y')
    {
      IndexFits(f, x', y');
      if y' * f.width + x' == y * f.width + x {
        SameCell(f.width, x, y, x', y');
        assert false;
      }
    }
  }

  /** A sample written in its own column and, next to the seam, in the column that repeats it. */
  lemma SampleShows(a: Axes, f: Field, samples: seq<Sample>, s: Sample, g1: Field, g2: Field, g3: Field)
    requires AxesOk(a) && Shows(a, f, samples) && SampleOk(a, s) && s.i.Some? && s.j.Some? && s.v.Some?
    requires Put(f, s.i.value + 1, s.j.value + 1, s.v.value, g1)
    requires if a.wraps && s.i.value == a.lead then Put(g1, a.nx, s.j.value + 1, s.v.value, g2) else g2 == g1
    requires if a.lead == 1 && s.i.value == a.nx - 2 then Put(g2, 1, s.j.value + 1, s.v.value, g3) else g3 == g2
    ensures Shows(a, g3, samples + [s])
  {
    hide At;
    assert (samples + [s])[..|samples|] == samples;
    forall x: nat, y: nat | x < f.width && y < f.height
      ensures At(g3, x, y) == if OnRim(f, x, y) then Below else LastGiven(samples + [s], ShownIn(a, x), y - 1)
    {
      assert At(f, x, y) == if OnRim(f, x, y) then Below else LastGiven(samples, ShownIn(a, x), y - 1);
    }
  }

  lemma NoSampleShows(a: Axes, f: Field, samples: seq<Sample>, s: Sample)
    requires AxesOk(a) && Shows(a, f, samples) && (s.i.None? || s.j.None? || s.v.None?)
    ensures Shows(a, f, samples + [s])
  {
    hide At;
    assert (samples + [s])[..|samples|] == samples;
  }

  lemma EmptyShows(a: Axes, f: Field)
    requires AxesOk(a) && Valid(f) && f.width == a.nx + 2 && f.height == a.ny + 2
    requires forall k :: 0 <= k < |f.cells| ==> f.cells[k] == Below
    ensures Shows(a, f, [])
  {
    forall x: nat, y: nat | x < f.width && y < f.height
      ensures At(f, x, y) == Below
    {
      IndexFits(f, x, y);
    }
  }

  /** The grid is padded, and on a whole circle the columns either side of the seam agree. */
  lemma ShownGridIsPadded(a: Axes, f: Field, samples: seq<Sample>)
    requires AxesOk(a) && Shows(a, f, samples)
    ensures Padded(f)
    ensures a.wraps ==> forall y: nat :: y < f.height ==> At(f, a.nx, y) == At(f, a.lead + 1, y)
    ensures a.lead == 1 ==> forall y: nat :: y < f.height ==> At(f, 1, y) == At(f, a.nx - 1, y)
  {
    hide At;
  }

  /** Lay the samples on the padded grid. */
  method FillGrid(a: Axes, samples: seq<Sample>) returns (f: Field)
    requires AxesOk(a) && forall k :: 0 <= k < |samples| ==> SampleOk(a, samples[k])
    ensures Shows(a, f, samples) && Padded(f)
    ensures a.wraps ==> forall y: nat :: y < f.height ==> At(f, a.nx, y) == At(f, a.lead + 1, y)
    ensures a.lead == 1 ==> forall y: nat :: y < f.height ==> At(f, 1, y) == At(f, a.nx - 1, y)
  {
    hide Shows, Put, At, RimBelow;
    var w, h := a.nx + 2, a.ny + 2;
    var grid := new Value[w * h](_ => Below);
    assert h >= 2 && w >= 2;
    EmptyShows(a, Field(w, h, grid[..]));
    for n := 0 to |samples|
      invariant Shows(a, Field(w, h, grid[..]), samples[..n])
    {
      var s := samples[n];
      ghost var f0 := Field(w, h, grid[..]);
      assert samples[..n + 1] == samples[..n] + [s];
      if s.i.None? || s.j.None? || s.v.None? {
        NoSampleShows(a, f0, samples[..n], s);
        continue;
      }
      var i, j, v := s.i.value, s.j.value, s.v.value;
      ShowsSize(a, f0, samples[..n]);
      PutAt(grid, w, h, i + 1, j + 1, v);
      ghost var g1 := Field(w, h, grid[..]);
      if a.wraps && i == a.lead {
        PutAt(grid, w, h, a.nx, j + 1, v);
      }
      ghost var g2 := Field(w, h, grid[..]);
      if a.lead == 1 && i == a.nx - 2 {
        PutAt(grid, w, h, 1, j + 1, v);
      }
      SampleShows(a, f0, samples[..n], s, g1, g2, Field(w, h, grid[..]));
    }
    assert samples[..|samples|] == samples;
    f := Field(w, h, grid[..]);
    ShownGridIsPadded(a, f, samples);
  }

  lemma ShowsSize(a: Axes, f: Field, samples: seq<Sample>)
    requires AxesOk(a) && Shows(a, f, samples)
    ensures Valid(f)
  {
  }

  method PutAt(grid: array<Value>, w: nat, h: nat, x: nat, y: nat, v: Value)
    requires w >= 2 && h >= 2 && grid.Length == w * h && x < w && y < h
    modifies grid
    ensures Put(Field(w, h, old(grid[..])), x, y, v, Field(w, h, grid[..]))
  {
    hide Put, At;
    PutIsPut(Field(w, h, grid[..]), x, y, v);
    grid[y * w + x] := v;
    assert grid[..] == old(grid[..])[y * w + x := v];
  }
}
