/**
 * Tile ids: the Hilbert curve of each zoom, zooms one after another
 * (packages/offline/src/pmtiles.ts, "tile ids").
 *
 * `Curve` and `Point` define the curve recursively, with the rotation narrowed to the quadrant. The encoder
 * in the source walks the bits from the top and rotates in the full width of the zoom; the decoder
 * walks from the bottom and rotates in the width reached so far. Both loops are methods here,
 * proved to compute `Curve` and `Point`; what the source promises of ids is proved of those two.
 */
module TileIds {
  import opened Wrappers
  import opened Numbers

  const PM_MAX_ZOOM: nat := 15

  /** The operands JavaScript's bit operators take without truncation. */
  predicate FitsInt32(v: int) {
    -0x8000_0000 <= v < 0x8000_0000
  }

  function Pow2(k: nat): (p: nat)
    ensures p > 0
  {
    if k == 0 then 1 else 2 * Pow2(k - 1)
  }

  /** The number of tiles of zoom `k`. */
  function Pow4(k: nat): (p: nat)
    ensures p > 0
  {
    if k == 0 then 1 else 4 * Pow4(k - 1)
  }

  lemma {:induction false} Pow2Monotone(j: nat, k: nat)
    requires j <= k
    ensures Pow2(j) <= Pow2(k)
  {
    if j < k {
      Pow2Monotone(j, k - 1);
    }
  }

  lemma Pow2Bound(z: nat)
    requires z <= PM_MAX_ZOOM + 1
    ensures Pow2(z) <= 65536
  {
    Pow2Monotone(z, 16);
    assert Pow2(4) == 16;
    assert Pow2(8) == 256;
    assert Pow2(12) == 4096;
    assert Pow2(16) == 65536;
  }

  /** `1 << z`, on the operands it is used with. */
  function ShiftLeft(z: nat): (n: nat)
    requires z <= PM_MAX_ZOOM + 1
    ensures n == Pow2(z) && FitsInt32(n)
  {
    Pow2Bound(z);
    Pow2(z)
  }

  /** `(t & s) > 0 ? 1 : 0` for a power of two `s`. */
  function Bit(t: nat, s: nat): (b: nat)
    requires FitsInt32(t) && FitsInt32(s) && s > 0
    ensures b < 2
  {
    t / s % 2
  }

  /** `1 & Math.floor(t / 2)`. */
  function SecondBit(t: nat): (b: nat)
    requires FitsInt32(t)
    ensures b < 2
  {
    t / 2 % 2
  }

  /** `1 & (t ^ rx)`. */
  function FirstBitXor(t: nat, rx: nat): (b: nat)
    requires FitsInt32(t) && rx < 2
    ensures b < 2
  {
    if t % 2 == rx then 0 else 1
  }

  /** `(3 * rx) ^ ry`: the quadrants in the order the curve visits them. */
  function Quadrant(rx: nat, ry: nat): nat
    requires rx < 2 && ry < 2
  {
    if rx == 0 then ry else 3 - ry
  }

  function Rotate(n: int, x: int, y: int, rx: nat, ry: nat): (int, int) {
    if ry == 0 then
      if rx != 0 then (n - 1 - y, n - 1 - x) else (y, x)
    else
      (x, y)
  }

  // ---- the curve -----------------------------------------------------------------------------

  /** `q * p` for a quadrant `q`. */
  function Times(q: nat, p: nat): nat
    requires q < 4
  {
    if q == 0 then 0 else if q == 1 then p else if q == 2 then 2 * p else 3 * p
  }

  /** The quadrant, in the curve's order, of a point of a square of side `2 * s`. */
  function QuadrantOf(s: nat, x: nat, y: nat): (q: nat)
    ensures q < 4
  {
    if x < s then if y < s then 0 else 1 else if y >= s then 2 else 3
  }

  /** Where a point of a quadrant is on the quadrant's own curve: the first and last quadrants are turned. */
  function ToInner(s: nat, x: nat, y: nat): (i: (nat, nat))
    requires x < 2 * s && y < 2 * s
    ensures i.0 < s && i.1 < s
  {
    match QuadrantOf(s, x, y)
    case 0 => (y, x)
    case 1 => (x, y - s)
    case 2 => (x - s, y - s)
    case _ => (s - 1 - y, 2 * s - 1 - x)
  }

  function FromInner(s: nat, q: nat, i: (nat, nat)): (p: (nat, nat))
    requires q < 4 && i.0 < s && i.1 < s
    ensures p.0 < 2 * s && p.1 < 2 * s
  {
    match q
    case 0 => (i.1, i.0)
    case 1 => (i.0, i.1 + s)
    case 2 => (i.0 + s, i.1 + s)
    case _ => (2 * s - 1 - i.1, s - 1 - i.0)
  }

  lemma ToInnerOfFromInner(s: nat, q: nat, i: (nat, nat))
    requires q < 4 && i.0 < s && i.1 < s
    ensures var p := FromInner(s, q, i); QuadrantOf(s, p.0, p.1) == q && ToInner(s, p.0, p.1) == i
  {
  }

  lemma FromInnerOfToInner(s: nat, x: nat, y: nat)
    requires x < 2 * s && y < 2 * s
    ensures FromInner(s, QuadrantOf(s, x, y), ToInner(s, x, y)) == (x, y)
  {
  }

  /** The quadrant holding the distance `d` of a curve whose quadrants hold `p` points. */
  function QuadrantAt(p: nat, d: nat): (q: nat)
    requires d < 4 * p
    ensures q < 4 && Times(q, p) <= d < Times(q, p) + p
  {
    if d < p then 0 else if d < 2 * p then 1 else if d < 3 * p then 2 else 3
  }

  /** The distance along the curve of `k` levels at (x, y). */
  function Curve(k: nat, x: nat, y: nat): (d: nat)
    requires x < Pow2(k) && y < Pow2(k)
    ensures d < Pow4(k)
    decreases k
  {
    if k == 0 then 0 else
      var s := Pow2(k - 1);
      var i := ToInner(s, x, y);
      Times(QuadrantOf(s, x, y), Pow4(k - 1)) + Curve(k - 1, i.0, i.1)
  }

  /** The point at distance `d` along the curve of `k` levels. */
  function Point(k: nat, d: nat): (r: (nat, nat))
    requires d < Pow4(k)
    ensures r.0 < Pow2(k) && r.1 < Pow2(k)
    decreases k
  {
    if k == 0 then (0, 0) else
      var p := Pow4(k - 1);
      var q := QuadrantAt(p, d);
      FromInner(Pow2(k - 1), q, Point(k - 1, d - Times(q, p)))
  }

  lemma PointInQuadrant(k: nat, q: nat, i: nat)
    requires k > 0 && q < 4 && i < Pow4(k - 1)
    ensures Times(q, Pow4(k - 1)) + i < Pow4(k)
    ensures Point(k, Times(q, Pow4(k - 1)) + i) == FromInner(Pow2(k - 1), q, Point(k - 1, i))
  {
    assert QuadrantAt(Pow4(k - 1), Times(q, Pow4(k - 1)) + i) == q;
  }

  lemma {:induction false} CurveOfPoint(k: nat, d: nat)
    requires d < Pow4(k)
    ensures Curve(k, Point(k, d).0, Point(k, d).1) == d
  {
    hide QuadrantOf, ToInner, FromInner, QuadrantAt, Point;
    if k > 0 {
      var p := Pow4(k - 1);
      var q := QuadrantAt(p, d);
      CurveOfPoint(k - 1, d - Times(q, p));
      PointInQuadrant(k, q, d - Times(q, p));
      ToInnerOfFromInner(Pow2(k - 1), q, Point(k - 1, d - Times(q, p)));
    }
  }

  lemma {:induction false} PointOfCurve(k: nat, x: nat, y: nat)
    requires x < Pow2(k) && y < Pow2(k)
    ensures Point(k, Curve(k, x, y)) == (x, y)
  {
    hide QuadrantOf, ToInner, FromInner, Times, Point;
    if k > 0 {
      var i := ToInner(Pow2(k - 1), x, y);
      PointOfCurve(k - 1, i.0, i.1);
      FromInnerOfToInner(Pow2(k - 1), x, y);
      PointInQuadrant(k, QuadrantOf(Pow2(k - 1), x, y), Curve(k - 1, i.0, i.1));
    }
  }

  lemma CornersOfSquare(s: nat)
    requires s > 0
    ensures FromInner(s, 0, (0, 0)) == (0, 0) && FromInner(s, 3, (s - 1, 0)) == (2 * s - 1, 0)
  {
  }

  /** The curve enters a zoom at its top left tile and leaves it at its top right one. */
  lemma {:induction false} CurveEnds(k: nat)
    ensures Point(k, 0) == (0, 0)
    ensures Point(k, Pow4(k) - 1) == (Pow2(k) - 1, 0)
  {
    if k > 0 {
      hide Point, FromInner;
      CurveEnds(k - 1);
      CornersOfSquare(Pow2(k - 1));
      PointInQuadrant(k, 0, 0);
      PointInQuadrant(k, 3, Pow4(k - 1) - 1);
    }
  }

  predicate EdgeAdjacent(a: (nat, nat), b: (nat, nat)) {
    (a.0 == b.0 && (a.1 == b.1 + 1 || b.1 == a.1 + 1)) || (a.1 == b.1 && (a.0 == b.0 + 1 || b.0 == a.0 + 1))
  }

  lemma FromInnerKeepsAdjacency(s: nat, q: nat, a: (nat, nat), b: (nat, nat))
    requires q < 4 && a.0 < s && a.1 < s && b.0 < s && b.1 < s && EdgeAdjacent(a, b)
    ensures EdgeAdjacent(FromInner(s, q, a), FromInner(s, q, b))
  {
  }

  /** The last point of a quadrant's curve is next to the first of the following quadrant's. */
  lemma QuadrantsJoin(s: nat, q: nat)
    requires q < 3 && s > 0
    ensures EdgeAdjacent(FromInner(s, q, (s - 1, 0)), FromInner(s, q + 1, (0, 0)))
  {
  }

  lemma CurveJoins(k: nat, q: nat)
    requires k > 0 && q < 3
    ensures var d := Times(q + 1, Pow4(k - 1)) - 1;
            d + 1 < Pow4(k) && EdgeAdjacent(Point(k, d), Point(k, d + 1))
  {
    hide Point, FromInner, EdgeAdjacent;
    CurveEnds(k - 1);
    QuadrantsJoin(Pow2(k - 1), q);
    PointInQuadrant(k, q, Pow4(k - 1) - 1);
    PointInQuadrant(k, q + 1, 0);
  }

  lemma CurveWithinQuadrant(k: nat, q: nat, i: nat)
    requires k > 0 && q < 4 && i + 1 < Pow4(k - 1) && EdgeAdjacent(Point(k - 1, i), Point(k - 1, i + 1))
    ensures var d := Times(q, Pow4(k - 1)) + i;
            d + 1 < Pow4(k) && EdgeAdjacent(Point(k, d), Point(k, d + 1))
  {
    hide Point, FromInner, EdgeAdjacent;
    FromInnerKeepsAdjacency(Pow2(k - 1), q, Point(k - 1, i), Point(k - 1, i + 1));
    PointInQuadrant(k, q, i);
    PointInQuadrant(k, q, i + 1);
  }

  lemma {:induction false} CurveIsConnected(k: nat, d: nat)
    requires d + 1 < Pow4(k)
    ensures EdgeAdjacent(Point(k, d), Point(k, d + 1))
  {
    hide EdgeAdjacent, Point;
    if k > 0 {
      var q := QuadrantAt(Pow4(k - 1), d);
      var i := d - Times(q, Pow4(k - 1));
      if i + 1 < Pow4(k - 1) {
        CurveIsConnected(k - 1, i);
        CurveWithinQuadrant(k, q, i);
      } else {
        CurveJoins(k, q);
      }
    }
  }

  // ---- ids -----------------------------------------------------------------------------------

  /** The first tile id of zoom `z`: (4^z - 1) / 3. */
  function ZoomStartId(z: nat): nat {
    (Pow4(z) - 1) / 3
  }

  lemma {:induction false} Pow4Mod3(z: nat)
    ensures Pow4(z) % 3 == 1
  {
    if z > 0 {
      Pow4Mod3(z - 1);
      DivModUnique(Pow4(z), 4 * (Pow4(z - 1) / 3) + 1, 1, 3);
    }
  }

  lemma ZoomStartStep(z: nat)
    ensures ZoomStartId(z + 1) == ZoomStartId(z) + Pow4(z)
  {
    Pow4Mod3(z);
  }

  lemma {:induction false} ZoomStartMonotone(y: nat, z: nat)
    requires y < z
    ensures ZoomStartId(y + 1) <= ZoomStartId(z)
  {
    ZoomStartStep(z - 1);
    if y + 1 < z {
      ZoomStartMonotone(y, z - 1);
    }
  }

  function TileId(z: nat, x: nat, y: nat): nat
    requires x < Pow2(z) && y < Pow2(z)
  {
    ZoomStartId(z) + Curve(z, x, y)
  }

  predicate IsTile(t: (nat, nat, nat)) {
    t.0 <= PM_MAX_ZOOM && t.1 < Pow2(t.0) && t.2 < Pow2(t.0)
  }

  predicate InZoom(id: nat, z: nat) {
    z <= PM_MAX_ZOOM && ZoomStartId(z) <= id < ZoomStartId(z + 1)
  }

  /** The tile whose id is `id`, found by its zoom's interval. */
  function TileAt(id: nat, z: nat): (t: (nat, nat, nat))
    requires InZoom(id, z)
    ensures IsTile(t)
  {
    ZoomStartStep(z);
    var p := Point(z, id - ZoomStartId(z));
    (z, p.0, p.1)
  }

  /** What `zxyToTileId` gives: the ids of zoom `z` are exactly its interval. */
  lemma TileIdInZoom(z: nat, x: nat, y: nat)
    requires x < Pow2(z) && y < Pow2(z)
    ensures ZoomStartId(z) <= TileId(z, x, y) < ZoomStartId(z + 1)
  {
    ZoomStartStep(z);
  }

  lemma CurveIsInjective(k: nat, x: nat, y: nat, x': nat, y': nat)
    requires x < Pow2(k) && y < Pow2(k) && x' < Pow2(k) && y' < Pow2(k)
    requires Curve(k, x, y) == Curve(k, x', y')
    ensures x == x' && y == y'
  {
    PointOfCurve(k, x, y);
    PointOfCurve(k, x', y');
  }

  lemma IdsOfZoomsAreApart(y: nat, i: nat, z: nat, j: nat)
    requires y < z && i < ZoomStartId(y + 1) && ZoomStartId(z) <= j
    ensures i < j
  {
    ZoomStartMonotone(y, z);
  }

  /** Two tiles, of the same zoom or not, have different ids. */
  lemma TileIdsAreDistinct(s: (nat, nat, nat), t: (nat, nat, nat))
    requires IsTile(s) && IsTile(t) && s != t
    ensures TileId(s.0, s.1, s.2) != TileId(t.0, t.1, t.2)
  {
    hide Curve, ZoomStartId, Pow2, Pow4;
    var i, j := TileId(s.0, s.1, s.2), TileId(t.0, t.1, t.2);
    TileIdInZoom(s.0, s.1, s.2);
    TileIdInZoom(t.0, t.1, t.2);
    if s.0 < t.0 {
      IdsOfZoomsAreApart(s.0, i, t.0, j);
    } else if t.0 < s.0 {
      IdsOfZoomsAreApart(t.0, j, s.0, i);
    } else if i == j {
      CurveIsInjective(s.0, s.1, s.2, t.1, t.2);
    }
  }

  lemma {:induction false} SquareOfPow2(k: nat)
    ensures Pow2(k) * Pow2(k) == Pow4(k)
  {
    if k > 0 {
      SquareOfPow2(k - 1);
      var h := Pow2(k - 1);
      assert (2 * h) * (2 * h) == 4 * (h * h);
    }
  }

  /** The bits of `t` at and below `s`, and what `n - 1 - t` does to those below. */
  lemma LowBits(n: nat, t: nat, s: nat)
    requires s > 0 && t < n && n % (2 * s) == 0
    ensures t % (2 * s) == if t / s % 2 == 1 then s + t % s else t % s
    ensures (n - 1 - t) % s == s - 1 - t % s
  {
    DigitOfMod(t, s, 2);
    var m, a := n / (2 * s), t / s;
    assert n - 1 - t == (2 * m - 1 - a) * s + (s - 1 - t % s);
    DivModUnique(n - 1 - t, 2 * m - 1 - a, s - 1 - t % s, s);
  }

  /** What the encoder has still to add once only the lowest `k` bits count. */
  function Rest(k: nat, tx: nat, ty: nat): nat {
    Curve(k, tx % Pow2(k), ty % Pow2(k))
  }

  predicate WholeSquares(n: nat, k: nat) {
    n % Pow2(k) == 0
  }

  lemma RestOfAll(z: nat, x: nat, y: nat)
    requires x < Pow2(z) && y < Pow2(z)
    ensures Rest(z, x, y) == Curve(z, x, y) && WholeSquares(Pow2(z), z)
    ensures forall tx, ty :: Rest(0, tx, ty) == 0
  {
    hide Curve;
    DivModUnique(x, 0, x, Pow2(z));
    DivModUnique(y, 0, y, Pow2(z));
    DivModUnique(Pow2(z), 1, 0, Pow2(z));
  }

  /** The full-width rotation agrees below `s` with the rotation narrowed to the quadrant. */
  lemma RotateLowBits(n: nat, s: nat, tx: nat, ty: nat)
    requires s > 0 && tx < n && ty < n && n % (2 * s) == 0
    ensures var rx, ry := tx / s % 2, ty / s % 2;
            var t, fx, fy := Rotate(n, tx, ty, rx, ry), tx % (2 * s), ty % (2 * s);
            && 0 <= t.0 < n && 0 <= t.1 < n
            && Quadrant(rx, ry) == QuadrantOf(s, fx, fy)
            && (t.0 % s, t.1 % s) == ToInner(s, fx, fy)
  {
    LowBits(n, tx, s);
    LowBits(n, ty, s);
  }

  lemma TimesOfSquare(k: nat, q: nat)
    requires q < 4
    ensures Pow2(k) * Pow2(k) * q == Times(q, Pow4(k))
  {
    SquareOfPow2(k);
  }

  /** The bit the encoder looks at with `k` bits still to walk, as `n >> 1` and `s >>= 1` give it. */
  function TopBit(k: nat): nat {
    if k == 0 then 0 else Pow2(k - 1)
  }

  lemma TopBitHalves(k: nat)
    ensures TopBit(k) == Pow2(k) / 2
    ensures if k > 0 then TopBit(k) > 0 && TopBit(k) / 2 == TopBit(k - 1) else TopBit(k) == 0
  {
  }

  /** `s * s * ((3 * rx) ^ ry)`: the points in the quadrants before the one at (rx, ry). */
  function PointsBefore(s: nat, rx: nat, ry: nat): nat
    requires rx < 2 && ry < 2
  {
    s * s * Quadrant(rx, ry)
  }

  lemma EncodeStep(n: nat, k: nat, tx: nat, ty: nat)
    requires k > 0 && tx < n && ty < n && WholeSquares(n, k) && FitsInt32(n) && FitsInt32(TopBit(k))
    ensures var s := TopBit(k);
            s > 0 &&
            var rx, ry := Bit(tx, s), Bit(ty, s);
            var t := Rotate(n, tx, ty, rx, ry);
            && 0 <= t.0 < n && 0 <= t.1 < n && WholeSquares(n, k - 1)
            && Rest(k, tx, ty) == PointsBefore(s, rx, ry) + Rest(k - 1, t.0, t.1)
  {
    hide Rotate, QuadrantOf, ToInner, Times, Quadrant;
    var s := Pow2(k - 1);
    RotateLowBits(n, s, tx, ty);
    DigitOfMod(n, s, 2);
    TimesOfSquare(k - 1, Quadrant(tx / s % 2, ty / s % 2));
  }

  /** The encoder's state with `k` bits still to walk. */
  predicate Encoding(z: nat, x: nat, y: nat, k: nat, tx: int, ty: int, d: int)
    requires x < Pow2(z) && y < Pow2(z)
  {
    && z <= PM_MAX_ZOOM && k <= z && d >= 0
    && 0 <= tx < Pow2(z) && 0 <= ty < Pow2(z) && WholeSquares(Pow2(z), k)
    && d + Rest(k, tx, ty) == Curve(z, x, y)
  }

  lemma EncodingStarts(z: nat, x: nat, y: nat)
    requires z <= PM_MAX_ZOOM && x < Pow2(z) && y < Pow2(z)
    ensures Encoding(z, x, y, z, x, y, 0)
  {
    hide Curve, WholeSquares, Rest;
    RestOfAll(z, x, y);
  }

  lemma EncodingIsNatural(z: nat, x: nat, y: nat, k: nat, tx: int, ty: int, d: int)
    requires x < Pow2(z) && y < Pow2(z) && Encoding(z, x, y, k, tx, ty, d)
    ensures d >= 0 && tx >= 0 && ty >= 0 && FitsInt32(tx) && FitsInt32(ty) && FitsInt32(TopBit(k))
    ensures k == 0 ==> d == Curve(z, x, y)
  {
    hide Curve, WholeSquares, Rest;
    Pow2Bound(z);
    Pow2Monotone(k, z);
    TopBitHalves(k);
    if k == 0 {
      RestOfAll(z, x, y);
    }
  }

  lemma EncodingSteps(z: nat, x: nat, y: nat, k: nat, tx: nat, ty: nat, d: nat)
    requires x < Pow2(z) && y < Pow2(z) && k > 0 && Encoding(z, x, y, k, tx, ty, d)
    requires FitsInt32(tx) && FitsInt32(ty) && FitsInt32(TopBit(k)) && TopBit(k) > 0
    ensures var rx, ry := Bit(tx, TopBit(k)), Bit(ty, TopBit(k));
            var t := Rotate(Pow2(z), tx, ty, rx, ry);
            Encoding(z, x, y, k - 1, t.0, t.1, d + PointsBefore(TopBit(k), rx, ry))
  {
    hide Curve, WholeSquares, Rest, Rotate, PointsBefore, Bit;
    Pow2Bound(z);
    EncodeStep(Pow2(z), k, tx, ty);
  }

  method ZxyToTileId(z: int, x: int, y: int) returns (r: Result<nat>)
    ensures r.Success? <==> 0 <= z <= PM_MAX_ZOOM && 0 <= x < Pow2(z) && 0 <= y < Pow2(z)
    ensures r.Success? ==> r.value == TileId(z, x, y)
  {
    hide Encoding, FitsInt32, Rotate, PointsBefore, Pow2, Pow4, Curve, TopBit, Bit, ZoomStartId;
    if z < 0 || z > PM_MAX_ZOOM {
      return Failure("zoom out of range");
    }
    var n := ShiftLeft(z);
    if x < 0 || y < 0 || x >= n || y >= n {
      return Failure("tile outside its zoom");
    }
    var d, tx, ty, s := 0, x, y, n / 2;
    ghost var k: nat := z;  // the bits still to walk
    EncodingStarts(z, x, y);
    TopBitHalves(z);
    while s > 0
      invariant s == TopBit(k) && Encoding(z, x, y, k, tx, ty, d)
      decreases k
    {
      TopBitHalves(k);
      EncodingIsNatural(z, x, y, k, tx, ty, d);
      EncodingSteps(z, x, y, k, tx, ty, d);
      var rx, ry := Bit(tx, s), Bit(ty, s);
      d := d + PointsBefore(s, rx, ry);
      var t := Rotate(n, tx, ty, rx, ry);
      tx, ty := t.0, t.1;
      s := s / 2;
      k := k - 1;
    }
    TopBitHalves(k);
    EncodingIsNatural(z, x, y, k, tx, ty, d);
    return Success(ZoomStartId(z) + d);
  }

  /** Where the decoder is after `i` levels of the distance `d`: the point of the lowest digits. */
  function Reached(i: nat, d: nat): (nat, nat) {
    Point(i, d % Pow4(i))
  }

  lemma ReachedEnds(z: nat, d: nat)
    requires d < Pow4(z)
    ensures Reached(0, d) == (0, 0) && Reached(z, d) == Point(z, d)
    ensures d / Pow4(0) == d
  {
    hide Point;
    DivModUnique(d, 0, d, Pow4(z));
    DivModUnique(d, d, 0, 1);
  }

  /** `s * b` for a bit `b`. */
  function Scaled(s: nat, b: nat): nat
    requires b < 2
  {
    s * b
  }

  /** The rotation in the width reached so far, then the move, is the step out of the quadrant. */
  lemma RotateThenMove(s: nat, t: nat, x: nat, y: nat)
    requires x < s && y < s && FitsInt32(t)
    ensures var rx := SecondBit(t);
            var ry := FirstBitXor(t, rx);
            var p := Rotate(s, x, y, rx, ry);
            FromInner(s, t % 4, (x, y)) == (p.0 + Scaled(s, rx), p.1 + Scaled(s, ry))
  {
    DigitOfMod(t, 2, 2);
  }

  /** The decoder's state after `i` levels of the distance `d`. */
  predicate Decoding(i: nat, d: nat, t: int, x: int, y: int) {
    t >= 0 && t == d / Pow4(i) && FitsInt32(t) && (x, y) == Reached(i, d)
  }

  lemma DecodeStep(i: nat, d: nat, t: nat, x: nat, y: nat)
    requires Decoding(i, d, t, x, y) && FitsInt32(t)
    ensures var rx := SecondBit(t);
            var ry := FirstBitXor(t, rx);
            var p := Rotate(Pow2(i), x, y, rx, ry);
            Decoding(i + 1, d, t / 4, p.0 + Scaled(Pow2(i), rx), p.1 + Scaled(Pow2(i), ry))
  {
    hide Point, Rotate, SecondBit, FirstBitXor, FromInner, Times, QuadrantAt, Scaled;
    DigitOfMod(d, Pow4(i), 4);
    RotateThenMove(Pow2(i), t, x, y);
    PointInQuadrant(i + 1, t % 4, d % Pow4(i));
    TimesOfDigit(d % (4 * Pow4(i)), Pow4(i));
  }

  lemma DecodingStarts(z: nat, d: nat)
    requires z <= PM_MAX_ZOOM && d < Pow4(z)
    ensures Decoding(0, d, d, 0, 0)
  {
    Pow4Bound(z);
    ReachedEnds(z, d);
  }

  lemma DecodingEnds(z: nat, d: nat, t: int, x: int, y: int)
    requires d < Pow4(z) && Decoding(z, d, t, x, y)
    ensures (x, y) == Point(z, d)
  {
    ReachedEnds(z, d);
  }

  lemma DecodingIsNatural(i: nat, d: nat, t: int, x: int, y: int)
    requires Decoding(i, d, t, x, y)
    ensures t >= 0 && x >= 0 && y >= 0 && FitsInt32(t)
  {
    hide Pow4, Reached;
  }

  lemma TimesOfDigit(a: nat, p: nat)
    requires p > 0 && a / p < 4
    ensures a == Times(a / p, p) + a % p
  {
  }

  lemma {:induction false} Pow4Monotone(j: nat, k: nat)
    requires j <= k
    ensures Pow4(j) <= Pow4(k)
  {
    if j < k {
      Pow4Monotone(j, k - 1);
    }
  }

  lemma Pow4Bound(z: nat)
    requires z <= PM_MAX_ZOOM
    ensures Pow4(z) <= 0x4000_0000
  {
    Pow4Monotone(z, 15);
    assert Pow4(4) == 256;
    assert Pow4(8) == 65536;
    assert Pow4(12) == 0x100_0000;
    assert Pow4(15) == 0x4000_0000;
  }

  /** Ids at or before zoom `z`'s last are before the end of the deepest zoom, and their distances fit the bit operators. */
  lemma ZoomBelowDeepest(z: nat)
    requires z <= PM_MAX_ZOOM
    ensures ZoomStartId(z + 1) <= ZoomStartId(PM_MAX_ZOOM + 1)
    ensures ZoomStartId(z + 1) == ZoomStartId(z) + Pow4(z) && FitsInt32(Pow4(z))
    ensures ZoomStartId(0) == 0 && ZoomStartId(1) == 1
  {
    ZoomStartMonotone(z, PM_MAX_ZOOM + 1);
    ZoomStartStep(z);
    Pow4Bound(z);
  }

  lemma Pow2Steps(i: nat, z: nat)
    requires i <= z
    ensures Pow2(0) == 1 && Pow2(i + 1) == 2 * Pow2(i) && (Pow2(i) < Pow2(z) <==> i < z)
  {
    if i < z {
      Pow2Monotone(i + 1, z);
    }
  }

  /** What the decoder answers for an id before the end of the deepest zoom; every negative id is tile 0/0/0. */
  predicate Decodes(id: int, t: (nat, nat, nat)) {
    if id < 0 then t == (0, 0, 0) else InZoom(id, t.0) && t == TileAt(id, t.0)
  }

  lemma DecodesAtEnd(id: int, z: nat, x: nat, y: nat, t: int)
    requires z <= PM_MAX_ZOOM && id < ZoomStartId(z + 1)
    requires if id < 0 then x == y == z == 0 else id >= ZoomStartId(z) && Decoding(z, id - ZoomStartId(z), t, x, y)
    ensures Decodes(id, (z, x, y))
  {
    hide ZoomStartId, Decoding, Point, Pow4;
    if id >= 0 {
      ZoomBelowDeepest(z);
      DecodingEnds(z, id - ZoomStartId(z), t, x, y);
    }
  }

  method TileIdToZxy(id: int) returns (r: Result<(nat, nat, nat)>)
    ensures r.Success? <==> id < ZoomStartId(PM_MAX_ZOOM + 1)
    ensures r.Success? ==> Decodes(id, r.value)
  {
    hide Decodes, Decoding, Rotate, Pow2, Pow4, SecondBit, FirstBitXor, ZoomStartId, Scaled, FitsInt32;
    var z := 0;
    ZoomBelowDeepest(0);
    while z <= PM_MAX_ZOOM && ZoomStartId(z + 1) <= id
      invariant z <= PM_MAX_ZOOM + 1
      invariant z > 0 ==> 0 < ZoomStartId(z) <= id
    {
      ZoomBelowDeepest(z);
      z := z + 1;
    }
    if z > PM_MAX_ZOOM {
      return Failure("tile id beyond the deepest zoom read here");
    }
    ZoomBelowDeepest(z);
    var n := ShiftLeft(z);
    var t, x, y, s := id - ZoomStartId(z), 0, 0, 1;
    ghost var i: nat, d := 0, t;
    Pow2Steps(0, z);
    if id >= 0 {
      DecodingStarts(z, d);
    }
    while s < n
      invariant i <= z && s == Pow2(i)
      invariant if id < 0 then x == y == i == 0 else Decoding(i, d, t, x, y)
      decreases z - i
    {
      Pow2Steps(i, z);
      DecodingIsNatural(i, d, t, x, y);
      DecodeStep(i, d, t, x, y);
      var rx := SecondBit(t);
      var ry := FirstBitXor(t, rx);
      var p := Rotate(s, x, y, rx, ry);
      x, y := p.0 + Scaled(s, rx), p.1 + Scaled(s, ry);
      t := t / 4;
      s := 2 * s;
      i := i + 1;
    }
    Pow2Steps(i, z);
    if id >= 0 {
      DecodingIsNatural(i, d, t, x, y);
    }
    DecodesAtEnd(id, z, x, y, t);
    return Success((z, x, y));
  }

  // ---- what ids promise ------------------------------------------------------------------------

  /** Decoding a tile's id gives the tile back, whatever zoom the decoder settles on. */
  lemma TileRoundTrip(t: (nat, nat, nat), z: nat)
    requires IsTile(t) && InZoom(TileId(t.0, t.1, t.2), z)
    ensures z == t.0 && TileAt(TileId(t.0, t.1, t.2), z) == t
  {
    hide Curve, Point, ZoomStartId;
    var id := TileId(t.0, t.1, t.2);
    TileIdInZoom(t.0, t.1, t.2);
    if t.0 < z {
      IdsOfZoomsAreApart(t.0, id, z, id);
    } else if z < t.0 {
      IdsOfZoomsAreApart(z, id, t.0, id);
    }
    PointOfCurve(t.0, t.1, t.2);
  }

  /** Every id before the end of the deepest zoom is in a zoom, and is the id of the tile it decodes to. */
  lemma IdRoundTrip(id: nat, z: nat)
    requires InZoom(id, z)
    ensures var t := TileAt(id, z); t.0 == z && TileId(t.0, t.1, t.2) == id
  {
    hide Curve, Point;
    ZoomStartStep(z);
    CurveOfPoint(z, id - ZoomStartId(z));
  }

  /** Consecutive ids of one zoom are tiles that share an edge. */
  lemma ConsecutiveIdsAreNeighbours(id: nat, z: nat)
    requires InZoom(id, z) && InZoom(id + 1, z)
    ensures var a, b := TileAt(id, z), TileAt(id + 1, z); EdgeAdjacent((a.1, a.2), (b.1, b.2))
  {
    hide Curve, Point, EdgeAdjacent;
    ZoomStartStep(z);
    CurveIsConnected(z, id - ZoomStartId(z));
  }
}
