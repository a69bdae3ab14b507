/**
 * Thinning a partition's rows by age (packages/history-store/src/retention.ts, `planThinning` and
 * `downsampleRows`): the first and last row of each object, the user's rows, and every so many-th by
 * an ordinal given once and carried from then on.
 */
module Retention {
  import opened Wrappers
  import opened Sorting

  /**
   * What thinning reads of a row. Rows of one object are ordered by time, then by `tie`, then as they
   * stand: `tie` is the rank of the observation id for rows held in memory, and the same for every row
   * of a file. The ordinal is negative when the row has none.
   */
  datatype Col<K> = Col(key: K, time: int, tie: int, ordinal: int, user: bool)

  /** A tier of downsampling: from an age on, one row in so many is kept. */
  datatype Tier = Tier(afterSeconds: int, keepEvery: real)

  function AtLeastOne(n: int): (m: int)
    ensures m >= 1 && m >= n && (m == 1 || m == n)
  {
    if n < 1 then 1 else n
  }

  function FactorOf(t: Tier): (f: int)
    ensures f >= 1
  {
    AtLeastOne(t.keepEvery.Floor)
  }

  // ---- what is kept ---------------------------------------------------------------------------------------

  predicate Earlier(t: int, e: int, i: nat, t': int, e': int, i': nat) {
    t' > t || (t' == t && (e' > e || (e' == e && i' > i)))
  }

  /** Row `a` comes before row `b` of the same object. */
  predicate Precedes<K(==)>(cols: seq<Col<K>>, a: nat, b: nat) {
    && a < |cols| && b < |cols| && cols[a].key == cols[b].key
    && Earlier(cols[a].time, cols[a].tie, a, cols[b].time, cols[b].tie, b)
  }

  ghost predicate IsFirst<K>(cols: seq<Col<K>>, i: nat) {
    forall a :: 0 <= a < |cols| ==> !Precedes(cols, a, i)
  }

  ghost predicate IsLast<K>(cols: seq<Col<K>>, i: nat) {
    forall b :: 0 <= b < |cols| ==> !Precedes(cols, i, b)
  }

  /** One more than the highest ordinal an object's rows have. */
  function NextAfter<K(==)>(cols: seq<Col<K>>, key: K): (n: int)
    ensures n >= 0
  {
    if cols == [] then 0 else
      var n, c := NextAfter(cols[..|cols| - 1], key), cols[|cols| - 1];
      if c.key == key && c.ordinal >= n then c.ordinal + 1 else n
  }

  /** The rows of its object before row `i` that have no ordinal yet. */
  ghost function Waiting<K>(cols: seq<Col<K>>, i: nat): set<nat> {
    set a: nat | a < |cols| && cols[a].ordinal < 0 && Precedes(cols, a, i)
  }

  /** A row keeps the ordinal it has; the others of its object follow the highest, in order. */
  ghost function Ordinal<K>(cols: seq<Col<K>>, i: nat): int
    requires i < |cols|
  {
    if cols[i].ordinal >= 0 then cols[i].ordinal else NextAfter(cols, cols[i].key) + |Waiting(cols, i)|
  }

  predicate Thins(tiers: seq<Tier>, tier: int) {
    tier > 0 && tiers != []
  }

  /** The tier whose factor applies, with those of the coarser ones. */
  function TierIndex(tiers: seq<Tier>, tier: int): (i: nat)
    requires Thins(tiers, tier)
    ensures i < |tiers|
  {
    if tier < |tiers| then tier - 1 else |tiers| - 1
  }

  predicate OnTheGrid(tiers: seq<Tier>, tier: int, ordinal: int)
    requires Thins(tiers, tier)
  {
    exists i :: TierIndex(tiers, tier) <= i < |tiers| && ordinal % FactorOf(tiers[i]) == 0
  }

  ghost function NewOrdinal<K>(cols: seq<Col<K>>, tiers: seq<Tier>, tier: int, i: nat): int
    requires i < |cols|
  {
    if Thins(tiers, tier) then Ordinal(cols, i) else cols[i].ordinal
  }

  ghost predicate Kept<K>(cols: seq<Col<K>>, tiers: seq<Tier>, tier: int, i: nat)
    requires i < |cols|
  {
    Thins(tiers, tier) ==>
      IsFirst(cols, i) || IsLast(cols, i) || cols[i].user || OnTheGrid(tiers, tier, Ordinal(cols, i))
  }

  ghost function KeepSet<K>(cols: seq<Col<K>>, tiers: seq<Tier>, tier: int): set<nat> {
    set i: nat | i < |cols| && Kept(cols, tiers, tier, i)
  }

  // ---- lists of indices ---------------------------------------------------------------------------------------

  /** The indices below `n` that are in `keep`, in order. */
  ghost function Idx(n: nat, keep: set<nat>): seq<nat> {
    if n == 0 then [] else Idx(n - 1, keep) + if n - 1 in keep then [n - 1] else []
  }

  ghost predicate Increasing(idx: seq<nat>) {
    forall a, b :: 0 <= a < b < |idx| ==> idx[a] < idx[b]
  }

  lemma {:induction false} IdxIs(n: nat, keep: set<nat>)
    ensures Increasing(Idx(n, keep))
    ensures forall i: nat :: i in Idx(n, keep) <==> i < n && i in keep
  {
    if n > 0 {
      IdxIs(n - 1, keep);
      var before := Idx(n - 1, keep);
      forall a | 0 <= a < |before| ensures before[a] < n - 1 { assert before[a] in before; }
    }
  }

  ghost function Pick<T>(s: seq<T>, idx: seq<nat>): (r: seq<T>)
    requires forall k :: 0 <= k < |idx| ==> idx[k] < |s|
    ensures |r| == |idx| && forall k :: 0 <= k < |idx| ==> r[k] == s[idx[k]]
  {
    seq(|idx|, k requires 0 <= k < |idx| => s[idx[k]])
  }

  lemma IdxMore(n: nat, keep: set<nat>)
    ensures Idx(n + 1, keep) == if n in keep then Idx(n, keep) + [n] else Idx(n, keep)
  {
  }

  lemma IdxOfNone(keep: set<nat>)
    ensures Idx(0, keep) == []
  {
  }

  lemma PickPrefix<T>(s: seq<T>, t: seq<T>, idx: seq<nat>)
    requires s <= t && forall k :: 0 <= k < |idx| ==> idx[k] < |s|
    ensures Pick(t, idx) == Pick(s, idx)
  {
  }

  lemma PickMore<T>(s: seq<T>, idx: seq<nat>, k: nat)
    requires k < |s| && forall k :: 0 <= k < |idx| ==> idx[k] < |s|
    ensures Pick(s, idx + [k]) == Pick(s, idx) + [s[k]]
  {
  }

  lemma PickOneMore(before: seq<nat>, last: nat, chosen: seq<nat>, again: set<nat>, more: bool)
    requires chosen == Idx(|before|, again) && more == (|before| in again)
    requires forall k :: 0 <= k < |chosen| ==> chosen[k] < |before|
    ensures var idx, picked := before + [last], Idx(|before| + 1, again);
            && (forall k :: 0 <= k < |picked| ==> picked[k] < |idx|)
            && Pick(idx, picked) == Pick(before, chosen) + if more then [last] else []
  {
    hide Idx, Pick;
    IdxMore(|before|, again);
    var idx := before + [last];
    PickPrefix(before, idx, chosen);
    if more { PickMore(idx, chosen, |before|); }
  }

  /** Keeping some, and some of those, is keeping those. */
  lemma {:induction false} PickOfPick(n: nat, k1: set<nat>, k2: set<nat>, again: set<nat>)
    requires k2 <= k1
    requires forall a: nat :: a < |Idx(n, k1)| ==> (a in again <==> Idx(n, k1)[a] in k2)
    ensures forall k :: 0 <= k < |Idx(|Idx(n, k1)|, again)| ==> Idx(|Idx(n, k1)|, again)[k] < |Idx(n, k1)|
    ensures Pick(Idx(n, k1), Idx(|Idx(n, k1)|, again)) == Idx(n, k2)
  {
    hide Idx, Pick;
    IdxBelow(|Idx(n, k1)|, again);
    if n == 0 {
      IdxOfNone(k1);
      IdxOfNone(k2);
      IdxOfNone(again);
    } else {
      IdxMore(n - 1, k1);
      IdxMore(n - 1, k2);
      var idx, before := Idx(n, k1), Idx(n - 1, k1);
      forall a: nat | a < |before| ensures a in again <==> before[a] in k2 { assert idx[a] == before[a]; }
      PickOfPick(n - 1, k1, k2, again);
      if n - 1 in k1 {
        PickOneMore(before, n - 1, Idx(|before|, again), again, n - 1 in k2);
      }
    }
  }

  // ---- composing two thinnings -----------------------------------------------------------------------------------

  /** The rows of its object before row `i`. */
  ghost function Before<K>(cols: seq<Col<K>>, i: nat): set<nat> {
    set a: nat | a < |cols| && Precedes(cols, a, i)
  }

  ghost function After<K>(cols: seq<Col<K>>, i: nat): set<nat> {
    set b: nat | b < |cols| && Precedes(cols, i, b)
  }

  lemma Fewer(a: set<nat>, b: set<nat>, x: nat)
    requires a <= b && x in b && x !in a
    ensures |a| < |b|
  {
    assert a <= b - {x};
    FewerOrSame(a, b - {x});
  }

  lemma {:induction false} FewerOrSame(a: set<nat>, b: set<nat>)
    requires a <= b
    ensures |a| <= |b|
  {
    if a != {} {
      var x :| x in a;
      FewerOrSame(a - {x}, b - {x});
    }
  }

  /** Each object has a first row. */
  lemma {:induction false} FirstBefore<K>(cols: seq<Col<K>>, i: nat) returns (f: nat)
    requires i < |cols|
    ensures f < |cols| && IsFirst(cols, f) && (f == i || Precedes(cols, f, i))
    decreases |Before(cols, i)|
  {
    if IsFirst(cols, i) {
      return i;
    }
    var a: nat :| a < |cols| && Precedes(cols, a, i);
    Fewer(Before(cols, a), Before(cols, i), a);
    f := FirstBefore(cols, a);
  }

  lemma {:induction false} LastAfter<K>(cols: seq<Col<K>>, i: nat) returns (f: nat)
    requires i < |cols|
    ensures f < |cols| && IsLast(cols, f) && (f == i || Precedes(cols, i, f))
    decreases |After(cols, i)|
  {
    if IsLast(cols, i) {
      return i;
    }
    var b: nat :| b < |cols| && Precedes(cols, i, b);
    Fewer(After(cols, b), After(cols, i), b);
    f := LastAfter(cols, b);
  }

  /** `left` are the rows at `idx`, in order, with ordinals; the first and last of each object are among them. */
  ghost predicate Remains<K>(cols: seq<Col<K>>, idx: seq<nat>, left: seq<Col<K>>) {
    && Increasing(idx) && |left| == |idx|
    && (forall k :: 0 <= k < |idx| ==> idx[k] < |cols|)
    && (forall k :: 0 <= k < |idx| ==> left[k] == cols[idx[k]].(ordinal := Ordinal(cols, idx[k])))
  }

  ghost predicate EndsRemain<K>(cols: seq<Col<K>>, idx: seq<nat>) {
    forall i: nat :: i < |cols| && (IsFirst(cols, i) || IsLast(cols, i)) ==> i in idx
  }

  lemma RemainsPrecedes<K>(cols: seq<Col<K>>, idx: seq<nat>, left: seq<Col<K>>, a: nat, b: nat)
    requires Remains(cols, idx, left) && a < |idx| && b < |idx|
    ensures Precedes(left, a, b) <==> Precedes(cols, idx[a], idx[b])
  {
    hide Ordinal;
  }

  lemma RemainsFirst<K>(cols: seq<Col<K>>, idx: seq<nat>, left: seq<Col<K>>, a: nat)
    requires Remains(cols, idx, left) && EndsRemain(cols, idx) && a < |idx|
    ensures IsFirst(left, a) <==> IsFirst(cols, idx[a])
    ensures IsLast(left, a) <==> IsLast(cols, idx[a])
  {
    forall b: nat | b < |idx|
      ensures Precedes(left, a, b) <==> Precedes(cols, idx[a], idx[b])
      ensures Precedes(left, b, a) <==> Precedes(cols, idx[b], idx[a])
    {
      RemainsPrecedes(cols, idx, left, a, b);
      RemainsPrecedes(cols, idx, left, b, a);
    }
    hide Precedes;
    var f := FirstBefore(cols, idx[a]);
    var k :| 0 <= k < |idx| && idx[k] == f;
    var l := LastAfter(cols, idx[a]);
    var m :| 0 <= m < |idx| && idx[m] == l;
  }

  /** The coarser tiers' factors are among the finer one's. */
  lemma CoarserKeepsLess<K>(cols: seq<Col<K>>, tiers: seq<Tier>, t1: int, t2: int, i: nat)
    requires i < |cols| && t1 <= t2 && Kept(cols, tiers, t2, i)
    ensures Kept(cols, tiers, t1, i)
  {
  }

  /** A history row: what thinning reads of it, its time as text, the hash of its raw payload if kept, and the rest. */
  datatype Row = Row(col: Col<string>, observedAt: string, rawPayloadHash: Option<string>, text: string)

  function Renumber(row: Row, ordinal: int): Row {
    row.(col := row.col.(ordinal := ordinal))
  }

  function Cols(rows: seq<Row>): (r: seq<Col<string>>)
    ensures |r| == |rows| && forall i :: 0 <= i < |rows| ==> r[i] == rows[i].col
  {
    seq(|rows|, i requires 0 <= i < |rows| => rows[i].col)
  }

  /** The rows kept, in their order, with their ordinals. */
  ghost function Thinned(rows: seq<Row>, tiers: seq<Tier>, tier: int): (r: seq<Row>)
    ensures var idx := Idx(|rows|, KeepSet(Cols(rows), tiers, tier));
            && |r| == |idx|
            && forall k :: 0 <= k < |idx| ==> idx[k] < |rows| && r[k] == Renumber(rows[idx[k]], NewOrdinal(Cols(rows), tiers, tier, idx[k]))
  {
    var keep := KeepSet(Cols(rows), tiers, tier);
    var idx := Idx(|rows|, keep);
    assert forall k :: 0 <= k < |idx| ==> idx[k] < |rows| by { IdxBelow(|rows|, keep); }
    seq(|idx|, k requires 0 <= k < |idx| => Renumber(rows[idx[k]], NewOrdinal(Cols(rows), tiers, tier, idx[k])))
  }

  lemma IdxBelow(n: nat, keep: set<nat>)
    ensures forall k :: 0 <= k < |Idx(n, keep)| ==> Idx(n, keep)[k] < n && Idx(n, keep)[k] in keep
  {
    IdxIs(n, keep);
    forall k | 0 <= k < |Idx(n, keep)| ensures Idx(n, keep)[k] < n && Idx(n, keep)[k] in keep {
      assert Idx(n, keep)[k] in Idx(n, keep);
    }
  }

  lemma {:induction false} IdxOfAll(n: nat, keep: set<nat>)
    requires forall i: nat :: i < n ==> i in keep
    ensures |Idx(n, keep)| == n && forall i :: 0 <= i < n ==> Idx(n, keep)[i] == i
  {
    if n > 0 { IdxOfAll(n - 1, keep); }
  }

  /** Without a tier to thin to, the rows stay as they are. */
  lemma NothingThinned(rows: seq<Row>, tiers: seq<Tier>, tier: int)
    requires !Thins(tiers, tier)
    ensures Thinned(rows, tiers, tier) == rows
  {
    IdxOfAll(|rows|, KeepSet(Cols(rows), tiers, tier));
  }

  lemma OrdinalIsNat<K>(cols: seq<Col<K>>, i: nat)
    requires i < |cols|
    ensures Ordinal(cols, i) >= 0
  {
  }

  lemma ThinnedRemains(rows: seq<Row>, tiers: seq<Tier>, tier: int)
    requires Thins(tiers, tier)
    ensures var idx := Idx(|rows|, KeepSet(Cols(rows), tiers, tier));
            Remains(Cols(rows), idx, Cols(Thinned(rows, tiers, tier))) && EndsRemain(Cols(rows), idx)
  {
    hide OnTheGrid, IsFirst, IsLast, Ordinal, Idx, KeepSet, Thinned;
    var cols, keep := Cols(rows), KeepSet(Cols(rows), tiers, tier);
    IdxIs(|rows|, keep);
    IdxBelow(|rows|, keep);
    forall i: nat | i < |cols| && (IsFirst(cols, i) || IsLast(cols, i))
      ensures i in Idx(|rows|, keep)
    {
      InKeepSet(cols, tiers, tier, i);
    }
  }

  /** A row left by a thinning is kept by a further one exactly when it would have been at once, with the same ordinal. */
  lemma RemainsKept<K>(cols: seq<Col<K>>, idx: seq<nat>, left: seq<Col<K>>, tiers: seq<Tier>, tier: int, a: nat)
    requires Remains(cols, idx, left) && EndsRemain(cols, idx) && a < |idx| && Thins(tiers, tier)
    ensures Kept(left, tiers, tier, a) <==> Kept(cols, tiers, tier, idx[a])
    ensures NewOrdinal(left, tiers, tier, a) == left[a].ordinal == Ordinal(cols, idx[a])
  {
    RemainsFirst(cols, idx, left, a);
    OrdinalIsNat(cols, idx[a]);
    assert left[a] == cols[idx[a]].(ordinal := Ordinal(cols, idx[a]));
    hide OnTheGrid, IsFirst, IsLast, Increasing, EndsRemain;
  }

  /** Thinning to a tier and later to a coarser one leaves the rows and ordinals of thinning to that one at once. */
  lemma ThinTwice(rows: seq<Row>, tiers: seq<Tier>, t1: int, t2: int)
    requires t1 <= t2
    ensures Thinned(Thinned(rows, tiers, t1), tiers, t2) == Thinned(rows, tiers, t2)
  {
    if !Thins(tiers, t1) {
      NothingThinned(rows, tiers, t1);
    } else {
      hide Remains, EndsRemain, Idx, KeepSet, Kept, NewOrdinal;
      var once := Thinned(rows, tiers, t1);
      var cols, left := Cols(rows), Cols(once);
      var k1, k2, again := KeepSet(cols, tiers, t1), KeepSet(cols, tiers, t2), KeepSet(left, tiers, t2);
      var idx := Idx(|rows|, k1);
      ThinnedRemains(rows, tiers, t1);
      IdxBelow(|rows|, k1);
      forall a: nat | a < |idx|
        ensures a in again <==> idx[a] in k2
      {
        RemainsKept(cols, idx, left, tiers, t2, a);
        InKeepSet(left, tiers, t2, a);
        InKeepSet(cols, tiers, t2, idx[a]);
      }
      KeepSetShrinks(cols, tiers, t1, t2);
      PickOfPick(|rows|, k1, k2, again);
      ThinnedAgain(rows, once, idx, tiers, t2);
    }
  }

  lemma InKeepSet<K>(cols: seq<Col<K>>, tiers: seq<Tier>, tier: int, i: nat)
    requires i < |cols|
    ensures i in KeepSet(cols, tiers, tier) <==> Kept(cols, tiers, tier, i)
  {
  }

  lemma KeepSetShrinks<K>(cols: seq<Col<K>>, tiers: seq<Tier>, t1: int, t2: int)
    requires t1 <= t2
    ensures KeepSet(cols, tiers, t2) <= KeepSet(cols, tiers, t1)
  {
    hide Kept;
    forall i: nat | i < |cols| && Kept(cols, tiers, t2, i)
      ensures Kept(cols, tiers, t1, i)
    {
      CoarserKeepsLess(cols, tiers, t1, t2, i);
    }
  }

  lemma ThinnedAgain(rows: seq<Row>, once: seq<Row>, idx: seq<nat>, tiers: seq<Tier>, t2: int)
    requires Thins(tiers, t2) && Remains(Cols(rows), idx, Cols(once)) && EndsRemain(Cols(rows), idx)
    requires |once| == |idx| && forall k :: 0 <= k < |idx| ==> once[k] == Renumber(rows[idx[k]], Ordinal(Cols(rows), idx[k]))
    requires (forall k :: 0 <= k < |Idx(|idx|, KeepSet(Cols(once), tiers, t2))| ==> Idx(|idx|, KeepSet(Cols(once), tiers, t2))[k] < |idx|)
    requires Pick(idx, Idx(|idx|, KeepSet(Cols(once), tiers, t2))) == Idx(|rows|, KeepSet(Cols(rows), tiers, t2))
    ensures Thinned(once, tiers, t2) == Thinned(rows, tiers, t2)
  {
    hide Remains, EndsRemain, Idx, KeepSet, Kept, Ordinal, Thinned;
    var again := Idx(|idx|, KeepSet(Cols(once), tiers, t2));
    var direct := Idx(|rows|, KeepSet(Cols(rows), tiers, t2));
    var r, s := Thinned(once, tiers, t2), Thinned(rows, tiers, t2);
    assert |r| == |again| == |direct| == |s|;
    forall k | 0 <= k < |r|
      ensures r[k] == s[k]
    {
      RemainsKept(Cols(rows), idx, Cols(once), tiers, t2, again[k]);
      assert direct[k] == idx[again[k]];
    }
  }

  lemma SomeAreAlwaysKept<K>(cols: seq<Col<K>>, tiers: seq<Tier>, tier: int, i: nat)
    requires i < |cols| && (cols[i].user || IsFirst(cols, i) || IsLast(cols, i))
    ensures i in KeepSet(cols, tiers, tier)
  {
  }

  /** The user's rows, and the first and last of each object, are left by every thinning, with their ordinals. */
  lemma SomeAlwaysSurvive(rows: seq<Row>, tiers: seq<Tier>, tier: int, i: nat)
    requires i < |rows| && (rows[i].col.user || IsFirst(Cols(rows), i) || IsLast(Cols(rows), i))
    ensures Renumber(rows[i], NewOrdinal(Cols(rows), tiers, tier, i)) in Thinned(rows, tiers, tier)
  {
    hide Idx, KeepSet, NewOrdinal, Thinned, IsFirst, IsLast;
    var keep := KeepSet(Cols(rows), tiers, tier);
    SomeAreAlwaysKept(Cols(rows), tiers, tier, i);
    IdxIs(|rows|, keep);
    var idx := Idx(|rows|, keep);
    var k :| 0 <= k < |idx| && idx[k] == i;
    assert Thinned(rows, tiers, tier)[k] == Renumber(rows[i], NewOrdinal(Cols(rows), tiers, tier, i));
  }

  lemma {:induction false} NextIsAfter<K>(cols: seq<Col<K>>, i: nat)
    requires i < |cols|
    ensures cols[i].ordinal < NextAfter(cols, cols[i].key)
  {
    if i < |cols| - 1 {
      NextIsAfter(cols[..|cols| - 1], i);
    }
  }

  /** Ordinals given earlier are distinct within each object. */
  ghost predicate OrdinalsDistinct<K>(cols: seq<Col<K>>) {
    forall i, j :: 0 <= i < j < |cols| && cols[i].key == cols[j].key && cols[i].ordinal >= 0 ==> cols[i].ordinal != cols[j].ordinal
  }

  /** No two rows of an object get the same ordinal, and those newly numbered are numbered in order. */
  lemma OrdinalsStayDistinct<K>(cols: seq<Col<K>>, i: nat, j: nat)
    requires OrdinalsDistinct(cols) && i < |cols| && j < |cols| && i != j && cols[i].key == cols[j].key
    ensures Ordinal(cols, i) != Ordinal(cols, j)
    ensures cols[i].ordinal < 0 && cols[j].ordinal < 0 ==> (Precedes(cols, i, j) <==> Ordinal(cols, i) < Ordinal(cols, j))
  {
    NextIsAfter(cols, i);
    NextIsAfter(cols, j);
    assert Precedes(cols, i, j) || Precedes(cols, j, i);
    if cols[i].ordinal < 0 && cols[j].ordinal < 0 {
      if Precedes(cols, i, j) {
        Fewer(Waiting(cols, i), Waiting(cols, j), i);
      } else {
        Fewer(Waiting(cols, j), Waiting(cols, i), j);
      }
    }
  }

  /**
   * The rows kept, in plain terms: without a tier all; else the user's, the first and the last of each
   * object, and those whose ordinal is divisible by what the tier, the last one for a tier past the
   * end, or a later one keeps every so many-th of.
   */
  lemma KeptInPlainTerms<K>(cols: seq<Col<K>>, tiers: seq<Tier>, tier: int, i: nat)
    requires i < |cols|
    ensures tier < 1 || tiers == [] ==> i in KeepSet(cols, tiers, tier)
    ensures tier >= 1 && tiers != [] ==>
              (i in KeepSet(cols, tiers, tier) <==>
                 || cols[i].user
                 || IsFirst(cols, i)
                 || IsLast(cols, i)
                 || (exists t :: 0 <= t < |tiers|
                                 && t + 1 >= (if tier < |tiers| then tier else |tiers|) && Ordinal(cols, i) % AtLeastOne(tiers[t].keepEvery.Floor) == 0))
  {
    hide IsFirst, IsLast, Ordinal;
    InKeepSet(cols, tiers, tier, i);
    if Thins(tiers, tier) {
      var n := Ordinal(cols, i);
      forall t | 0 <= t < |tiers|
        ensures n % FactorOf(tiers[t]) == n % AtLeastOne(tiers[t].keepEvery.Floor)
      {
      }
    }
  }

  /** A first row has none of its object before it: none earlier, nor at its time with a smaller tie-break, nor then above it. */
  lemma FirstInPlainTerms<K>(cols: seq<Col<K>>, i: nat)
    requires i < |cols|
    ensures IsFirst(cols, i) <==>
              forall a :: 0 <= a < |cols| && cols[a].key == cols[i].key && a != i ==>
                || cols[i].time < cols[a].time
                || (cols[i].time == cols[a].time && cols[i].tie < cols[a].tie)
                || (cols[i].time == cols[a].time && cols[i].tie == cols[a].tie && i < a)
    ensures IsLast(cols, i) <==>
              forall a :: 0 <= a < |cols| && cols[a].key == cols[i].key && a != i ==>
                || cols[a].time < cols[i].time
                || (cols[a].time == cols[i].time && cols[a].tie < cols[i].tie)
                || (cols[a].time == cols[i].time && cols[a].tie == cols[i].tie && a < i)
  {
    assert IsFirst(cols, i) <==> forall a :: 0 <= a < |cols| && cols[a].key == cols[i].key ==>
      !Earlier(cols[a].time, cols[a].tie, a, cols[i].time, cols[i].tie, i) by { FirstIs(cols, i); }
    assert IsLast(cols, i) <==> forall a :: 0 <= a < |cols| && cols[a].key == cols[i].key ==>
      !Earlier(cols[i].time, cols[i].tie, i, cols[a].time, cols[a].tie, a) by { FirstIs(cols, i); }
  }

  lemma FirstIs<K>(cols: seq<Col<K>>, i: nat)
    requires i < |cols|
    ensures IsFirst(cols, i) <==> forall a :: 0 <= a < |cols| && cols[a].key == cols[i].key ==>
              !Earlier(cols[a].time, cols[a].tie, a, cols[i].time, cols[i].tie, i)
    ensures IsLast(cols, i) <==> forall a :: 0 <= a < |cols| && cols[a].key == cols[i].key ==>
              !Earlier(cols[i].time, cols[i].tie, i, cols[a].time, cols[a].tie, a)
  {
    hide Earlier;
    forall a | 0 <= a < |cols| && cols[a].key == cols[i].key
      ensures Precedes(cols, a, i) == Earlier(cols[a].time, cols[a].tie, a, cols[i].time, cols[i].tie, i)
      ensures Precedes(cols, i, a) == Earlier(cols[i].time, cols[i].tie, i, cols[a].time, cols[a].tie, a)
    {
    }
  }

  lemma {:induction false} NextIsReached<K>(cols: seq<Col<K>>, key: K)
    ensures NextAfter(cols, key) > 0 ==> exists a :: 0 <= a < |cols| && cols[a].key == key && cols[a].ordinal == NextAfter(cols, key) - 1
  {
    if cols != [] { NextIsReached(cols[..|cols| - 1], key); }
  }

  /** The last of the rows that wait before a row. */
  lemma {:induction false} LastWaiting<K>(cols: seq<Col<K>>, i: nat, j: nat) returns (l: nat)
    requires i < |cols| && j in Waiting(cols, i)
    ensures l in Waiting(cols, i) && Waiting(cols, i) == Waiting(cols, l) + {l}
    decreases |Waiting(cols, i) - Waiting(cols, j)|
  {
    if k :| k in Waiting(cols, i) && Precedes(cols, j, k) {
      assert j in Waiting(cols, k) && Waiting(cols, j) <= Waiting(cols, k);
      Fewer(Waiting(cols, i) - Waiting(cols, k), Waiting(cols, i) - Waiting(cols, j), j);
      l := LastWaiting(cols, i, k);
    } else {
      l := j;
      forall k | k in Waiting(cols, i) && k != j ensures k in Waiting(cols, j) {
        assert Precedes(cols, k, j) || Precedes(cols, j, k);
      }
    }
  }

  /**
   * Ordinals in plain terms: a row keeps the one it has; of two newly numbered the earlier gets the
   * smaller; a new one is above every one given before, and the one below it, if any, is also its
   * object's.
   */
  lemma OrdinalsInPlainTerms<K>(cols: seq<Col<K>>, i: nat)
    requires i < |cols|
    ensures cols[i].ordinal >= 0 ==> Ordinal(cols, i) == cols[i].ordinal
    ensures cols[i].ordinal < 0 ==>
              && (forall a :: 0 <= a < |cols| && cols[a].key == cols[i].key ==> cols[a].ordinal < Ordinal(cols, i))
              && (forall a :: 0 <= a < |cols| && cols[a].key == cols[i].key && cols[a].ordinal < 0 && cols[a].time < cols[i].time
                              ==> Ordinal(cols, a) < Ordinal(cols, i))
              && (Ordinal(cols, i) > 0 ==>
                    exists a :: 0 <= a < |cols| && cols[a].key == cols[i].key && Ordinal(cols, a) == Ordinal(cols, i) - 1)
  {
    if cols[i].ordinal < 0 {
      hide NextAfter;
      forall a | 0 <= a < |cols| && cols[a].key == cols[i].key ensures cols[a].ordinal < Ordinal(cols, i) {
        NextIsAfter(cols, a);
      }
      forall a | 0 <= a < |cols| && cols[a].key == cols[i].key && cols[a].ordinal < 0 && cols[a].time < cols[i].time
        ensures Ordinal(cols, a) < Ordinal(cols, i)
      {
        Fewer(Waiting(cols, a), Waiting(cols, i), a);
      }
      if j :| j in Waiting(cols, i) {
        var l := LastWaiting(cols, i, j);
        assert l !in Waiting(cols, l);
        assert |Waiting(cols, i)| == |Waiting(cols, l)| + 1;
        assert Ordinal(cols, l) == Ordinal(cols, i) - 1;
      } else {
        assert Waiting(cols, i) == {};
        NextIsReached(cols, cols[i].key);
      }
    }
  }

  // ---- tiers by age ------------------------------------------------------------------------------------------

  /** `t` is the last of the tiers whose age has come, counted from one; none is tier 0. */
  ghost predicate IsTierFor(tiers: seq<Tier>, age: int, t: nat) {
    && t <= |tiers|
    && (t > 0 ==> tiers[t - 1].afterSeconds <= age)
    && forall i :: t <= i < |tiers| ==> age < tiers[i].afterSeconds
  }

  /** `tierForAge`. */
  method TierForAge(tiers: seq<Tier>, age: int) returns (t: nat)
    ensures IsTierFor(tiers, age, t)
  {
    t := 0;
    for i := 0 to |tiers|
      invariant t <= i && (t > 0 ==> tiers[t - 1].afterSeconds <= age)
      invariant forall j :: t <= j < i ==> age < tiers[j].afterSeconds
    {
      if age >= tiers[i].afterSeconds {
        t := i + 1;
      }
    }
  }

  /** Rows thinned as they age are the rows thinned at their last age. */
  lemma ThinAsItAges(rows: seq<Row>, tiers: seq<Tier>, age1: int, age2: int, t1: nat, t2: nat)
    requires age1 <= age2 && IsTierFor(tiers, age1, t1) && IsTierFor(tiers, age2, t2)
    ensures Thinned(Thinned(rows, tiers, t1), tiers, t2) == Thinned(rows, tiers, t2)
  {
    assert t1 <= t2;
    ThinTwice(rows, tiers, t1, t2);
  }

  // ---- the plan ----------------------------------------------------------------------------------------------

  function TimeOf<K>(cols: seq<Col<K>>, a: nat): int {
    if a < |cols| then cols[a].time else 0
  }

  function TieOf<K>(cols: seq<Col<K>>, a: nat): int {
    if a < |cols| then cols[a].tie else 0
  }

  /** The order of two rows of an object. */
  function InOrderOf<K>(cols: seq<Col<K>>): (nat, nat) -> bool {
    (a: nat, b: nat) => a == b || Earlier(TimeOf(cols, a), TieOf(cols, a), a, TimeOf(cols, b), TieOf(cols, b), b)
  }

  lemma OrderIsTotal<K>(cols: seq<Col<K>>)
    ensures TotalOrder(InOrderOf(cols))
  {
  }

  /** The rows of an object, as they stand. */
  function IndicesOf<K(==)>(cols: seq<Col<K>>, key: K): seq<nat> {
    if cols == [] then [] else
      IndicesOf(cols[..|cols| - 1], key) + if cols[|cols| - 1].key == key then [|cols| - 1] else []
  }

  lemma {:induction false} IndicesAre<K>(cols: seq<Col<K>>, key: K)
    ensures forall i: nat :: i in IndicesOf(cols, key) <==> i < |cols| && cols[i].key == key
    ensures Increasing(IndicesOf(cols, key)) && NoDuplicates(IndicesOf(cols, key))
  {
    if cols != [] {
      var before := IndicesOf(cols[..|cols| - 1], key);
      IndicesAre(cols[..|cols| - 1], key);
      forall k | 0 <= k < |before| ensures before[k] < |cols| - 1 { assert before[k] in before; }
    }
  }

  /** An object's rows in their order: all of them, each once. */
  ghost predicate Listed<K>(cols: seq<Col<K>>, key: K, list: seq<nat>) {
    && (forall i: nat :: i in list <==> i < |cols| && cols[i].key == key)
    && (forall p :: 0 <= p < |list| ==> list[p] < |cols| && cols[list[p]].key == key)
    && (forall p, q :: 0 <= p < q < |list| ==> Precedes(cols, list[p], list[q]))
  }

  lemma SortLists<K>(cols: seq<Col<K>>, key: K)
    ensures Listed(cols, key, Sort(IndicesOf(cols, key), InOrderOf(cols)))
  {
    hide NoDuplicates, Increasing, IndicesOf, Sort, TotalOrder;
    var le, at := InOrderOf(cols), IndicesOf(cols, key);
    var list := Sort(at, le);
    OrderIsTotal(cols);
    IndicesAre(cols, key);
    SortSorts<nat>(at, le);
    SortKeepsDistinct<nat>(at, le);
    forall i: nat ensures i in list <==> i < |cols| && cols[i].key == key { SortMembers<nat>(at, le, i); }
    forall p | 0 <= p < |list| ensures list[p] < |cols| && cols[list[p]].key == key { assert list[p] in list; }
    forall p, q | 0 <= p < q < |list| ensures Precedes(cols, list[p], list[q]) {
      assert le(list[p], list[q]);
      DistinctAt(list, p, q);
    }
  }

  lemma DistinctAt(s: seq<nat>, p: nat, q: nat)
    requires NoDuplicates(s) && p < q < |s|
    ensures s[p] != s[q]
  {
  }

  /** How many of the first `p` rows of a list have no ordinal yet. */
  function Unnumbered<K>(cols: seq<Col<K>>, list: seq<nat>, p: nat): nat
    requires p <= |list| && forall q :: 0 <= q < |list| ==> list[q] < |cols|
  {
    if p == 0 then 0 else Unnumbered(cols, list, p - 1) + if cols[list[p - 1]].ordinal < 0 then 1 else 0
  }

  ghost function WaitingUpTo<K>(cols: seq<Col<K>>, list: seq<nat>, p: nat): set<nat>
    requires p <= |list| && forall q :: 0 <= q < |list| ==> list[q] < |cols|
  {
    set q | 0 <= q < p && cols[list[q]].ordinal < 0 :: list[q]
  }

  lemma ListPrecedes<K>(cols: seq<Col<K>>, key: K, list: seq<nat>, p: nat, q: nat)
    requires Listed(cols, key, list) && p < |list| && q < |list|
    ensures Precedes(cols, list[p], list[q]) <==> p < q
    ensures list[p] == list[q] ==> p == q
  {
    if q < p {
      assert Precedes(cols, list[q], list[p]);
    }
  }

  lemma PrecedesIsListed<K>(cols: seq<Col<K>>, key: K, list: seq<nat>, a: nat, p: nat) returns (q: nat)
    requires Listed(cols, key, list) && p < |list| && (Precedes(cols, a, list[p]) || Precedes(cols, list[p], a))
    ensures q < |list| && list[q] == a
  {
    assert a in list;
    q :| q < |list| && list[q] == a;
  }

  lemma {:induction false} UnnumberedIsSize<K>(cols: seq<Col<K>>, key: K, list: seq<nat>, p: nat)
    requires Listed(cols, key, list) && p <= |list|
    ensures |WaitingUpTo(cols, list, p)| == Unnumbered(cols, list, p)
  {
    if p > 0 {
      UnnumberedIsSize(cols, key, list, p - 1);
      var before, x := WaitingUpTo(cols, list, p - 1), list[p - 1];
      forall q | 0 <= q < p - 1 ensures list[q] != x { ListPrecedes(cols, key, list, q, p - 1); }
      assert list[p - 1] < |cols|;
      WaitingUpToMore(cols, list, p);
    }
  }

  lemma WaitingUpToMore<K>(cols: seq<Col<K>>, list: seq<nat>, p: nat)
    requires 0 < p <= |list| && forall q :: 0 <= q < |list| ==> list[q] < |cols|
    ensures WaitingUpTo(cols, list, p) == WaitingUpTo(cols, list, p - 1) + if cols[list[p - 1]].ordinal < 0 then {list[p - 1]} else {}
  {
  }

  lemma WaitingIsUpTo<K>(cols: seq<Col<K>>, key: K, list: seq<nat>, p: nat)
    requires Listed(cols, key, list) && p < |list|
    ensures |Waiting(cols, list[p])| == Unnumbered(cols, list, p)
  {
    UnnumberedIsSize(cols, key, list, p);
    hide Precedes, Unnumbered;
    forall a: nat | a in Waiting(cols, list[p])
      ensures a in WaitingUpTo(cols, list, p)
    {
      var q := PrecedesIsListed(cols, key, list, a, p);
      ListPrecedes(cols, key, list, q, p);
    }
    forall a: nat | a in WaitingUpTo(cols, list, p)
      ensures a in Waiting(cols, list[p])
    {
      var q :| 0 <= q < p && list[q] == a;
      ListPrecedes(cols, key, list, q, p);
    }
    assert Waiting(cols, list[p]) == WaitingUpTo(cols, list, p);
  }

  lemma ListEnds<K>(cols: seq<Col<K>>, key: K, list: seq<nat>, p: nat)
    requires Listed(cols, key, list) && p < |list|
    ensures IsFirst(cols, list[p]) <==> p == 0
    ensures IsLast(cols, list[p]) <==> p == |list| - 1
  {
    hide Precedes;
    ListPrecedes(cols, key, list, 0, p);
    ListPrecedes(cols, key, list, p, |list| - 1);
    if !IsFirst(cols, list[p]) {
      var a :| 0 <= a < |cols| && Precedes(cols, a, list[p]);
      var q := PrecedesIsListed(cols, key, list, a, p);
      ListPrecedes(cols, key, list, q, p);
    }
    if !IsLast(cols, list[p]) {
      var b :| 0 <= b < |cols| && Precedes(cols, list[p], b);
      var q := PrecedesIsListed(cols, key, list, b, p);
      ListPrecedes(cols, key, list, p, q);
    }
  }

  lemma {:induction false} NextIsLeast<K>(cols: seq<Col<K>>, key: K, n: int)
    requires n >= 0 && forall i :: 0 <= i < |cols| && cols[i].key == key ==> cols[i].ordinal < n
    requires n > 0 ==> exists i :: 0 <= i < |cols| && cols[i].key == key && cols[i].ordinal == n - 1
    ensures n == NextAfter(cols, key)
  {
    NextIsBelow(cols, key, n);
    if n > 0 {
      var i :| 0 <= i < |cols| && cols[i].key == key && cols[i].ordinal == n - 1;
      NextIsAfter(cols, i);
    }
  }

  lemma {:induction false} NextIsBelow<K>(cols: seq<Col<K>>, key: K, n: int)
    requires n >= 0 && forall i :: 0 <= i < |cols| && cols[i].key == key ==> cols[i].ordinal < n
    ensures NextAfter(cols, key) <= n
  {
    if cols != [] { NextIsBelow(cols[..|cols| - 1], key, n); }
  }

  /** The next ordinal of an object, from its rows in order. */
  method FindNext<K(==)>(cols: seq<Col<K>>, ghost key: K, list: seq<nat>) returns (next: int)
    requires Listed(cols, key, list)
    ensures next == NextAfter(cols, key)
  {
    hide NextAfter;
    next := 0;
    for p := 0 to |list|
      invariant next >= 0
      invariant forall q :: 0 <= q < p ==> cols[list[q]].ordinal < next
      invariant next > 0 ==> exists q :: 0 <= q < p && cols[list[q]].ordinal == next - 1
    {
      if cols[list[p]].ordinal >= next {
        next := cols[list[p]].ordinal + 1;
        assert cols[list[p]].ordinal == next - 1;
      }
    }
    NextIsLeast(cols, key, next);
  }

  /** Ordinals for an object's rows. */
  method Number<K(==)>(cols: seq<Col<K>>, ghost key: K, list: seq<nat>, ordinals: array<int>)
    requires Listed(cols, key, list) && ordinals.Length == |cols|
    modifies ordinals
    ensures forall p :: 0 <= p < |list| ==> ordinals[list[p]] == Ordinal(cols, list[p])
    ensures forall i :: 0 <= i < |cols| && i !in list ==> ordinals[i] == old(ordinals[i])
  {
    hide NextAfter, Waiting;
    var next := FindNext(cols, key, list);
    for p := 0 to |list|
      invariant forall q :: 0 <= q < p ==> ordinals[list[q]] == Ordinal(cols, list[q])
      invariant forall i :: 0 <= i < |cols| && i !in list ==> ordinals[i] == old(ordinals[i])
      invariant next == NextAfter(cols, key) + Unnumbered(cols, list, p)
    {
      WaitingIsUpTo(cols, key, list, p);
      forall q | 0 <= q < p ensures list[q] != list[p] { ListPrecedes(cols, key, list, q, p); }
      if cols[list[p]].ordinal >= 0 {
        ordinals[list[p]] := cols[list[p]].ordinal;
      } else {
        ordinals[list[p]] := next;
        next := next + 1;
      }
    }
  }

  /** Which of an object's rows are kept; the others are counted. */
  method Mark<K(==)>(cols: seq<Col<K>>, ghost key: K, list: seq<nat>, tiers: seq<Tier>, tier: int, ordinals: array<int>, keep: array<bool>)
    returns (removed: nat, ghost gone: set<nat>)
    requires Thins(tiers, tier) && Listed(cols, key, list) && ordinals.Length == |cols| == keep.Length
    requires forall p :: 0 <= p < |list| ==> ordinals[list[p]] == Ordinal(cols, list[p]) && !keep[list[p]]
    modifies keep
    ensures forall p :: 0 <= p < |list| ==> (keep[list[p]] <==> Kept(cols, tiers, tier, list[p]))
    ensures forall i :: 0 <= i < |cols| && i !in list ==> keep[i] == old(keep[i])
    ensures removed == |gone| && forall i: nat :: i in gone <==> i in list && !keep[i]
  {
    hide Ordinal, OnTheGrid, IsFirst, IsLast;
    removed, gone := 0, {};
    var last := |list| - 1;
    for p := 0 to |list|
      invariant forall q :: 0 <= q < p ==> (keep[list[q]] <==> Kept(cols, tiers, tier, list[q]))
      invariant forall q :: p <= q < |list| ==> !keep[list[q]]
      invariant forall i :: 0 <= i < |cols| && i !in list ==> keep[i] == old(keep[i])
      invariant gone == set q | 0 <= q < p && !keep[list[q]] :: list[q]
      invariant removed == |gone|
    {
      var i := list[p];
      ListEnds(cols, key, list, p);
      forall q | 0 <= q < |list| && q != p ensures list[q] != i { ListPrecedes(cols, key, list, q, p); }
      if p == 0 || p == last || cols[i].user || OnTheGrid(tiers, tier, ordinals[i]) {
        keep[i] := true;
      } else {
        gone := gone + {i};
        removed := removed + 1;
      }
    }
  }

  /** The rows of the objects in `done` are planned; the others are not kept so far. */
  ghost predicate Planned<K>(cols: seq<Col<K>>, tiers: seq<Tier>, tier: int, done: set<K>, keep: seq<bool>, ordinals: seq<int>, gone: set<nat>) {
    && |keep| == |ordinals| == |cols|
    && (forall i: nat :: i < |cols| ==>
          if cols[i].key in done then ordinals[i] == NewOrdinal(cols, tiers, tier, i) && (keep[i] <==> Kept(cols, tiers, tier, i)) else !keep[i])
    && (forall i: nat :: i in gone <==> i < |cols| && cols[i].key in done && !keep[i])
  }

  lemma PlannedMore<K>(cols: seq<Col<K>>, tiers: seq<Tier>, tier: int, done: set<K>, keep: seq<bool>, ordinals: seq<int>, gone: set<nat>,
                       key: K, list: seq<nat>, keep': seq<bool>, ordinals': seq<int>, gone': set<nat>)
    requires Planned(cols, tiers, tier, done, keep, ordinals, gone) && key !in done && Listed(cols, key, list)
    requires |keep'| == |ordinals'| == |cols| && Thins(tiers, tier)
    requires forall i :: 0 <= i < |cols| && i !in list ==> keep'[i] == keep[i] && ordinals'[i] == ordinals[i]
    requires forall p :: 0 <= p < |list| ==> ordinals'[list[p]] == Ordinal(cols, list[p]) && (keep'[list[p]] <==> Kept(cols, tiers, tier, list[p]))
    requires forall i: nat :: i in gone' <==> i in list && !keep'[i]
    ensures Planned(cols, tiers, tier, done + {key}, keep', ordinals', gone + gone') && |gone + gone'| == |gone| + |gone'|
  {
    hide Kept, Ordinal, Precedes;
    assert gone !! gone';
    forall i: nat | i < |cols| && cols[i].key == key
      ensures ordinals'[i] == Ordinal(cols, i) && (keep'[i] <==> Kept(cols, tiers, tier, i))
    {
      assert i in list;
      var p :| 0 <= p < |list| && list[p] == i;
    }
  }

  ghost predicate KeysListed<K(!new)>(cols: seq<Col<K>>, byObject: map<K, seq<nat>>, keys: seq<K>) {
    && (forall key :: key in byObject <==> key in keys)
    && NoDuplicates(keys) && forall i :: 0 <= i < |cols| ==> cols[i].key in keys
  }

  ghost predicate ListsHeld<K(!new)>(cols: seq<Col<K>>, byObject: map<K, seq<nat>>) {
    forall key :: IndicesOf(cols, key) == if key in byObject then byObject[key] else []
  }

  ghost predicate Grouped<K(!new)>(cols: seq<Col<K>>, byObject: map<K, seq<nat>>, keys: seq<K>) {
    KeysListed(cols, byObject, keys) && ListsHeld(cols, byObject)
  }

  lemma KeysMore<K(!new)>(cols: seq<Col<K>>, byObject: map<K, seq<nat>>, keys: seq<K>, byObject': map<K, seq<nat>>, keys': seq<K>)
    requires cols != [] && KeysListed(cols[..|cols| - 1], byObject, keys)
    requires byObject'.Keys == byObject.Keys + {cols[|cols| - 1].key}
    requires keys' == if cols[|cols| - 1].key in byObject then keys else keys + [cols[|cols| - 1].key]
    ensures KeysListed(cols, byObject', keys')
  {
    var before, last := cols[..|cols| - 1], cols[|cols| - 1].key;
    assert forall key :: key in keys' <==> key in keys || key == last;
    assert forall key :: key in byObject' <==> key in byObject || key == last;
    hide NoDuplicates;
    if last !in keys { DistinctMore(keys, last); }
    forall i | 0 <= i < |cols| ensures cols[i].key in keys' {
      if i < |cols| - 1 { assert before[i] == cols[i]; }
    }
  }

  lemma ListsMore<K(!new)>(cols: seq<Col<K>>, byObject: map<K, seq<nat>>, list: seq<nat>)
    requires cols != [] && ListsHeld(cols[..|cols| - 1], byObject)
    requires var key := cols[|cols| - 1].key;
             list == (if key in byObject then byObject[key] else []) + [|cols| - 1]
    ensures ListsHeld(cols, byObject[cols[|cols| - 1].key := list])
  {
    hide IndicesOf;
    forall key
      ensures IndicesOf(cols, key) == var m := byObject[cols[|cols| - 1].key := list]; if key in m then m[key] else []
    {
      IndicesMore(cols, key);
      var before: seq<nat> := IndicesOf(cols[..|cols| - 1], key);
      assert before == if key in byObject then byObject[key] else [];
    }
  }

  lemma GroupedMore<K(!new)>(cols: seq<Col<K>>, byObject: map<K, seq<nat>>, keys: seq<K>, list: seq<nat>, keys': seq<K>)
    requires cols != [] && Grouped(cols[..|cols| - 1], byObject, keys)
    requires var key := cols[|cols| - 1].key;
             && keys' == (if key in byObject then keys else keys + [key])
             && list == (if key in byObject then byObject[key] else []) + [|cols| - 1]
    ensures Grouped(cols, byObject[cols[|cols| - 1].key := list], keys')
  {
    hide KeysListed, ListsHeld;
    KeysMore(cols, byObject, keys, byObject[cols[|cols| - 1].key := list], keys');
    ListsMore(cols, byObject, list);
  }

  lemma IndicesMore<K>(cols: seq<Col<K>>, key: K)
    requires cols != []
    ensures IndicesOf(cols, key) == IndicesOf(cols[..|cols| - 1], key) + if cols[|cols| - 1].key == key then [|cols| - 1] else []
  {
  }

  lemma DistinctMore<K>(keys: seq<K>, key: K)
    requires NoDuplicates(keys) && key !in keys
    ensures NoDuplicates(keys + [key])
  {
  }

  lemma GroupedNone<K(!new)>()
    ensures Grouped<K>([], map[], [])
  {
  }

  /** The rows of each object, and the objects as they are met. */
  method GroupByObject<K(==,!new)>(cols: seq<Col<K>>) returns (byObject: map<K, seq<nat>>, keys: seq<K>)
    ensures Grouped(cols, byObject, keys)
  {
    hide Grouped;
    byObject, keys := map[], [];
    GroupedNone<K>();
    assert cols[..0] == [];
    for i := 0 to |cols|
      invariant Grouped(cols[..i], byObject, keys)
    {
      assert cols[..i + 1][..i] == cols[..i];
      ghost var byObject0, keys0 := byObject, keys;
      var key := cols[i].key;
      if key !in byObject {
        keys := keys + [key];
        byObject := byObject[key := []];
      }
      byObject := byObject[key := byObject[key] + [i]];
      assert byObject == byObject0[key := byObject[key]];
      GroupedMore(cols[..i + 1], byObject0, keys0, byObject[key], keys);
    }
    assert cols[..|cols|] == cols;
  }

  /** Plan one object's rows. */
  method PlanObject<K(==)>(cols: seq<Col<K>>, key: K, at: seq<nat>, tiers: seq<Tier>, tier: int, ordinals: array<int>, keep: array<bool>,
                           ghost done: set<K>, ghost gone: set<nat>)
    returns (removed: nat, ghost gone': set<nat>)
    requires Thins(tiers, tier) && at == IndicesOf(cols, key) && key !in done
    requires Planned(cols, tiers, tier, done, keep[..], ordinals[..], gone)
    modifies keep, ordinals
    ensures Planned(cols, tiers, tier, done + {key}, keep[..], ordinals[..], gone') && removed == |gone'| - |gone|
  {
    hide Planned, Listed, Kept, Ordinal, NewOrdinal, IndicesOf, Sort, InOrderOf;
    var list := Sort(at, InOrderOf(cols));
    SortLists(cols, key);
    ghost var keep0, ordinals0 := keep[..], ordinals[..];
    PlannedLength(cols, tiers, tier, done, keep0, ordinals0, gone);
    PlannedNotYet(cols, tiers, tier, done, keep0, ordinals0, gone, key, list);
    Number(cols, key, list, ordinals);
    ghost var more;
    removed, more := Mark(cols, key, list, tiers, tier, ordinals, keep);
    PlannedMore(cols, tiers, tier, done, keep0, ordinals0, gone, key, list, keep[..], ordinals[..], more);
    gone' := gone + more;
  }

  /** What to keep of the rows, and their ordinals. */
  method PlanThinning<K(==,!new)>(cols: seq<Col<K>>, tiers: seq<Tier>, tier: int)
    returns (keep: array<bool>, ordinals: array<int>, removed: nat)
    ensures keep.Length == ordinals.Length == |cols| && fresh(keep) && fresh(ordinals)
    ensures forall i :: 0 <= i < |cols| ==>
              ordinals[i] == NewOrdinal(cols, tiers, tier, i) && (keep[i] <==> i in KeepSet(cols, tiers, tier))
    ensures removed == |cols| - |Idx(|cols|, KeepSet(cols, tiers, tier))|
    ensures forall i :: 0 <= i < |cols| && tier >= 1 && tiers != [] ==>
              (keep[i] <==>
                 || cols[i].user
                 || IsFirst(cols, i)
                 || IsLast(cols, i)
                 || (exists t :: 0 <= t < |tiers|
                                 && t + 1 >= (if tier < |tiers| then tier else |tiers|) && ordinals[i] % AtLeastOne(tiers[t].keepEvery.Floor) == 0))
  {
    hide Kept, Idx, IsFirst, IsLast, Ordinal;
    if tier <= 0 || tiers == [] {
      keep := new bool[|cols|](_ => true);
      ordinals := new int[|cols|](i requires 0 <= i < |cols| => cols[i].ordinal);
      AllKept(cols, tiers, tier);
      return keep, ordinals, 0;
    }
    hide Planned, Grouped, NewOrdinal, KeepSet;
    keep, ordinals := new bool[|cols|](_ => false), new int[|cols|](_ => 0);
    var byObject, keys := GroupByObject(cols);
    NothingPlanned(cols, tiers, tier, keep[..], ordinals[..]);
    ghost var gone, done;
    removed, gone, done := PlanObjects(cols, byObject, keys, tiers, tier, ordinals, keep);
    AllPlanned(cols, tiers, tier, done, keep[..], ordinals[..], gone);
    forall i | 0 <= i < |cols|
      ensures ordinals[i] == Ordinal(cols, i)
      ensures keep[i] <==>
                || cols[i].user
                || IsFirst(cols, i)
                || IsLast(cols, i)
                || (exists t :: 0 <= t < |tiers|
                                && t + 1 >= (if tier < |tiers| then tier else |tiers|) && Ordinal(cols, i) % AtLeastOne(tiers[t].keepEvery.Floor) == 0)
    {
      KeptInPlainTerms(cols, tiers, tier, i);
      ThinnedOrdinal(cols, tiers, tier, i);
    }
  }

  lemma ThinnedOrdinal<K>(cols: seq<Col<K>>, tiers: seq<Tier>, tier: int, i: nat)
    requires Thins(tiers, tier) && i < |cols|
    ensures NewOrdinal(cols, tiers, tier, i) == Ordinal(cols, i)
  {
  }

  /** Plan the rows of each object in turn. */
  method PlanObjects<K(==,!new)>(cols: seq<Col<K>>, byObject: map<K, seq<nat>>, keys: seq<K>, tiers: seq<Tier>, tier: int, ordinals: array<int>,
                                 keep: array<bool>) returns (removed: nat, ghost gone: set<nat>, ghost done: set<K>)
    requires Thins(tiers, tier) && Grouped(cols, byObject, keys) && Planned(cols, tiers, tier, {}, keep[..], ordinals[..], {})
    modifies keep, ordinals
    ensures Planned(cols, tiers, tier, done, keep[..], ordinals[..], gone) && removed == |gone|
    ensures forall i :: 0 <= i < |cols| ==> cols[i].key in done
  {
    hide Planned, Grouped, IndicesOf;
    removed, gone, done := 0, {}, {};
    for k := 0 to |keys|
      invariant Planned(cols, tiers, tier, done, keep[..], ordinals[..], gone) && removed == |gone|
      invariant forall key :: key in done <==> key in keys[..k]
    {
      GroupOf(cols, byObject, keys, k);
      var more;
      more, gone := PlanObject(cols, keys[k], byObject[keys[k]], tiers, tier, ordinals, keep, done, gone);
      removed, done := removed + more, done + {keys[k]};
    }
    AllGrouped(cols, byObject, keys, done);
  }

  lemma PlannedLength<K>(cols: seq<Col<K>>, tiers: seq<Tier>, tier: int, done: set<K>, keep: seq<bool>, ordinals: seq<int>, gone: set<nat>)
    requires Planned(cols, tiers, tier, done, keep, ordinals, gone)
    ensures |keep| == |ordinals| == |cols|
  {
  }

  lemma GroupOf<K(!new)>(cols: seq<Col<K>>, byObject: map<K, seq<nat>>, keys: seq<K>, k: nat)
    requires Grouped(cols, byObject, keys) && k < |keys|
    ensures keys[k] in byObject && byObject[keys[k]] == IndicesOf(cols, keys[k]) && keys[k] !in keys[..k]
  {
    NotYet(keys, k);
  }

  lemma AllGrouped<K(!new)>(cols: seq<Col<K>>, byObject: map<K, seq<nat>>, keys: seq<K>, done: set<K>)
    requires Grouped(cols, byObject, keys) && forall key :: key in done <==> key in keys[..|keys|]
    ensures forall i :: 0 <= i < |cols| ==> cols[i].key in done
  {
    assert keys[..|keys|] == keys;
  }

  lemma AllKept<K>(cols: seq<Col<K>>, tiers: seq<Tier>, tier: int)
    requires !Thins(tiers, tier)
    ensures |Idx(|cols|, KeepSet(cols, tiers, tier))| == |cols|
    ensures forall i :: 0 <= i < |cols| ==> i in KeepSet(cols, tiers, tier)
  {
    IdxOfAll(|cols|, KeepSet(cols, tiers, tier));
  }

  /** The indices below `n` that are not in `keep`. */
  ghost function Missing(n: nat, keep: set<nat>): set<nat> {
    if n == 0 then {} else Missing(n - 1, keep) + if n - 1 in keep then {} else {n - 1}
  }

  lemma {:induction false} MissingIs(n: nat, keep: set<nat>)
    ensures |Missing(n, keep)| == n - |Idx(n, keep)|
    ensures forall i: nat :: i in Missing(n, keep) <==> i < n && i !in keep
  {
    if n > 0 { MissingIs(n - 1, keep); }
  }

  lemma NotYet<K>(keys: seq<K>, k: nat)
    requires NoDuplicates(keys) && k < |keys|
    ensures keys[k] !in keys[..k]
  {
  }

  lemma NothingPlanned<K>(cols: seq<Col<K>>, tiers: seq<Tier>, tier: int, keep: seq<bool>, ordinals: seq<int>)
    requires |keep| == |ordinals| == |cols| && forall i :: 0 <= i < |keep| ==> !keep[i]
    ensures Planned(cols, tiers, tier, {}, keep, ordinals, {})
  {
  }

  lemma PlannedNotYet<K>(cols: seq<Col<K>>, tiers: seq<Tier>, tier: int, done: set<K>, keep: seq<bool>, ordinals: seq<int>, gone: set<nat>,
                         key: K, list: seq<nat>)
    requires Planned(cols, tiers, tier, done, keep, ordinals, gone) && key !in done && Listed(cols, key, list)
    ensures forall p :: 0 <= p < |list| ==> list[p] < |keep| && !keep[list[p]]
  {
    hide Kept, NewOrdinal, Precedes;
  }

  lemma AllPlanned<K>(cols: seq<Col<K>>, tiers: seq<Tier>, tier: int, done: set<K>, keep: seq<bool>, ordinals: seq<int>, gone: set<nat>)
    requires Planned(cols, tiers, tier, done, keep, ordinals, gone) && forall i :: 0 <= i < |cols| ==> cols[i].key in done
    ensures forall i :: 0 <= i < |cols| ==>
              ordinals[i] == NewOrdinal(cols, tiers, tier, i) && (keep[i] <==> i in KeepSet(cols, tiers, tier))
    ensures |gone| == |cols| - |Idx(|cols|, KeepSet(cols, tiers, tier))|
  {
    hide Kept, NewOrdinal, Idx, Missing;
    MissingIs(|cols|, KeepSet(cols, tiers, tier));
    assert gone == Missing(|cols|, KeepSet(cols, tiers, tier));
  }
}
