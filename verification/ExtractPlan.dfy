/**
 * Planning an extract: the directory tree is walked, leaf directories that hold nothing wanted are
 * skipped, and each run is cut to the ids that are wanted
 * (packages/offline/src/pmtiles-extract.ts, `planExtract`, the part before the blobs).
 */
module ExtractPlan {
  import opened Wrappers
  import opened Varints
  import opened Directories
  import opened Headers
  import opened Archives
  import opened Selection

  datatype Source = Source(z: Gzip, file: Bytes, h: PmHeader)

  /** The wanted ids: all before `worldEnd`, and those of the sorted `area` after it. */
  datatype Wanted = Wanted(worldEnd: nat, area: seq<nat>)

  predicate IsWanted(w: Wanted, id: nat) {
    id < w.worldEnd || id in w.area
  }

  predicate WantedOk(w: Wanted) {
    Increasing(w.area) && forall i :: 0 <= i < |w.area| ==> w.worldEnd <= w.area[i]
  }

  /** Whether some wanted id lies from `from` up to `to`. */
  predicate WantsRange(w: Wanted, from: nat, to: nat) {
    from < w.worldEnd
    || (|w.area| > 0 && CountBelow(w.area, from) < |w.area| && w.area[CountBelow(w.area, from)] < to)
  }

  /** A leaf that is skipped holds no wanted id. */
  lemma SkippedRangeHasNothing(w: Wanted, from: nat, to: nat, id: nat)
    requires WantedOk(w) && !WantsRange(w, from, to) && from <= id < to
    ensures !IsWanted(w, id)
  {
    CountBelowSplits(w.area, from);
  }

  // ---- one run ---------------------------------------------------------------------------------------

  function RunEnd(e: PmEntry): nat {
    e.tileId + e.runLength
  }

  /** How far consecutive ids follow the one at `k`, `len` of them known, without passing `runEnd`. */
  function Consecutive(area: seq<nat>, k: nat, len: nat, runEnd: nat): (n: nat)
    requires k < |area|
    ensures len <= n && (k + len <= |area| ==> k + n <= |area|)
    decreases |area| - k - len
  {
    if k + len < |area| && area[k + len] == area[k] + len && area[k] + len < runEnd
    then Consecutive(area, k, len + 1, runEnd) else len
  }

  /** The entry's wanted ids from `area[k]` on, merged into runs where they are consecutive. */
  function AreaRuns(area: seq<nat>, e: PmEntry, k: nat): seq<PmEntry>
    decreases |area| - k
  {
    if k < |area| && area[k] < RunEnd(e) then
      var len := Consecutive(area, k, 1, RunEnd(e));
      [PmEntry(area[k], e.offset, e.length, len)] + AreaRuns(area, e, k + len)
    else []
  }

  function WorldRun(w: Wanted, e: PmEntry): seq<PmEntry> {
    if e.tileId < w.worldEnd
    then [e.(runLength := (if RunEnd(e) < w.worldEnd then RunEnd(e) else w.worldEnd) - e.tileId)]
    else []
  }

  function AreaStart(w: Wanted, e: PmEntry): nat {
    CountBelow(w.area, if e.tileId > w.worldEnd then e.tileId else w.worldEnd)
  }

  /** What the planner keeps of one run. */
  function Pieces(w: Wanted, e: PmEntry): seq<PmEntry> {
    WorldRun(w, e) + if |w.area| > 0 && RunEnd(e) > w.worldEnd then AreaRuns(w.area, e, AreaStart(w, e)) else []
  }

  // ---- what a flat list of runs says ---------------------------------------------------------------------

  /** Disjoint runs in order, all within [lo, hi). */
  predicate Flat(es: seq<PmEntry>, lo: nat, hi: nat) {
    es == [] ||
    (lo <= es[0].tileId && es[0].runLength > 0 && RunEnd(es[0]) <= hi && Flat(es[1..], RunEnd(es[0]), hi))
  }

  /** Where the blob of `id` is, when a run covers it. */
  function BlobAt(es: seq<PmEntry>, id: nat): Option<(int, nat)> {
    if es == [] then None
    else if es[0].tileId <= id < RunEnd(es[0]) then Some((es[0].offset, es[0].length))
    else BlobAt(es[1..], id)
  }

  lemma {:induction false} FlatAppend(a: seq<PmEntry>, b: seq<PmEntry>, lo: nat, mid: nat, hi: nat)
    requires Flat(a, lo, mid) && Flat(b, mid, hi) && lo <= mid <= hi
    ensures Flat(a + b, lo, hi)
  {
    if a == [] {
      assert a + b == b;
    } else {
      FlatAppend(a[1..], b, RunEnd(a[0]), mid, hi);
      assert (a + b)[1..] == a[1..] + b;
    }
  }

  lemma {:induction false} BlobAtAppend(a: seq<PmEntry>, b: seq<PmEntry>, id: nat)
    ensures BlobAt(a + b, id) == if BlobAt(a, id).Some? then BlobAt(a, id) else BlobAt(b, id)
  {
    if a == [] {
      assert a + b == b;
    } else {
      BlobAtAppend(a[1..], b, id);
      assert (a + b)[1..] == a[1..] + b;
    }
  }

  lemma {:induction false} BlobOutside(es: seq<PmEntry>, lo: nat, hi: nat, id: nat)
    requires Flat(es, lo, hi) && (id < lo || id >= hi)
    ensures BlobAt(es, id) == None
  {
    if es != [] {
      BlobOutside(es[1..], RunEnd(es[0]), hi, id);
    }
  }

  // ---- the pieces of a run are exact ---------------------------------------------------------------------

  lemma {:induction false} ConsecutiveIds(area: seq<nat>, k: nat, len: nat, runEnd: nat)
    requires k < |area| && 0 < len && k + len <= |area| && area[k] + len <= runEnd
    requires forall j :: k <= j < k + len ==> area[j] == area[k] + (j - k)
    ensures var n := Consecutive(area, k, len, runEnd);
            area[k] + n <= runEnd && forall j :: k <= j < k + n ==> area[j] == area[k] + (j - k)
    decreases |area| - k - len
  {
    if k + len < |area| && area[k + len] == area[k] + len && area[k] + len < runEnd {
      ConsecutiveIds(area, k, len + 1, runEnd);
    }
  }

  lemma {:induction false} AreaRunsExact(area: seq<nat>, e: PmEntry, k: nat, lo: nat, id: nat)
    requires Increasing(area) && k <= |area| && (k < |area| ==> lo <= area[k])
    ensures Flat(AreaRuns(area, e, k), lo, RunEnd(e))
    ensures BlobAt(AreaRuns(area, e, k), id) == if id in area[k..] && id < RunEnd(e) then Some((e.offset, e.length)) else None
    decreases |area| - k
  {
    hide Consecutive;
    if k < |area| && area[k] < RunEnd(e) {
      var len := Consecutive(area, k, 1, RunEnd(e));
      ConsecutiveIds(area, k, 1, RunEnd(e));
      RunMembers(area, k, len, id);
      AreaRunsExact(area, e, k + len, area[k] + len, id);
      var run := PmEntry(area[k], e.offset, e.length, len);
      assert ([run] + AreaRuns(area, e, k + len))[1..] == AreaRuns(area, e, k + len);
    } else if k < |area| && id in area[k..] {
      var i :| k <= i < |area| && area[i] == id;
      assert area[k] <= area[i];
    }
  }

  lemma RunMembers(area: seq<nat>, k: nat, len: nat, id: nat)
    requires Increasing(area) && 0 < len && k + len <= |area|
    requires forall j :: k <= j < k + len ==> area[j] == area[k] + (j - k)
    ensures id in area[k..] <==> area[k] <= id < area[k] + len || id in area[k + len..]
    ensures k + len < |area| ==> area[k] + len <= area[k + len]
  {
    assert area[k..] == area[k..k + len] + area[k + len..];
    if area[k] <= id < area[k] + len {
      assert area[k + (id - area[k])] == id;
    }
    if k + len < |area| {
      assert area[k + len - 1] == area[k] + (len - 1);
    }
  }

  /** A run keeps exactly its wanted ids, each with the run's blob. */
  lemma PiecesExact(w: Wanted, e: PmEntry, id: nat)
    requires WantedOk(w) && e.runLength > 0
    ensures Flat(Pieces(w, e), e.tileId, RunEnd(e))
    ensures BlobAt(Pieces(w, e), id) ==
            if IsWanted(w, id) && e.tileId <= id < RunEnd(e) then Some((e.offset, e.length)) else None
  {
    hide AreaRuns, CountBelow;
    var lo := if e.tileId > w.worldEnd then e.tileId else w.worldEnd;
    if |w.area| > 0 && RunEnd(e) > w.worldEnd {
      CountBelowSplits(w.area, lo);
      AreaRunsExact(w.area, e, AreaStart(w, e), lo, id);
      FlatAppend(WorldRun(w, e), AreaRuns(w.area, e, AreaStart(w, e)), e.tileId, lo, RunEnd(e));
      BlobAtAppend(WorldRun(w, e), AreaRuns(w.area, e, AreaStart(w, e)), id);
      AreaFrom(w.area, lo, id);
    } else {
      assert WorldRun(w, e) + [] == WorldRun(w, e);
    }
  }

  lemma AreaFrom(area: seq<nat>, lo: nat, id: nat)
    requires Increasing(area)
    ensures id in area[CountBelow(area, lo)..] <==> id in area && id >= lo
  {
    CountBelowSplits(area, lo);
    var k := CountBelow(area, lo);
    assert area == area[..k] + area[k..];
  }

  // ---- the source's tree -----------------------------------------------------------------------------

  const DEEPEST: nat := 3

  function LeafOf(s: Source, e: PmEntry): Result<seq<PmEntry>> {
    ReadDirectory(s.z, s.file, s.h.internalCompression, s.h.at.leafDirectoryOffset + e.offset, e.length)
  }

  /** Where the entry after the first begins, or the directory ends. */
  function NextStart(es: seq<PmEntry>, hi: nat): nat {
    if |es| > 1 then es[1].tileId else hi
  }

  /**
   * The entries of a directory that answers for [lo, hi): in order, runs that end before the next
   * entry, and leaf directories that keep to their pointer's interval. A leaf that cannot be read
   * is not asked to be anything.
   */
  predicate WellFormed(s: Source, es: seq<PmEntry>, lo: nat, hi: nat, depth: nat)
    requires depth <= DEEPEST
    decreases DEEPEST - depth, |es|
  {
    es == [] ||
    var e, next := es[0], NextStart(es, hi);
    && lo <= e.tileId < next <= hi
    && (e.runLength > 0 ==> RunEnd(e) <= next)
    && (e.runLength == 0 && depth < DEEPEST && LeafOf(s, e).Success? ==>
          WellFormed(s, LeafOf(s, e).value, e.tileId, next, depth + 1))
    && WellFormed(s, es[1..], next, hi, depth)
  }

  lemma {:induction false} WellFormedIsSorted(s: Source, es: seq<PmEntry>, lo: nat, hi: nat, depth: nat)
    requires depth <= DEEPEST && WellFormed(s, es, lo, hi, depth)
    ensures StrictlySorted(es) && forall i :: 0 <= i < |es| ==> es[i].tileId >= lo
    decreases |es|
  {
    if es != [] {
      WellFormedIsSorted(s, es[1..], NextStart(es, hi), hi, depth);
      forall i, j | 0 <= i < j < |es|
        ensures es[i].tileId < es[j].tileId
      {
        assert es[j] == es[1..][j - 1];
        if i > 0 {
          assert es[i] == es[1..][i - 1];
        }
      }
    }
  }

  /** The blob of `id` below a directory, as the reader walks to it. */
  function SourceBlob(s: Source, es: seq<PmEntry>, id: nat, depth: nat): Result<Option<(int, nat)>>
    requires depth <= DEEPEST
    decreases DEEPEST - depth
  {
    match EntryFor(es, id)
    case None => Success(None)
    case Some(e) =>
      if e.runLength > 0 then Success(Some((e.offset, e.length)))
      else if depth == DEEPEST then Failure("leaf directories nested too deep")
      else
        var leaf :- LeafOf(s, e);
        SourceBlob(s, leaf, id, depth + 1)
  }

  /** The reader's walk over a well-formed directory finds that blob, and reads it. */
  lemma {:induction false} WalkReadsTheBlob(s: Source, offset: int, length: nat, es: seq<PmEntry>, lo: nat, hi: nat, id: nat, depth: nat)
    requires depth <= DEEPEST && WellFormed(s, es, lo, hi, depth) && lo <= id < hi
    requires ReadDirectory(s.z, s.file, s.h.internalCompression, offset, length) == Success(es)
    ensures WalkFrom(s.z, s.file, s.h, offset, length, id, depth) == TileAtBlob(s, SourceBlob(s, es, id, depth))
    decreases DEEPEST - depth
  {
    hide WalkFrom, ReadDirectory, EntryFor, Lookup, WellFormed, ReadRange;
    WalkStep(s.z, s.file, s.h, offset, length, id, depth);
    WellFormedIsSorted(s, es, lo, hi, depth);
    LookupFindsTheEntry(es, id);
    var found := EntryFor(es, id);
    if found.Some? && found.value.runLength == 0 {
      var e := found.value;
      var at := s.h.at.leafDirectoryOffset + e.offset;
      if depth == DEEPEST {
        TooDeep(s.z, s.file, s.h, at, e.length, id);
      } else if LeafOf(s, e).Success? {
        var leafLo, leafHi := LeafIsWellFormed(s, es, lo, hi, id, depth);
        WalkReadsTheBlob(s, at, e.length, LeafOf(s, e).value, leafLo, leafHi, id, depth + 1);
      } else {
        WalkStep(s.z, s.file, s.h, at, e.length, id, depth + 1);
      }
    }
  }

  function TileAtBlob(s: Source, blob: Result<Option<(int, nat)>>): Result<Option<Bytes>> {
    match blob
    case Failure(error) => Failure(error)
    case Success(None) => Success(None)
    case Success(Some((offset, length))) =>
      var tile :- ReadRange(s.file, s.h.at.tileDataOffset + offset, length);
      Success(Some(tile))
  }

  /** The leaf that answers for an id is well formed over an interval that holds the id. */
  lemma {:induction false} LeafIsWellFormed(s: Source, es: seq<PmEntry>, lo: nat, hi: nat, id: nat, depth: nat)
    returns (leafLo: nat, leafHi: nat)
    requires depth < DEEPEST && WellFormed(s, es, lo, hi, depth) && lo <= id < hi
    requires EntryFor(es, id).Some? && EntryFor(es, id).value.runLength == 0 && LeafOf(s, EntryFor(es, id).value).Success?
    ensures leafLo <= id < leafHi && WellFormed(s, LeafOf(s, EntryFor(es, id).value).value, leafLo, leafHi, depth + 1)
    decreases |es|
  {
    if |es| > 1 && es[1].tileId <= id {
      leafLo, leafHi := LeafIsWellFormed(s, es[1..], es[1].tileId, hi, id, depth);
    } else {
      leafLo, leafHi := es[0].tileId, NextStart(es, hi);
    }
  }

  // ---- the visit ---------------------------------------------------------------------------------------

  /** What the planner pushes for the entries of a directory that ends at `hi`. */
  function VisitFrom(s: Source, w: Wanted, es: seq<PmEntry>, hi: nat, depth: nat): Result<seq<PmEntry>>
    requires depth <= DEEPEST
    decreases DEEPEST - depth, |es|
  {
    if es == [] then Success([]) else
      var e, next := es[0], NextStart(es, hi);
      if e.runLength == 0 then
        if depth == DEEPEST then Failure("leaf directories nested too deep")
        else if !WantsRange(w, e.tileId, next) then VisitFrom(s, w, es[1..], hi, depth)
        else
          var leaf :- LeafOf(s, e);
          var inner :- VisitFrom(s, w, leaf, next, depth + 1);
          var rest :- VisitFrom(s, w, es[1..], hi, depth);
          Success(inner + rest)
      else
        var rest :- VisitFrom(s, w, es[1..], hi, depth);
        Success(Pieces(w, e) + rest)
  }

  /** What the visit of a directory gives: sorted, disjoint runs, and each wanted id's own blob. */
  ghost predicate VisitIsExact(s: Source, w: Wanted, es: seq<PmEntry>, lo: nat, hi: nat, depth: nat, id: nat, out: seq<PmEntry>)
    requires depth <= DEEPEST
  {
    && Flat(out, lo, hi)
    && (lo <= id < hi ==> if IsWanted(w, id) then SourceBlob(s, es, id, depth) == Success(BlobAt(out, id)) else BlobAt(out, id) == None)
  }

  lemma ExactRun(s: Source, w: Wanted, es: seq<PmEntry>, lo: nat, hi: nat, depth: nat, id: nat, rest: seq<PmEntry>)
    requires depth <= DEEPEST && WellFormed(s, es, lo, hi, depth) && es != [] && es[0].runLength > 0 && WantedOk(w)
    requires VisitIsExact(s, w, es[1..], NextStart(es, hi), hi, depth, id, rest)
    ensures VisitIsExact(s, w, es, lo, hi, depth, id, Pieces(w, es[0]) + rest)
  {
    hide Pieces, IsWanted;
    var e, next := es[0], NextStart(es, hi);
    PiecesExact(w, e, id);
    FlatWider(Pieces(w, e), e.tileId, RunEnd(e), lo, next);
    FlatAppend(Pieces(w, e), rest, lo, next, hi);
    BlobAtAppend(Pieces(w, e), rest, id);
    if id < next {
      BlobOutside(rest, next, hi, id);
      EntryForFirst(es, hi, id);
    }
    if |es| == 1 && id >= next {
      assert id >= hi;
    }
  }

  lemma {:induction false} FlatWider(es: seq<PmEntry>, lo: nat, hi: nat, lo': nat, hi': nat)
    requires Flat(es, lo, hi) && lo' <= lo && hi <= hi'
    ensures Flat(es, lo', hi')
  {
    if es != [] {
      FlatWider(es[1..], RunEnd(es[0]), hi, RunEnd(es[0]), hi');
    }
  }

  lemma EntryForFirst(es: seq<PmEntry>, hi: nat, id: nat)
    requires es != [] && id < NextStart(es, hi)
    ensures EntryFor(es, id) == if Answers(es[0], id) then Some(es[0]) else None
  {
  }

  lemma ExactLeaf(s: Source, w: Wanted, es: seq<PmEntry>, lo: nat, hi: nat, depth: nat, id: nat, inner: seq<PmEntry>, rest: seq<PmEntry>)
    requires depth < DEEPEST && WellFormed(s, es, lo, hi, depth) && es != [] && es[0].runLength == 0 && WantedOk(w)
    requires VisitIsExact(s, w, es[1..], NextStart(es, hi), hi, depth, id, rest)
    requires if WantsRange(w, es[0].tileId, NextStart(es, hi))
             then LeafOf(s, es[0]).Success? &&
                  VisitIsExact(s, w, LeafOf(s, es[0]).value, es[0].tileId, NextStart(es, hi), depth + 1, id, inner)
             else inner == []
    ensures VisitIsExact(s, w, es, lo, hi, depth, id, inner + rest)
  {
    hide IsWanted, LeafOf, WantsRange;
    var e, next := es[0], NextStart(es, hi);
    FlatWider(inner, e.tileId, next, lo, next);
    FlatAppend(inner, rest, lo, next, hi);
    BlobAtAppend(inner, rest, id);
    if id < next {
      BlobOutside(rest, next, hi, id);
      EntryForFirst(es, hi, id);
      if id < e.tileId {
        BlobOutside(inner, e.tileId, next, id);
      } else if !WantsRange(w, e.tileId, next) {
        SkippedRangeHasNothing(w, e.tileId, next, id);
      }
    } else {
      BlobOutside(inner, e.tileId, next, id);
    }
  }

  /**
   * A plan holds sorted, disjoint runs; a wanted id has in it the blob the reader finds in the source,
   * and any other id has none.
   */
  lemma {:induction false} VisitExact(s: Source, w: Wanted, es: seq<PmEntry>, lo: nat, hi: nat, depth: nat, id: nat)
    requires depth <= DEEPEST && WellFormed(s, es, lo, hi, depth) && WantedOk(w)
    requires VisitFrom(s, w, es, hi, depth).Success?
    ensures VisitIsExact(s, w, es, lo, hi, depth, id, VisitFrom(s, w, es, hi, depth).value)
    decreases DEEPEST - depth, |es|
  {
    hide VisitIsExact, Pieces, WantsRange, LeafOf;
    if es == [] {
      NothingIsExact(s, w, lo, hi, depth, id);
    } else {
      var e, next := es[0], NextStart(es, hi);
      VisitExact(s, w, es[1..], next, hi, depth, id);
      var rest := VisitFrom(s, w, es[1..], hi, depth).value;
      if e.runLength > 0 {
        ExactRun(s, w, es, lo, hi, depth, id, rest);
      } else if WantsRange(w, e.tileId, next) {
        var leaf := LeafOf(s, e).value;
        VisitExact(s, w, leaf, e.tileId, next, depth + 1, id);
        ExactLeaf(s, w, es, lo, hi, depth, id, VisitFrom(s, w, leaf, next, depth + 1).value, rest);
      } else {
        ExactLeaf(s, w, es, lo, hi, depth, id, [], rest);
        assert [] + rest == rest;
      }
    }
  }

  lemma NothingIsExact(s: Source, w: Wanted, lo: nat, hi: nat, depth: nat, id: nat)
    requires depth <= DEEPEST
    ensures VisitIsExact(s, w, [], lo, hi, depth, id, [])
  {
  }

  // ---- the planner ---------------------------------------------------------------------------------------

  /** `r`, with `done` pushed before it. */
  function Pushed(done: seq<PmEntry>, r: Result<seq<PmEntry>>): Result<seq<PmEntry>> {
    match r
    case Failure(error) => Failure(error)
    case Success(es) => Success(done + es)
  }

  lemma VisitStep(s: Source, w: Wanted, es: seq<PmEntry>, i: nat, hi: nat, depth: nat, done: seq<PmEntry>)
    requires depth <= DEEPEST && i < |es|
    ensures var e, next := es[i], if i + 1 < |es| then es[i + 1].tileId else hi;
            var rest := VisitFrom(s, w, es[i + 1..], hi, depth);
            Pushed(done, VisitFrom(s, w, es[i..], hi, depth)) ==
            if e.runLength > 0 then Pushed(done + Pieces(w, e), rest)
            else if depth == DEEPEST then Failure("leaf directories nested too deep")
            else if !WantsRange(w, e.tileId, next) then Pushed(done, rest)
            else
              match LeafOf(s, e) {
                case Failure(error) => Failure(error)
                case Success(leaf) =>
                  match VisitFrom(s, w, leaf, next, depth + 1)
                  case Failure(error) => Failure(error)
                  case Success(inner) => Pushed(done + inner, rest)
              }
  {
    hide Pieces, WantsRange, LeafOf;
    assert es[i..][1..] == es[i + 1..];
    var rest := VisitFrom(s, w, es[i + 1..], hi, depth);
    if rest.Success? {
      var a := Pieces(w, es[i]);
      assert done + (a + rest.value) == done + a + rest.value;
      if es[i].runLength == 0 && depth < DEEPEST && LeafOf(s, es[i]).Success? {
        var next := if i + 1 < |es| then es[i + 1].tileId else hi;
        var inner := VisitFrom(s, w, LeafOf(s, es[i]).value, next, depth + 1);
        if inner.Success? {
          assert done + (inner.value + rest.value) == done + inner.value + rest.value;
        }
      }
    }
  }

  lemma VisitStartsAndEnds(s: Source, w: Wanted, es: seq<PmEntry>, hi: nat, depth: nat, done: seq<PmEntry>)
    requires depth <= DEEPEST
    ensures es[0..] == es && es[|es|..] == []
    ensures Pushed([], VisitFrom(s, w, es, hi, depth)) == VisitFrom(s, w, es, hi, depth)
    ensures Pushed(done, VisitFrom(s, w, [], hi, depth)) == Success(done)
  {
    assert done + [] == done;
    var r := VisitFrom(s, w, es, hi, depth);
    if r.Success? {
      assert [] + r.value == r.value;
    }
  }

  lemma AreaRunsNext(area: seq<nat>, e: PmEntry, k: nat)
    requires k < |area| && area[k] < RunEnd(e)
    ensures var len := Consecutive(area, k, 1, RunEnd(e));
            AreaRuns(area, e, k) == [PmEntry(area[k], e.offset, e.length, len)] + AreaRuns(area, e, k + len)
  {
  }

  lemma AreaRunsEnd(area: seq<nat>, e: PmEntry, k: nat)
    requires k >= |area| || area[k] >= RunEnd(e)
    ensures AreaRuns(area, e, k) == []
  {
  }

  class Planner {
    const s: Source
    const w: Wanted
    var out: seq<PmEntry>
    var directoriesRead: nat
    var directoryBytesRead: nat

    constructor (s: Source, w: Wanted)
      ensures this.s == s && this.w == w && out == [] && directoriesRead == directoryBytesRead == 0
    {
      this.s, this.w, out, directoriesRead, directoryBytesRead := s, w, [], 0, 0;
    }

    /** `wantsRange`. */
    method Wants(from: nat, to: nat) returns (wants: bool)
      requires WantedOk(w)
      ensures wants == WantsRange(w, from, to)
    {
      if from < w.worldEnd {
        return true;
      }
      var k := LowerBound(w.area, from);
      return |w.area| > 0 && k < |w.area| && w.area[k] < to;
    }

    method PushAreaRuns(e: PmEntry, from: nat)
      requires WantedOk(w) && from == AreaStart(w, e)
      modifies this`out
      ensures out == old(out) + AreaRuns(w.area, e, from)
    {
      hide AreaRuns, Consecutive, WantedOk;
      var k := from;
      while k < |w.area| && w.area[k] < RunEnd(e)
        invariant out + AreaRuns(w.area, e, k) == old(out) + AreaRuns(w.area, e, from)
        decreases |w.area| - k
      {
        AreaRunsNext(w.area, e, k);
        var len := CountConsecutive(k, RunEnd(e));
        ghost var was := out;
        var run := PmEntry(w.area[k], e.offset, e.length, len);
        out := out + [run];
        assert was + ([run] + AreaRuns(w.area, e, k + len)) == out + AreaRuns(w.area, e, k + len);
        k := k + len;
      }
      AreaRunsEnd(w.area, e, k);
    }

    /** How many consecutive ids of the area start at a place, before the end of a run. */
    method CountConsecutive(k: nat, runEnd: nat) returns (len: nat)
      requires k < |w.area|
      ensures len == Consecutive(w.area, k, 1, runEnd) && 0 < len && k + len <= |w.area|
    {
      len := 1;
      while k + len < |w.area| && w.area[k + len] == w.area[k] + len && w.area[k] + len < runEnd
        invariant 0 < len && k + len <= |w.area|
        invariant Consecutive(w.area, k, len, runEnd) == Consecutive(w.area, k, 1, runEnd)
        decreases |w.area| - k - len
      {
        len := len + 1;
      }
    }

    method PushPieces(e: PmEntry)
      requires WantedOk(w)
      modifies this`out
      ensures out == old(out) + Pieces(w, e)
    {
      var runEnd := e.tileId + e.runLength;
      if e.tileId < w.worldEnd {
        out := out + [e.(runLength := (if runEnd < w.worldEnd then runEnd else w.worldEnd) - e.tileId)];
      }
      assert out == old(out) + WorldRun(w, e);
      if |w.area| > 0 && runEnd > w.worldEnd {
        var k := LowerBound(w.area, if e.tileId > w.worldEnd then e.tileId else w.worldEnd);
        PushAreaRuns(e, k);
      }
    }

    method Visit(entries: seq<PmEntry>, end: nat, depth: nat) returns (r: Result<bool>)
      requires depth <= DEEPEST && WantedOk(w)
      modifies this
      ensures match VisitFrom(s, w, entries, end, depth)
              case Success(es) => r.Success? && out == old(out) + es
              case Failure(error) => r == Failure(error)
      decreases DEEPEST - depth
    {
      hide VisitFrom, Pieces, WantsRange, WantedOk, DecodeDirectory;
      ghost var done := [];
      VisitStartsAndEnds(s, w, entries, end, depth, done);
      for i := 0 to |entries|
        invariant out == old(out) + done
        invariant VisitFrom(s, w, entries, end, depth) == Pushed(done, VisitFrom(s, w, entries[i..], end, depth))
      {
        VisitStep(s, w, entries, i, end, depth, done);
        var e := entries[i];
        var next := if i + 1 < |entries| then entries[i + 1].tileId else end;
        if e.runLength == 0 {
          if depth > 2 {
            return Failure("leaf directories nested too deep");
          }
          var wanted := Wants(e.tileId, next);
          if wanted {
            var raw := ReadRange(s.file, s.h.at.leafDirectoryOffset + e.offset, e.length);
            if raw.Failure? {
              return Failure(raw.error);
            }
            directoriesRead := directoriesRead + 1;
            directoryBytesRead := directoryBytesRead + e.length;
            var bytes := DecompressInternal(s.z, raw.value, s.h.internalCompression, MAX_DECOMPRESSED);
            if bytes.Failure? {
              return Failure(bytes.error);
            }
            var leaf := DecodePmDirectory(bytes.value);
            if leaf.Failure? {
              return Failure(leaf.error);
            }
            ghost var was := out;
            var visited := Visit(leaf.value, next, depth + 1);
            if visited.Failure? {
              return Failure(visited.error);
            }
            done := done + VisitFrom(s, w, leaf.value, next, depth + 1).value;
          }
        } else {
          PushPieces(e);
          done := done + Pieces(w, e);
        }
      }
      VisitStartsAndEnds(s, w, entries, end, depth, done);
      return Success(true);
    }
  }
}
