/**
 * When an extract can be planned and written, from what a reader of the source can do: exactly when
 * the reader's walk to every selected tile ends, some selected tile is there, and every one that is
 * there has a length (packages/offline/src/pmtiles-extract.ts, `planExtract` and `writeExtract`).
 */
module ExtractSucceeds {
  import opened Wrappers
  import opened Varints
  import opened TileIds
  import opened Directories
  import opened Headers
  import opened Archives
  import opened DirectoryTree
  import opened Selection
  import opened ExtractPlan
  import opened Extract
  import opened ExtractMeaning
  import opened Sorting

  // ---- the visit -----------------------------------------------------------------------------------------

  /** The reader's walk to an id ends, and where it goes four directories deep there is no further leaf. */
  predicate WalkEnds(s: Source, es: seq<PmEntry>, id: nat, depth: nat)
    requires depth <= DEEPEST
    decreases DEEPEST - depth
  {
    if depth == DEEPEST then forall i :: 0 <= i < |es| ==> es[i].runLength > 0
    else
      match EntryFor(es, id)
      case None => true
      case Some(e) => e.runLength == 0 ==> LeafOf(s, e).Success? && WalkEnds(s, LeafOf(s, e).value, id, depth + 1)
  }

  ghost predicate AllEnd(s: Source, w: Wanted, es: seq<PmEntry>, lo: nat, hi: nat, depth: nat)
    requires depth <= DEEPEST
  {
    forall id: nat :: lo <= id < hi && IsWanted(w, id) ==> WalkEnds(s, es, id, depth)
  }

  /** A range is asked for exactly when some wanted id is in it. */
  lemma RangeHasSome(w: Wanted, from: nat, to: nat) returns (id: nat)
    requires WantedOk(w) && from < to && WantsRange(w, from, to)
    ensures from <= id < to && IsWanted(w, id)
  {
    if from < w.worldEnd {
      id := from;
    } else {
      CountBelowSplits(w.area, from);
      id := w.area[CountBelow(w.area, from)];
    }
  }

  lemma {:induction false} DeepestVisit(s: Source, w: Wanted, es: seq<PmEntry>, hi: nat)
    ensures VisitFrom(s, w, es, hi, DEEPEST).Success? <==> forall i :: 0 <= i < |es| ==> es[i].runLength > 0
    decreases |es|
  {
    if es != [] {
      DeepestVisit(s, w, es[1..], hi);
      assert forall i :: 0 < i < |es| ==> es[i] == es[1..][i - 1];
      hide Pieces;
      if es[0].runLength > 0 && forall i :: 0 <= i < |es[1..]| ==> es[1..][i].runLength > 0 {
        forall i | 0 <= i < |es| ensures es[i].runLength > 0 {
          if i > 0 { assert es[i] == es[1..][i - 1]; }
        }
      }
      if forall i :: 0 <= i < |es| ==> es[i].runLength > 0 {
        forall i | 0 <= i < |es[1..]| ensures es[1..][i].runLength > 0 { assert es[1..][i] == es[i + 1]; }
      }
    }
  }

  /** One entry at a time: the walks of a directory end when those of its first entry and of the others do. */
  lemma EndsOfEntry(s: Source, w: Wanted, es: seq<PmEntry>, lo: nat, hi: nat, depth: nat)
    requires depth < DEEPEST && WellFormed(s, es, lo, hi, depth) && es != [] && WantedOk(w)
    ensures var e, next := es[0], NextStart(es, hi);
            AllEnd(s, w, es, lo, hi, depth) <==>
              && AllEnd(s, w, es[1..], next, hi, depth)
              && (e.runLength == 0 && WantsRange(w, e.tileId, next) ==>
                    LeafOf(s, e).Success? && AllEnd(s, w, LeafOf(s, e).value, e.tileId, next, depth + 1))
  {
    hide IsWanted, LeafOf, WantsRange, WantedOk;
    var e, next := es[0], NextStart(es, hi);
    forall id: nat | lo <= id < hi
      ensures WalkEnds(s, es, id, depth) <==>
                if id >= next then WalkEnds(s, es[1..], id, depth)
                else id >= e.tileId && e.runLength == 0 ==> LeafOf(s, e).Success? && WalkEnds(s, LeafOf(s, e).value, id, depth + 1)
    {
      if id < next { EntryForFirst(es, hi, id); }
    }
    if e.runLength == 0 && WantsRange(w, e.tileId, next) {
      var id := RangeHasSome(w, e.tileId, next);
      assert WalkEnds(s, es, id, depth) ==> LeafOf(s, e).Success?;
    } else if e.runLength == 0 {
      forall id: nat | e.tileId <= id < next ensures !IsWanted(w, id) { SkippedRangeHasNothing(w, e.tileId, next, id); }
    }
  }

  /** A visit succeeds exactly when the reader's walk to every wanted id ends. */
  lemma {:induction false} VisitSucceeds(s: Source, w: Wanted, es: seq<PmEntry>, lo: nat, hi: nat, depth: nat)
    requires depth <= DEEPEST && WellFormed(s, es, lo, hi, depth) && WantedOk(w)
    requires depth == DEEPEST ==> exists id: nat :: lo <= id < hi && IsWanted(w, id)
    ensures VisitFrom(s, w, es, hi, depth).Success? <==> AllEnd(s, w, es, lo, hi, depth)
    decreases DEEPEST - depth, |es|
  {
    hide Pieces, WantsRange, LeafOf, IsWanted, WantedOk, AllEnd, WalkEnds;
    if depth == DEEPEST {
      DeepestVisit(s, w, es, hi);
      DeepestEnds(s, w, es, lo, hi);
    } else if es == [] {
      NothingToWalk(s, w, lo, hi, depth);
    } else {
      var e, next := es[0], NextStart(es, hi);
      VisitSucceeds(s, w, es[1..], next, hi, depth);
      if e.runLength == 0 && WantsRange(w, e.tileId, next) && LeafOf(s, e).Success? {
        var id := RangeHasSome(w, e.tileId, next);
        VisitSucceeds(s, w, LeafOf(s, e).value, e.tileId, next, depth + 1);
      }
      EndsOfEntry(s, w, es, lo, hi, depth);
    }
  }

  lemma DeepestEnds(s: Source, w: Wanted, es: seq<PmEntry>, lo: nat, hi: nat)
    requires exists id: nat :: lo <= id < hi && IsWanted(w, id)
    ensures AllEnd(s, w, es, lo, hi, DEEPEST) <==> forall i :: 0 <= i < |es| ==> es[i].runLength > 0
  {
    var id: nat :| lo <= id < hi && IsWanted(w, id);
    if AllEnd(s, w, es, lo, hi, DEEPEST) {
      assert WalkEnds(s, es, id, DEEPEST);
    }
  }

  lemma NothingToWalk(s: Source, w: Wanted, lo: nat, hi: nat, depth: nat)
    requires depth < DEEPEST
    ensures AllEnd(s, w, [], lo, hi, depth)
  {
  }

  // ---- what is pushed --------------------------------------------------------------------------------------

  /** A good source's root, and what the visit gave for it. */
  ghost predicate Visited(s: Source, w: Wanted, out: seq<PmEntry>) {
    && GoodSource(s) && RootOf(s).Success? && WantedOk(w)
    && VisitFrom(s, w, RootOf(s).value, MAX_SAFE, 0) == Success(out)
  }

  lemma VisitedIsExact(s: Source, w: Wanted, out: seq<PmEntry>, id: nat)
    requires Visited(s, w, out)
    ensures Flat(out, 0, MAX_SAFE)
    ensures id < MAX_SAFE ==>
              if IsWanted(w, id) then SourceBlob(s, RootOf(s).value, id, 0) == Success(BlobAt(out, id)) else BlobAt(out, id) == None
  {
    hide VisitFrom, IsWanted, SourceBlob, BlobAt, Flat, WellFormed, WantedOk;
    VisitExact(s, w, RootOf(s).value, 0, MAX_SAFE, 0, id);
  }

  /** What is pushed names the reader's blob of a wanted id. */
  lemma PushedIsFromSource(s: Source, w: Wanted, out: seq<PmEntry>, i: nat)
    requires Visited(s, w, out) && i < |out|
    ensures out[i].tileId < MAX_SAFE && IsWanted(w, out[i].tileId)
    ensures SourceBlob(s, RootOf(s).value, out[i].tileId, 0) == Success(Some((out[i].offset, out[i].length)))
  {
    hide Visited, IsWanted, SourceBlob, BlobAt;
    VisitedIsExact(s, w, out, out[i].tileId);
    FlatIsSorted(out, 0, MAX_SAFE);
    BlobAtStart(out, 0, MAX_SAFE, i);
  }

  /** Every wanted id's blob is pushed. */
  lemma BlobIsPushed(s: Source, w: Wanted, out: seq<PmEntry>, id: nat) returns (i: nat)
    requires Visited(s, w, out) && IsWanted(w, id) && id < MAX_SAFE && Found(s, id)
    ensures i < |out| && SourceBlob(s, RootOf(s).value, id, 0) == Success(Some((out[i].offset, out[i].length)))
  {
    hide Visited, IsWanted, SourceBlob, BlobAt, EntryFor;
    VisitedIsExact(s, w, out, id);
    EntryForFlat(out, 0, MAX_SAFE, id);
    var e := EntryFor(out, id).value;
    i :| 0 <= i < |out| && out[i] == e;
  }

  /** The reader's walk finds a blob for an id. */
  ghost predicate Found(s: Source, id: nat) {
    RootOf(s).Success? && SourceBlob(s, RootOf(s).value, id, 0).Success? && SourceBlob(s, RootOf(s).value, id, 0).value.Some?
  }

  lemma PushedAgree(s: Source, w: Wanted, out: seq<PmEntry>)
    requires Visited(s, w, out)
    ensures OffsetsAgree(out)
  {
    hide SourceBlob, WellFormed, VisitFrom;
    forall i, j | 0 <= i < j < |out| && out[i].offset == out[j].offset
      ensures out[i].length == out[j].length
    {
      PushedIsFromSource(s, w, out, i);
      PushedIsFromSource(s, w, out, j);
      var a, b := SourceBlob(s, RootOf(s).value, out[i].tileId, 0), SourceBlob(s, RootOf(s).value, out[j].tileId, 0);
      assert SameOffset(a, b);
    }
  }

  lemma PushedAreFew(s: Source, w: Wanted, out: seq<PmEntry>)
    requires Visited(s, w, out)
    ensures |out| <= w.worldEnd + |w.area| && Flat(out, 0, MAX_SAFE) && Sort(out, ById) == out
  {
    VisitedIsExact(s, w, out, 0);
    FlatIsSorted(out, 0, MAX_SAFE);
    SortedAlready(out);
    hide Visited, IsWanted, SourceBlob, BlobAt, Sort, Flat;
    forall i | 0 <= i < |out| ensures IsWanted(w, out[i].tileId) { PushedIsFromSource(s, w, out, i); }
    assert WantedOk(w) by { VisitedWants(s, w, out); }
    RunsAreFew(w, out);
  }

  lemma VisitedWants(s: Source, w: Wanted, out: seq<PmEntry>)
    requires Visited(s, w, out)
    ensures WantedOk(w)
  {
    hide WantedOk;
  }

  /** The blob at a place of the list is one that an entry names. */
  lemma BlobIsOfEntry(es: seq<PmEntry>, k: nat) returns (i: nat)
    requires OffsetsAgree(es) && k < |BlobsOf(es)|
    ensures i < |es| && BlobsOf(es)[k] == Blob(es[i].offset, es[i].length)
  {
    hide OffsetKeys, FirstLength;
    var keys := OffsetKeys(es);
    var offset := Sort(keys, IntAtMost)[k];
    IntAtMostIsAnOrder();
    SortMembers<int>(keys, IntAtMost, offset);
    OffsetKeysAre(es);
    i :| 0 <= i < |es| && es[i].offset == offset;
    FirstLengthIsTheLength(es, i);
  }

  // ---- the directories -----------------------------------------------------------------------------------------

  /** Entries moved to their new offsets can be stored when they have lengths and the tile data is not too long. */
  lemma MovedIsStorable(es: seq<PmEntry>)
    requires Flat(es, 0, MAX_SAFE) && OffsetsAgree(es) && TotalLength(BlobsOf(es)) <= MAX_SAFE && HaveLengths(es)
    ensures Storable(Moved(es, BlobsOf(es)))
  {
    hide BlobsOf, TotalLength, NewOffset, OffsetsAgree, BlobsInOrder;
    var moved := Moved(es, BlobsOf(es));
    FlatIsSorted(es, 0, MAX_SAFE);
    forall i | 0 <= i < |moved|
      ensures moved[i].tileId <= MAX_SAFE && moved[i].offset < MAX_SAFE && 0 < moved[i].length <= MAX_SAFE && moved[i].runLength <= MAX_SAFE
    {
      var k := BlobOfEntry(es, i);
      NewOffsetFits(BlobsOf(es), k);
    }
    assert SortedById(moved);
  }

  /** The entries can be laid out exactly when each has a length. */
  lemma LayoutSucceeds(z: Gzip, src: PmHeader, sel: ExtractSelection, metadata: Bytes, es: seq<PmEntry>, tileBytes: nat, tiles: nat)
    requires Lawful(z) && Supported(src.internalCompression) && ZoomOk(sel.worldMaxZoom) && ZoomOk(sel.maxZoom)
    requires Flat(es, 0, MAX_SAFE) && OffsetsAgree(es) && TotalLength(BlobsOf(es)) <= MAX_SAFE && 0 < |es| <= MAX_ARRAY_LENGTH
    ensures LayoutFor(z, src, sel, metadata, es, BlobsOf(es), tileBytes, tiles).Success? <==> HaveLengths(es)
  {
    hide Build, BlobsOf, TotalLength, NewOffset, Flat, OffsetsAgree, Lawful, EncodeHeader, E7, CenterZoom, Storable, Unpack;
    var moved := Moved(es, BlobsOf(es));
    if HaveLengths(es) {
      MovedIsStorable(es);
      BuildFits(z, src.internalCompression, moved);
    }
    if Build(z, src.internalCompression, moved).Success? {
      BuildNeedsLengths(z, src.internalCompression, moved);
      assert forall i :: 0 <= i < |es| ==> es[i].length == moved[i].length;
    }
  }

  // ---- selections ------------------------------------------------------------------------------------------------

  /** A selection the planner takes on: whole zooms in order, an area of some size on the Earth, and not too many tiles. */
  predicate MayBeExtracted(sel: ExtractSelection, rangeOf: RangeOf) {
    && 0 <= sel.worldMaxZoom <= sel.maxZoom <= 15
    && (sel.bounds.Some? ==>
          && -180.0 <= sel.bounds.value.west < sel.bounds.value.east <= 180.0
          && -90.0 <= sel.bounds.value.south < sel.bounds.value.north <= 90.0)
    && TileCount(sel, rangeOf) <= 20_000_000
  }

  lemma AcceptedWhen(sel: ExtractSelection, rangeOf: RangeOf)
    ensures SelectionProblem(sel, rangeOf).None? <==> MayBeExtracted(sel, rangeOf)
  {
    hide AreaCount, WorldEnd;
  }

  ghost predicate Asked(sel: ExtractSelection, rangeOf: RangeOf, t: Tile) {
    IsTile(t) && Selected(sel, rangeOf, t)
  }

  lemma ZoomOfId(id: nat, z: nat) returns (y: nat)
    requires z <= PM_MAX_ZOOM && id < ZoomStartId(z + 1)
    ensures InZoom(id, y)
  {
    hide ZoomStartId;
    if z == 0 || ZoomStartId(z) <= id {
      y := z;
      assert ZoomStartId(0) == 0 by { FirstZoomStarts(); }
    } else {
      y := ZoomOfId(id, z - 1);
    }
  }

  lemma FirstZoomStarts()
    ensures ZoomStartId(0) == 0
  {
  }

  /** A wanted id is that of a tile asked for. */
  lemma WantedIsAsked(sel: ExtractSelection, rangeOf: RangeOf, id: nat) returns (t: Tile)
    requires Accepted(sel, rangeOf) && ZoomOk(sel.worldMaxZoom) && IsWanted(WantedOf(sel, rangeOf), id)
    ensures Asked(sel, rangeOf, t) && IdOf(t) == id && id < MAX_SAFE
  {
    hide AreaOf, ZoomStartId, Accepted, Selected, TileId;
    AreaIsExact(sel, rangeOf);
    ZoomStartMonotone(sel.worldMaxZoom, PM_MAX_ZOOM + 1);
    var z := ZoomOfId(id, PM_MAX_ZOOM);
    IdRoundTrip(id, z);
    t := TileAt(id, z);
    WantedIsSelected(sel, rangeOf, t);
    IdIsSafe(t);
  }

  lemma AskedIsWanted(sel: ExtractSelection, rangeOf: RangeOf, t: Tile)
    requires Accepted(sel, rangeOf) && Asked(sel, rangeOf, t)
    ensures IsWanted(WantedOf(sel, rangeOf), IdOf(t)) && IdOf(t) < MAX_SAFE
  {
    hide AreaOf, WorldEnd, Accepted, Selected, TileId;
    WantedIsSelected(sel, rangeOf, t);
    IdIsSafe(t);
  }

  // ---- when a plan can be made -------------------------------------------------------------------------------------

  /** The blob the reader finds for a tile, if its walk ends and the tile is there. */
  function BlobOfTile(s: Source, t: Tile): Option<Blob> {
    if RootOf(s).Failure? then None else
      match SourceBlob(s, RootOf(s).value, IdOf(t), 0)
      case Success(Some((offset, length))) => Some(Blob(offset, length))
      case _ => None
  }

  /** Different blobs of the tiles asked for add up to a safe integer. */
  ghost predicate AskedAreSafe(s: Source, sel: ExtractSelection, rangeOf: RangeOf) {
    forall blobs: seq<Blob> ::
      BlobsInOrder(blobs) && (forall k :: 0 <= k < |blobs| ==> exists t: Tile :: Asked(sel, rangeOf, t) && BlobOfTile(s, t) == Some(blobs[k]))
      ==> TotalLength(blobs) <= MAX_SAFE
  }

  ghost predicate WalksEnd(s: Source, sel: ExtractSelection, rangeOf: RangeOf) {
    RootOf(s).Success? && forall t: Tile :: Asked(sel, rangeOf, t) ==> WalkEnds(s, RootOf(s).value, IdOf(t), 0)
  }

  ghost predicate SomeIsThere(s: Source, sel: ExtractSelection, rangeOf: RangeOf) {
    exists t: Tile :: Asked(sel, rangeOf, t) && BlobOfTile(s, t).Some?
  }

  ghost predicate TilesHaveLengths(s: Source, sel: ExtractSelection, rangeOf: RangeOf) {
    forall t: Tile :: Asked(sel, rangeOf, t) && BlobOfTile(s, t).Some? ==> BlobOfTile(s, t).value.length > 0
  }

  lemma WalksAreVisited(s: Source, sel: ExtractSelection, rangeOf: RangeOf)
    requires Accepted(sel, rangeOf) && ZoomOk(sel.worldMaxZoom) && GoodSource(s) && RootOf(s).Success?
    ensures VisitFrom(s, WantedOf(sel, rangeOf), RootOf(s).value, MAX_SAFE, 0).Success? <==> WalksEnd(s, sel, rangeOf)
  {
    hide Accepted, WalkEnds, WellFormed, SourceBlob, VisitFrom, AreaOf, WorldEnd, Asked, IsWanted, WantedOk, IdOf;
    var w := WantedOf(sel, rangeOf);
    WantedIsOk(sel, rangeOf);
    VisitSucceeds(s, w, RootOf(s).value, 0, MAX_SAFE, 0);
    if WalksEnd(s, sel, rangeOf) {
      forall id: nat | IsWanted(w, id) ensures WalkEnds(s, RootOf(s).value, id, 0) {
        var t := WantedIsAsked(sel, rangeOf, id);
      }
    }
    if AllEnd(s, w, RootOf(s).value, 0, MAX_SAFE, 0) {
      forall t: Tile | Asked(sel, rangeOf, t) ensures WalkEnds(s, RootOf(s).value, IdOf(t), 0) {
        AskedIsWanted(sel, rangeOf, t);
      }
    }
  }

  /** An entry pushed holds the blob of a tile asked for. */
  lemma PushedIsAsked(s: Source, sel: ExtractSelection, rangeOf: RangeOf, out: seq<PmEntry>, i: nat) returns (t: Tile)
    requires Accepted(sel, rangeOf) && ZoomOk(sel.worldMaxZoom) && Visited(s, WantedOf(sel, rangeOf), out) && i < |out|
    ensures Asked(sel, rangeOf, t) && BlobOfTile(s, t) == Some(Blob(out[i].offset, out[i].length))
  {
    hide Accepted, Visited, SourceBlob, AreaOf, WorldEnd, Asked, IsWanted, IdOf;
    PushedIsFromSource(s, WantedOf(sel, rangeOf), out, i);
    t := WantedIsAsked(sel, rangeOf, out[i].tileId);
    VisitedRoot(s, WantedOf(sel, rangeOf), out);
  }

  lemma VisitedRoot(s: Source, w: Wanted, out: seq<PmEntry>)
    requires Visited(s, w, out)
    ensures RootOf(s).Success?
  {
  }

  lemma AskedIsPushed(s: Source, sel: ExtractSelection, rangeOf: RangeOf, out: seq<PmEntry>, t: Tile) returns (i: nat)
    requires Accepted(sel, rangeOf) && ZoomOk(sel.worldMaxZoom) && Visited(s, WantedOf(sel, rangeOf), out)
    requires Asked(sel, rangeOf, t) && BlobOfTile(s, t).Some?
    ensures i < |out| && BlobOfTile(s, t) == Some(Blob(out[i].offset, out[i].length))
  {
    hide Accepted, Visited, SourceBlob, AreaOf, WorldEnd, Asked, IsWanted, IdOf;
    AskedIsWanted(sel, rangeOf, t);
    i := BlobIsPushed(s, WantedOf(sel, rangeOf), out, IdOf(t));
  }

  /** What is pushed can be finished into a plan exactly when some tile is there and all that are have lengths. */
  lemma FinishSucceeds(s: Source, sel: ExtractSelection, rangeOf: RangeOf, metadata: Bytes, out: seq<PmEntry>)
    requires Accepted(sel, rangeOf) && ZoomOk(sel.worldMaxZoom) && ZoomOk(sel.maxZoom) && Visited(s, WantedOf(sel, rangeOf), out)
    requires Lawful(s.z) && Supported(s.h.internalCompression) && AskedAreSafe(s, sel, rangeOf)
    ensures FinishPlan(s.z, s.h, sel, metadata, out).Success? <==> SomeIsThere(s, sel, rangeOf) && TilesHaveLengths(s, sel, rangeOf)
  {
    hide Accepted, Visited, AreaOf, WorldEnd, Asked, LayoutFor, BlobsOf, TotalLength, BlobOfTile, Flat, Sort, AddressedTiles, Lawful,
         OffsetsAgree, BlobsInOrder;
    var w := WantedOf(sel, rangeOf);
    PushedAreFew(s, w, out);
    PushedAgree(s, w, out);
    AreaIsExact(sel, rangeOf);
    if t: Tile :| Asked(sel, rangeOf, t) && BlobOfTile(s, t).Some? {
      var i := AskedIsPushed(s, sel, rangeOf, out, t);
    }
    if out != [] {
      var t := PushedIsAsked(s, sel, rangeOf, out, 0);
      forall k | 0 <= k < |BlobsOf(out)|
        ensures exists t: Tile :: Asked(sel, rangeOf, t) && BlobOfTile(s, t) == Some(BlobsOf(out)[k])
      {
        var i := BlobIsOfEntry(out, k);
        var t := PushedIsAsked(s, sel, rangeOf, out, i);
      }
      BlobsAreInOrder(out);
      LayoutSucceeds(s.z, s.h, sel, metadata, out, TotalLength(BlobsOf(out)), AddressedTiles(out));
      LengthsOfTiles(s, sel, rangeOf, out);
    }
  }

  lemma LengthsOfTiles(s: Source, sel: ExtractSelection, rangeOf: RangeOf, out: seq<PmEntry>)
    requires Accepted(sel, rangeOf) && ZoomOk(sel.worldMaxZoom) && Visited(s, WantedOf(sel, rangeOf), out)
    ensures HaveLengths(out) <==> TilesHaveLengths(s, sel, rangeOf)
  {
    hide Accepted, Visited, Asked, BlobOfTile;
    forall i | 0 <= i < |out| ensures TilesHaveLengths(s, sel, rangeOf) ==> out[i].length > 0 {
      var t := PushedIsAsked(s, sel, rangeOf, out, i);
    }
    forall t: Tile | Asked(sel, rangeOf, t) && BlobOfTile(s, t).Some?
      ensures HaveLengths(out) ==> BlobOfTile(s, t).value.length > 0
    {
      var i := AskedIsPushed(s, sel, rangeOf, out, t);
    }
  }

  /** What an extract needs of its source, as a reader of the source would put it. */
  ghost predicate Plannable(s: Source, sel: ExtractSelection, rangeOf: RangeOf) {
    && MayBeExtracted(sel, rangeOf)
    && s.h.clustered
    && MetadataOf(s).Success?
    && WalksEnd(s, sel, rangeOf)
    && SomeIsThere(s, sel, rangeOf)
    && TilesHaveLengths(s, sel, rangeOf)
  }

  /**
   * An extract of a well-formed source can be planned exactly when the selection is one the planner
   * takes on, the header can be read and says the archive is clustered, the metadata can be read, the
   * reader's walk to every tile asked for ends, one of them is there, and all that are have lengths.
   */
  lemma PlanSucceeds(z: Gzip, file: Bytes, sel: ExtractSelection, rangeOf: RangeOf)
    requires RangesFit(rangeOf) && Lawful(z)
    requires ReadPmHeader(HeadOf(file)).Success? ==>
               var s := SourceOf(z, file, ReadPmHeader(HeadOf(file)).value);
               GoodSource(s) && AskedAreSafe(s, sel, rangeOf)
    ensures PlanOf(z, file, sel, rangeOf).Success? <==>
              && ReadPmHeader(HeadOf(file)).Success?
              && Plannable(SourceOf(z, file, ReadPmHeader(HeadOf(file)).value), sel, rangeOf)
  {
    hide ReadPmHeader, GoodSource, AskedAreSafe, WalksEnd, SomeIsThere, TilesHaveLengths, FinishPlan, VisitFrom, MayBeExtracted,
         AreaOf, WorldEnd, TileCount, DecodeDirectory, Lawful, RangesFit, HeadOf;
    AcceptedWhen(sel, rangeOf);
    var header := ReadPmHeader(HeadOf(file));
    if SelectionProblem(sel, rangeOf).None? && header.Success? {
      var s := SourceOf(z, file, header.value);
      var w := WantedOf(sel, rangeOf);
      WantedIsOk(sel, rangeOf);
      if RootOf(s).Success? {
        WalksAreVisited(s, sel, rangeOf);
        var out := VisitFrom(s, w, RootOf(s).value, MAX_SAFE, 0);
        if out.Success? && MetadataOf(s).Success? {
          FinishSucceeds(s, sel, rangeOf, MetadataOf(s).value, out.value);
        }
      } else {
        NoRootNoWalks(s, sel, rangeOf);
      }
    }
  }

  lemma NoRootNoWalks(s: Source, sel: ExtractSelection, rangeOf: RangeOf)
    requires RootOf(s).Failure?
    ensures !WalksEnd(s, sel, rangeOf)
  {
  }

  /** An archive that is not clustered is refused. */
  lemma UnclusteredIsRefused(z: Gzip, file: Bytes, sel: ExtractSelection, rangeOf: RangeOf)
    requires MayBeExtracted(sel, rangeOf) && ReadPmHeader(HeadOf(file)).Success? && !ReadPmHeader(HeadOf(file)).value.clustered
    ensures PlanOf(z, file, sel, rangeOf) == Failure("the source archive is not clustered")
  {
    hide ReadPmHeader, HeadOf, MayBeExtracted, TileCount;
    AcceptedWhen(sel, rangeOf);
  }

  // ---- when the archive can be written -----------------------------------------------------------------------------

  lemma {:induction false} TileDataSucceeds(file: Bytes, base: nat, blobs: seq<Blob>)
    requires forall k :: 0 <= k < |blobs| ==> ReadRange(file, base + blobs[k].offset, blobs[k].length).Success?
    ensures TileData(file, base, blobs).Success?
  {
    if blobs != [] {
      var init := blobs[..|blobs| - 1];
      assert forall k :: 0 <= k < |init| ==> init[k] == blobs[k];
      TileDataSucceeds(file, base, init);
    }
  }

  /** The reader can read every tile asked for. */
  ghost predicate TilesCanBeRead(z: Gzip, file: Bytes, h: PmHeader, sel: ExtractSelection, rangeOf: RangeOf) {
    forall t: Tile :: Asked(sel, rangeOf, t) ==> WalkTile(z, file, h, IdOf(t)).Success?
  }

  /** A tile asked for can be read when its blob can, if it has one. */
  lemma TileIsItsBlob(z: Gzip, file: Bytes, sel: ExtractSelection, rangeOf: RangeOf, plan: Plan, t: Tile)
    requires Planned(z, file, sel, rangeOf, plan) && Asked(sel, rangeOf, t)
    ensures var s := SourceOf(z, file, plan.source);
            WalkTile(z, file, plan.source, IdOf(t)).Success? <==>
              match BlobOfTile(s, t) {
                case None => true
                case Some(b) => ReadRange(file, plan.source.at.tileDataOffset + b.offset, b.length).Success?
              }
  {
    hide Planned, ReadRange, WalkFrom, WellFormed, SourceBlob, Selected, TileId, BlobAt, VisitFrom, LayoutFor, Accepted, AreaOf, WorldEnd, IsWanted;
    var s := SourceOf(z, file, plan.source);
    PlanParts(z, file, sel, rangeOf, plan);
    PlannedIsGood(z, file, sel, rangeOf, plan);
    AskedIsWanted(sel, rangeOf, t);
    PlanIsExact(z, file, sel, rangeOf, plan, IdOf(t));
    WalkReadsTheBlob(s, s.h.at.rootDirectoryOffset, s.h.at.rootDirectoryLength, RootOf(s).value, 0, MAX_SAFE, IdOf(t), 0);
  }

  /** A planned extract can be written exactly when the reader can read every tile asked for from the source. */
  lemma ArchiveSucceeds(z: Gzip, file: Bytes, sel: ExtractSelection, rangeOf: RangeOf, plan: Plan)
    requires Planned(z, file, sel, rangeOf, plan) && ZoomOk(plan.selection.worldMaxZoom) && ZoomOk(plan.selection.maxZoom)
    ensures ArchiveOf(z, file, plan).Success? <==> TilesCanBeRead(z, file, plan.source, sel, rangeOf)
  {
    hide Planned, ReadRange, WalkTile, BlobOfTile, Asked, VisitFrom, LayoutOf, TileData, BlobsOf, TotalLength, AddressedTiles, Sort,
         Accepted, AreaOf, WorldEnd, GoodSource, OffsetsAgree, Flat, Front;
    PlanParts(z, file, sel, rangeOf, plan);
    var s, w := SourceOf(z, file, plan.source), WantedOf(sel, rangeOf);
    var base := plan.source.at.tileDataOffset;
    var out := VisitFrom(s, w, RootOf(s).value, MAX_SAFE, 0).value;
    PlannedIsGood(z, file, sel, rangeOf, plan);
    WantedIsOk(sel, rangeOf);
    PushedAreFew(s, w, out);
    PushedAgree(s, w, out);
    if TilesCanBeRead(z, file, plan.source, sel, rangeOf) {
      forall k | 0 <= k < |plan.blobs|
        ensures ReadRange(file, base + plan.blobs[k].offset, plan.blobs[k].length).Success?
      {
        var i := BlobIsOfEntry(out, k);
        var t := PushedIsAsked(s, sel, rangeOf, out, i);
        TileIsItsBlob(z, file, sel, rangeOf, plan, t);
      }
      TileDataSucceeds(file, base, plan.blobs);
    }
    if TileData(file, base, plan.blobs).Success? {
      forall t: Tile | Asked(sel, rangeOf, t) ensures WalkTile(z, file, plan.source, IdOf(t)).Success? {
        TileIsItsBlob(z, file, sel, rangeOf, plan, t);
        if BlobOfTile(s, t).Some? {
          var i := AskedIsPushed(s, sel, rangeOf, out, t);
          var k := BlobOfEntry(out, i);
          TileDataNeedsAll(file, base, plan.blobs, k);
        }
      }
    }
  }

  /**
   * Whatever a reader can read can be extracted: of a well-formed clustered source whose metadata and
   * selected tiles can be read, some of them there and none empty, an extract is planned and written.
   */
  lemma WhatCanBeReadIsExtracted(z: Gzip, file: Bytes, sel: ExtractSelection, rangeOf: RangeOf, h: PmHeader)
    requires RangesFit(rangeOf) && Lawful(z) && ReadPmHeader(HeadOf(file)) == Success(h)
    requires GoodSource(SourceOf(z, file, h)) && AskedAreSafe(SourceOf(z, file, h), sel, rangeOf)
    requires Plannable(SourceOf(z, file, h), sel, rangeOf) && TilesCanBeRead(z, file, h, sel, rangeOf)
    ensures PlanOf(z, file, sel, rangeOf).Success?
    ensures var plan := PlanOf(z, file, sel, rangeOf).value;
            && plan.source == h && plan.selection == sel && ZoomOk(plan.selection.worldMaxZoom) && ZoomOk(plan.selection.maxZoom)
            && ArchiveOf(z, file, plan).Success?
  {
    hide ReadPmHeader, HeadOf, Plannable, GoodSource, AskedAreSafe, TilesCanBeRead, PlanOf, ArchiveOf, Lawful, RangesFit, Accepted, VisitFrom, LayoutOf;
    PlanSucceeds(z, file, sel, rangeOf);
    var plan := PlanOf(z, file, sel, rangeOf).value;
    PlanReadsTheHeader(z, file, sel, rangeOf, plan);
    PlanParts(z, file, sel, rangeOf, plan);
    ArchiveSucceeds(z, file, sel, rangeOf, plan);
  }

  lemma PlanReadsTheHeader(z: Gzip, file: Bytes, sel: ExtractSelection, rangeOf: RangeOf, plan: Plan)
    requires PlanOf(z, file, sel, rangeOf) == Success(plan)
    ensures ReadPmHeader(HeadOf(file)) == Success(plan.source)
  {
    hide ReadPmHeader, HeadOf, VisitFrom, LayoutFor, AreaOf, DecodeDirectory, SelectionProblem;
  }
}
