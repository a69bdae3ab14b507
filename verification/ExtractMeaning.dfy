/**
 * What an extract is for: reading any tile from the archive written gives what reading it from the
 * source gives, when the selection asks for the tile, and nothing otherwise
 * (packages/offline/src/pmtiles-extract.ts and pmtiles.ts together).
 */
module ExtractMeaning {
  import opened Wrappers
  import opened Varints
  import opened TileIds
  import opened Directories
  import opened Headers
  import opened Archives
  import opened DirectoryTree
  import opened Selection
  import opened ExtractPlan
  import opened Extract
  import opened Sorting

  // ---- how many runs a plan can have -----------------------------------------------------------------

  /** How many wanted ids are before `id`. */
  function Rank(w: Wanted, id: nat): nat {
    if id < w.worldEnd then id else w.worldEnd + CountBelow(w.area, id)
  }

  lemma RankGrows(w: Wanted, a: nat, b: nat)
    requires WantedOk(w) && a < b && IsWanted(w, a)
    ensures Rank(w, a) < Rank(w, b)
  {
    CountBelowSplits(w.area, a);
    CountBelowSplits(w.area, b);
    if a >= w.worldEnd {
      var i :| 0 <= i < |w.area| && w.area[i] == a;
      assert CountBelow(w.area, a) <= i < CountBelow(w.area, b);
    }
  }

  lemma RankIsBounded(w: Wanted, id: nat)
    requires WantedOk(w) && IsWanted(w, id)
    ensures Rank(w, id) < w.worldEnd + |w.area|
  {
    CountBelowSplits(w.area, id);
    if id >= w.worldEnd {
      var i :| 0 <= i < |w.area| && w.area[i] == id;
      assert CountBelow(w.area, id) <= i;
    }
  }

  lemma {:induction false} RankAtLeast(w: Wanted, es: seq<PmEntry>, i: nat)
    requires WantedOk(w) && StrictlySorted(es) && i < |es|
    requires forall j :: 0 <= j < |es| ==> IsWanted(w, es[j].tileId)
    ensures Rank(w, es[i].tileId) >= i
  {
    if i > 0 {
      RankAtLeast(w, es, i - 1);
      RankGrows(w, es[i - 1].tileId, es[i].tileId);
    }
  }

  /** A plan has no more runs than there are wanted ids. */
  lemma RunsAreFew(w: Wanted, es: seq<PmEntry>)
    requires WantedOk(w) && StrictlySorted(es) && forall j :: 0 <= j < |es| ==> IsWanted(w, es[j].tileId)
    ensures |es| <= w.worldEnd + |w.area|
  {
    if es != [] {
      RankAtLeast(w, es, |es| - 1);
      RankIsBounded(w, es[|es| - 1].tileId);
    }
  }

  // ---- flat lists ----------------------------------------------------------------------------------------

  lemma {:induction false} FlatIsSorted(es: seq<PmEntry>, lo: nat, hi: nat)
    requires Flat(es, lo, hi)
    ensures StrictlySorted(es)
    ensures forall i :: 0 <= i < |es| ==> lo <= es[i].tileId && es[i].runLength > 0 && RunEnd(es[i]) <= hi
  {
    if es != [] {
      FlatIsSorted(es[1..], RunEnd(es[0]), hi);
      forall i | 0 <= i < |es|
        ensures lo <= es[i].tileId && es[i].runLength > 0 && RunEnd(es[i]) <= hi
      {
        if i > 0 {
          assert es[i] == es[1..][i - 1];
        }
      }
      forall i, j | 0 <= i < j < |es|
        ensures es[i].tileId < es[j].tileId
      {
        assert es[j] == es[1..][j - 1];
        if i > 0 {
          assert es[i] == es[1..][i - 1];
        }
      }
    }
  }

  lemma {:induction false} BlobAtStart(es: seq<PmEntry>, lo: nat, hi: nat, i: nat)
    requires Flat(es, lo, hi) && i < |es|
    ensures BlobAt(es, es[i].tileId) == Some((es[i].offset, es[i].length))
  {
    if i > 0 {
      FlatIsSorted(es[1..], RunEnd(es[0]), hi);
      assert es[i] == es[1..][i - 1];
      BlobAtStart(es[1..], RunEnd(es[0]), hi, i - 1);
    }
  }

  /** On a flat list the entry for an id, if any, names the blob of the id. */
  lemma {:induction false} EntryForFlat(es: seq<PmEntry>, lo: nat, hi: nat, id: nat)
    requires Flat(es, lo, hi)
    ensures match EntryFor(es, id)
            case None => BlobAt(es, id) == None
            case Some(e) => e in es && e.runLength > 0 && BlobAt(es, id) == Some((e.offset, e.length))
  {
    if es != [] {
      EntryForFlat(es[1..], RunEnd(es[0]), hi, id);
      if |es| > 1 && es[1].tileId <= id {
        assert RunEnd(es[0]) <= es[1].tileId;
      } else {
        BlobOutsideAfter(es[1..], RunEnd(es[0]), hi, id);
      }
    }
  }

  lemma BlobOutsideAfter(es: seq<PmEntry>, lo: nat, hi: nat, id: nat)
    requires Flat(es, lo, hi) && (es != [] ==> id < es[0].tileId)
    ensures BlobAt(es, id) == None
  {
    if es != [] {
      BlobOutside(es[1..], RunEnd(es[0]), hi, id);
    }
  }

  lemma {:induction false} AddressedIsBounded(es: seq<PmEntry>, lo: nat, hi: nat)
    requires Flat(es, lo, hi) && lo <= hi
    ensures AddressedTiles(es) <= hi - lo
  {
    if es != [] {
      AddressedFromFront(es);
      AddressedIsBounded(es[1..], RunEnd(es[0]), hi);
    }
  }

  lemma {:induction false} AddressedFromFront(es: seq<PmEntry>)
    requires es != []
    ensures AddressedTiles(es) == es[0].runLength + AddressedTiles(es[1..])
  {
    if |es| > 1 {
      AddressedFromFront(es[..|es| - 1]);
      assert es[..|es| - 1][1..] == es[1..][..|es| - 2];
    }
  }

  /** The ids below `hi` that have a blob. */
  ghost function IdsWithBlob(es: seq<PmEntry>, hi: nat): set<nat> {
    set id: nat | id < hi && BlobAt(es, id).Some?
  }

  ghost function RunIds(from: nat, length: nat): (ids: set<nat>)
    ensures |ids| == length && forall id :: id in ids <==> from <= id < from + length
  {
    if length == 0 then {} else RunIds(from, length - 1) + {from + length - 1}
  }

  lemma IdsOfFirst(es: seq<PmEntry>, lo: nat, hi: nat)
    requires Flat(es, lo, hi) && es != []
    ensures |IdsWithBlob(es, hi)| == es[0].runLength + |IdsWithBlob(es[1..], hi)|
  {
    var first, rest := RunIds(es[0].tileId, es[0].runLength), IdsWithBlob(es[1..], hi);
    forall id | id in rest ensures id >= RunEnd(es[0]) {
      if id < RunEnd(es[0]) { BlobOutside(es[1..], RunEnd(es[0]), hi, id); }
    }
    assert IdsWithBlob(es, hi) == first + rest && first !! rest;
  }

  /** The tiles addressed are the ids that have a blob: as many as the runs are long. */
  lemma {:induction false} AddressedAreTheIds(es: seq<PmEntry>, lo: nat, hi: nat)
    requires Flat(es, lo, hi)
    ensures AddressedTiles(es) == |IdsWithBlob(es, hi)|
  {
    if es == [] {
      assert IdsWithBlob(es, hi) == {};
    } else {
      AddressedFromFront(es);
      IdsOfFirst(es, lo, hi);
      hide IdsWithBlob;
      AddressedAreTheIds(es[1..], RunEnd(es[0]), hi);
    }
  }

  /** Re-pointing the entries moves the blob of every id with them. */
  lemma {:induction false} MovedBlobs(es: seq<PmEntry>, blobs: seq<Blob>, lo: nat, hi: nat, id: nat)
    requires Flat(es, lo, hi)
    ensures Flat(Moved(es, blobs), lo, hi)
    ensures BlobAt(Moved(es, blobs), id) ==
            match BlobAt(es, id) {
              case None => None
              case Some((offset, length)) => Some((NewOffset(blobs, offset), length))
            }
  {
    if es != [] {
      MovedBlobs(es[1..], blobs, RunEnd(es[0]), hi, id);
      assert Moved(es, blobs)[1..] == Moved(es[1..], blobs);
    }
  }

  // ---- the plan of a good source -------------------------------------------------------------------------

  function RootOf(s: Source): Result<seq<PmEntry>> {
    ReadDirectory(s.z, s.file, s.h.internalCompression, s.h.at.rootDirectoryOffset, s.h.at.rootDirectoryLength)
  }

  /** A clustered source: a well-formed tree, in which one offset always has one length. */
  ghost predicate GoodSource(s: Source) {
    RootOf(s).Success? ==>
      && WellFormed(s, RootOf(s).value, 0, MAX_SAFE, 0)
      && forall i: nat, j: nat :: SameOffset(SourceBlob(s, RootOf(s).value, i, 0), SourceBlob(s, RootOf(s).value, j, 0)) ==>
           SourceBlob(s, RootOf(s).value, i, 0) == SourceBlob(s, RootOf(s).value, j, 0)
  }

  predicate SameOffset(a: Result<Option<(int, nat)>>, b: Result<Option<(int, nat)>>) {
    a.Success? && a.value.Some? && b.Success? && b.value.Some? && a.value.value.0 == b.value.value.0
  }

  /** A plan made for a good source. */
  ghost predicate Planned(z: Gzip, file: Bytes, sel: ExtractSelection, rangeOf: RangeOf, plan: Plan) {
    RangesFit(rangeOf) && PlanOf(z, file, sel, rangeOf) == Success(plan) && GoodSource(SourceOf(z, file, plan.source))
  }

  lemma PlanParts(z: Gzip, file: Bytes, sel: ExtractSelection, rangeOf: RangeOf, plan: Plan)
    requires Planned(z, file, sel, rangeOf, plan)
    ensures Accepted(sel, rangeOf) && plan.selection == sel && ReadPmHeader(HeadOf(file)) == Success(plan.source)
    ensures 0 <= sel.worldMaxZoom <= sel.maxZoom <= PM_MAX_ZOOM
    ensures var s := SourceOf(z, file, plan.source);
            && RootOf(s).Success?
            && var out := VisitFrom(s, WantedOf(sel, rangeOf), RootOf(s).value, MAX_SAFE, 0);
               out.Success? && out.value != [] && plan.entries == Sort(out.value, ById)
    ensures plan.blobs == BlobsOf(plan.entries) && plan.tileBytes == TotalLength(plan.blobs)
    ensures plan.addressedTiles == AddressedTiles(plan.entries)
    ensures LayoutOf(z, plan).Success? && LayoutOf(z, plan).value.totalBytes == plan.totalBytes
  {
    hide ReadPmHeader, Unpack, VisitFrom, LayoutFor, BlobsOf, TotalLength, AddressedTiles, DecompressInternal, RangesFit, WorldEnd, AreaOf, GoodSource;
  }

  lemma PlannedIsGood(z: Gzip, file: Bytes, sel: ExtractSelection, rangeOf: RangeOf, plan: Plan)
    requires Planned(z, file, sel, rangeOf, plan)
    ensures GoodSource(SourceOf(z, file, plan.source))
  {
    hide PlanOf, GoodSource;
  }

  lemma SortedAlready(es: seq<PmEntry>)
    requires StrictlySorted(es)
    ensures Sort(es, ById) == es
  {
    SortOfSorted(es, ById);
  }

  /** What `VisitExact` says of the plan's entries. */
  lemma PlanIsExact(z: Gzip, file: Bytes, sel: ExtractSelection, rangeOf: RangeOf, plan: Plan, id: nat)
    requires Planned(z, file, sel, rangeOf, plan)
    ensures Accepted(sel, rangeOf) && RootOf(SourceOf(z, file, plan.source)).Success?
    ensures var s := SourceOf(z, file, plan.source);
            VisitIsExact(s, WantedOf(sel, rangeOf), RootOf(s).value, 0, MAX_SAFE, 0, id, plan.entries)
  {
    hide Planned, Accepted, WellFormed, VisitIsExact, VisitFrom;
    PlanParts(z, file, sel, rangeOf, plan);
    PlannedIsGood(z, file, sel, rangeOf, plan);
    WantedIsOk(sel, rangeOf);
    var s := SourceOf(z, file, plan.source);
    VisitExact(s, WantedOf(sel, rangeOf), RootOf(s).value, 0, MAX_SAFE, 0, id);
    var out := VisitFrom(s, WantedOf(sel, rangeOf), RootOf(s).value, MAX_SAFE, 0).value;
    ExactIsFlat(s, WantedOf(sel, rangeOf), RootOf(s).value, 0, MAX_SAFE, 0, id, out);
    FlatIsSorted(out, 0, MAX_SAFE);
    SortedAlready(out);
  }

  lemma ExactIsFlat(s: Source, w: Wanted, es: seq<PmEntry>, lo: nat, hi: nat, depth: nat, id: nat, out: seq<PmEntry>)
    requires depth <= DEEPEST && VisitIsExact(s, w, es, lo, hi, depth, id, out)
    ensures Flat(out, lo, hi)
  {
  }

  /** An entry's own first id is wanted, and its blob is the source's. */
  lemma EntryIsFromSource(z: Gzip, file: Bytes, sel: ExtractSelection, rangeOf: RangeOf, plan: Plan, i: nat)
    requires Planned(z, file, sel, rangeOf, plan) && i < |plan.entries|
    ensures Accepted(sel, rangeOf) && RootOf(SourceOf(z, file, plan.source)).Success?
    ensures var e, s := plan.entries[i], SourceOf(z, file, plan.source);
            && IsWanted(WantedOf(sel, rangeOf), e.tileId)
            && SourceBlob(s, RootOf(s).value, e.tileId, 0) == Success(Some((e.offset, e.length)))
  {
    hide Planned, Accepted, GoodSource, IsWanted, SourceBlob, BlobAt;
    var id := plan.entries[i].tileId;
    PlanIsExact(z, file, sel, rangeOf, plan, id);
    FlatIsSorted(plan.entries, 0, MAX_SAFE);
    BlobAtStart(plan.entries, 0, MAX_SAFE, i);
  }

  lemma EntriesAgree(z: Gzip, file: Bytes, sel: ExtractSelection, rangeOf: RangeOf, plan: Plan)
    requires Planned(z, file, sel, rangeOf, plan)
    ensures OffsetsAgree(plan.entries)
  {
    hide Planned, RangesFit, SourceBlob, WellFormed;
    PlannedIsGood(z, file, sel, rangeOf, plan);
    var s := SourceOf(z, file, plan.source);
    forall i, j | 0 <= i < j < |plan.entries| && plan.entries[i].offset == plan.entries[j].offset
      ensures plan.entries[i].length == plan.entries[j].length
    {
      EntryIsFromSource(z, file, sel, rangeOf, plan, i);
      EntryIsFromSource(z, file, sel, rangeOf, plan, j);
      var a, b := SourceBlob(s, RootOf(s).value, plan.entries[i].tileId, 0), SourceBlob(s, RootOf(s).value, plan.entries[j].tileId, 0);
      assert SameOffset(a, b);
    }
  }

  lemma EntriesAreFew(z: Gzip, file: Bytes, sel: ExtractSelection, rangeOf: RangeOf, plan: Plan)
    requires Planned(z, file, sel, rangeOf, plan)
    ensures Flat(plan.entries, 0, MAX_SAFE) && 0 < |plan.entries| <= MAX_EXTRACT_TILES
  {
    hide Planned, Accepted, GoodSource, IsWanted, SourceBlob, BlobAt, VisitFrom, LayoutFor, BlobsOf, TotalLength, AreaOf, WorldEnd;
    PlanParts(z, file, sel, rangeOf, plan);
    PlanIsExact(z, file, sel, rangeOf, plan, 0);
    FlatIsSorted(plan.entries, 0, MAX_SAFE);
    WantedIsOk(sel, rangeOf);
    AreaIsExact(sel, rangeOf);
    forall i | 0 <= i < |plan.entries|
      ensures IsWanted(WantedOf(sel, rangeOf), plan.entries[i].tileId)
    {
      EntryIsFromSource(z, file, sel, rangeOf, plan, i);
    }
    RunsAreFew(WantedOf(sel, rangeOf), plan.entries);
  }

  // ---- the archive ---------------------------------------------------------------------------------------

  lemma {:induction false} NewOffsetFits(blobs: seq<Blob>, k: nat)
    requires BlobsInOrder(blobs) && k < |blobs|
    ensures NewOffset(blobs, blobs[k].offset) + blobs[k].length <= TotalLength(blobs)
  {
    var init := blobs[..|blobs| - 1];
    if k < |init| {
      assert blobs[k] == init[k] && blobs[k].offset < blobs[|blobs| - 1].offset;
      NewOffsetFits(init, k);
    }
  }

  /** The blob of an entry, among the plan's blobs. */
  lemma BlobOfEntry(es: seq<PmEntry>, i: nat) returns (k: nat)
    requires OffsetsAgree(es) && i < |es|
    ensures BlobsInOrder(BlobsOf(es)) && k < |BlobsOf(es)| && BlobsOf(es)[k] == Blob(es[i].offset, es[i].length)
  {
    hide BlobsOf, FirstLength;
    BlobsAreInOrder(es);
    assert Names(BlobsOf(es), es[i].offset);
    k :| 0 <= k < |BlobsOf(es)| && BlobsOf(es)[k].offset == es[i].offset;
    FirstLengthIsTheLength(es, i);
  }

  lemma BuildNeedsLengths(z: Gzip, compression: nat, es: seq<PmEntry>)
    requires HaveOffsets(es) && Build(z, compression, es).Success?
    ensures HaveLengths(es) && Supported(compression)
  {
    hide BuildWith, LeavesFrom, DirectoryNums, EncodeNums;
  }

  lemma MovedIsGood(z: Gzip, compression: nat, es: seq<PmEntry>)
    requires Flat(es, 0, MAX_SAFE) && OffsetsAgree(es) && TotalLength(BlobsOf(es)) <= MAX_SAFE
    requires Build(z, compression, Moved(es, BlobsOf(es))).Success?
    ensures GoodEntries(Moved(es, BlobsOf(es)))
  {
    hide BlobsOf, TotalLength, NewOffset, Build, OffsetsAgree, BlobsInOrder;
    var moved := Moved(es, BlobsOf(es));
    BuildNeedsLengths(z, compression, moved);
    FlatIsSorted(es, 0, MAX_SAFE);
    forall i | 0 <= i < |moved|
      ensures moved[i].tileId <= MAX_SAFE && moved[i].offset < MAX_SAFE && moved[i].length <= MAX_SAFE && moved[i].runLength <= MAX_SAFE
    {
      var k := BlobOfEntry(es, i);
      NewOffsetFits(BlobsOf(es), k);
      assert moved[i].length > 0;
    }
  }

  lemma {:induction false} BlobsAreFew(es: seq<PmEntry>)
    ensures |OffsetKeys(es)| <= |es|
  {
    if es != [] {
      BlobsAreFew(es[..|es| - 1]);
    }
  }

  /** Where each part of a written archive is, and that its header reads back. */
  lemma ArchiveParts(z: Gzip, file: Bytes, plan: Plan, archive: Bytes) returns (layout: Layout, built: Built, data: Bytes)
    requires ZoomOk(plan.selection.worldMaxZoom) && ZoomOk(plan.selection.maxZoom)
    requires ArchiveOf(z, file, plan) == Success(archive)
    ensures LayoutOf(z, plan) == Success(layout)
    ensures Build(z, plan.source.internalCompression, Moved(plan.entries, plan.blobs)) == Success(built)
    ensures TileData(file, plan.source.at.tileDataOffset, plan.blobs) == Success(data)
    ensures layout.root == built.root && layout.leaves == built.leaves && layout.head == EncodeHeader(layout.header)
    ensures layout.header.internalCompression == plan.source.internalCompression
    ensures var at := layout.header.at;
            && at.rootDirectoryOffset == PM_HEADER_BYTES && at.rootDirectoryLength == |layout.root|
            && at.metadataOffset == at.rootDirectoryOffset + |layout.root| && at.metadataLength == |layout.metadata|
            && at.leafDirectoryOffset == at.metadataOffset + |layout.metadata| && at.leafDirectoryLength == |layout.leaves|
            && at.tileDataOffset == at.leafDirectoryOffset + |layout.leaves| && at.tileDataLength == plan.tileBytes
            && layout.totalBytes == at.tileDataOffset + plan.tileBytes
            && at.numAddressedTiles == plan.addressedTiles && at.numTileEntries == |plan.entries| && at.numTileContents == |plan.blobs|
    ensures archive == layout.head + layout.root + layout.metadata + layout.leaves + data
  {
    hide Build, EncodeHeader, CompressInternal, Moved, TileData;
    layout := LayoutOf(z, plan).value;
    built := Build(z, plan.source.internalCompression, Moved(plan.entries, plan.blobs)).value;
    data := TileData(file, plan.source.at.tileDataOffset, plan.blobs).value;
  }

  /** Reading the parts of five pieces laid one after another. */
  lemma ReadPieces(head: Bytes, root: Bytes, metadata: Bytes, leaves: Bytes, data: Bytes, offset: nat, length: nat)
    ensures var b := head + root + metadata + leaves + data;
            var leafAt := |head| + |root| + |metadata|;
            && ReadRange(b, |head|, |root|) == Success(root)
            && (offset + length <= |leaves| ==> ReadRange(b, leafAt + offset, length) == Success(leaves[offset..offset + length]))
            && (offset + length <= |data| ==> ReadRange(b, leafAt + |leaves| + offset, length) == Success(data[offset..offset + length]))
  {
    var b := head + root + metadata + leaves + data;
    var leafAt := |head| + |root| + |metadata|;
    assert b[|head|..|head| + |root|] == root;
    if offset + length <= |leaves| {
      assert b[leafAt + offset..leafAt + offset + length] == leaves[offset..offset + length];
    }
    if offset + length <= |data| {
      assert b[leafAt + |leaves| + offset..leafAt + |leaves| + offset + length] == data[offset..offset + length];
    }
  }

  /** An archive whose directories are `built` from `moved`, laid out as its header says. */
  ghost predicate Holds(z: Gzip, archive: Bytes, h: PmHeader, moved: seq<PmEntry>) {
    && HaveOffsets(moved) && Build(z, h.internalCompression, moved).Success?
    && var built := Build(z, h.internalCompression, moved).value;
       && ReadRange(archive, h.at.rootDirectoryOffset, h.at.rootDirectoryLength) == Success(built.root)
       && forall o: nat, n: nat :: LeafIsThere(archive, h, built.leaves, o, n)
  }

  predicate LeafIsThere(archive: Bytes, h: PmHeader, leaves: Bytes, o: nat, n: nat) {
    o + n <= |leaves| ==> ReadRange(archive, h.at.leafDirectoryOffset + o, n) == Success(leaves[o..o + n])
  }

  function TileRead(archive: Bytes, h: PmHeader, found: Option<PmEntry>): Result<Option<Bytes>> {
    match found
    case None => Success(None)
    case Some(e) =>
      var tile :- ReadRange(archive, h.at.tileDataOffset + e.offset, e.length);
      Success(Some(tile))
  }

  /** The reader's walk through the written directories finds the entry the flat list holds. */
  lemma WalkFindsTheEntry(z: Gzip, archive: Bytes, h: PmHeader, moved: seq<PmEntry>, id: nat)
    requires Lawful(z) && Supported(h.internalCompression) && Holds(z, archive, h, moved)
    requires GoodEntries(moved) && 0 < |moved| <= MAX_TREE_ENTRIES && forall i :: 0 <= i < |moved| ==> moved[i].runLength > 0
    ensures WalkTile(z, archive, h, id) == TileRead(archive, h, EntryFor(moved, id))
  {
    hide Build, Unpack, EntryFor, Lookup, GoodEntries, Lawful, WalkFrom, StrictlySorted, ReadRange;
    var c := h.internalCompression;
    var built := Build(z, c, moved).value;
    TreeLookup(z, c, moved, id);
    var root := Unpack(z, c, built.root).value;
    WalkStep(z, archive, h, h.at.rootDirectoryOffset, h.at.rootDirectoryLength, id, 0);
    LookupFindsTheEntry(root, id);
    EntryForIsOneOf(moved, id);
    var found := EntryFor(root, id);
    if found.Some? && found.value.runLength == 0 {
      var e := found.value;
      assert LeafIsThere(archive, h, built.leaves, e.offset, e.length);
      var leaf := Unpack(z, c, built.leaves[e.offset..e.offset + e.length]).value;
      WalkStep(z, archive, h, h.at.leafDirectoryOffset + e.offset, e.length, id, 1);
      LookupFindsTheEntry(leaf, id);
    }
  }

  // ---- the theorem ---------------------------------------------------------------------------------------

  /** Everything the reader's walk needs of a written archive. */
  lemma ArchiveHolds(z: Gzip, file: Bytes, sel: ExtractSelection, rangeOf: RangeOf, plan: Plan, archive: Bytes)
    returns (h: PmHeader, data: Bytes)
    requires Planned(z, file, sel, rangeOf, plan) && plan.totalBytes <= MAX_SAFE
    requires ZoomOk(plan.selection.worldMaxZoom) && ZoomOk(plan.selection.maxZoom)
    requires ArchiveOf(z, file, plan) == Success(archive)
    ensures ReadPmHeader(archive) == Success(h) && Supported(h.internalCompression)
    ensures LayoutOf(z, plan).Success? && SafeSections(LayoutOf(z, plan).value.header.at)
    ensures Holds(z, archive, h, Moved(plan.entries, plan.blobs)) && GoodEntries(Moved(plan.entries, plan.blobs))
    ensures TileData(file, plan.source.at.tileDataOffset, plan.blobs) == Success(data)
    ensures forall o: nat, n: nat :: DataIsThere(archive, h, data, o, n)
  {
    hide Planned, Build, EncodeHeader, ReadPmHeader, TileData, ArchiveOf, LayoutOf, ReadRange, GoodEntries, Moved, SafeSections,
         BlobsOf, TotalLength, AddressedTiles, VisitFrom, Accepted;
    PlanParts(z, file, sel, rangeOf, plan);
    EntriesAreFew(z, file, sel, rangeOf, plan);
    EntriesAgree(z, file, sel, rangeOf, plan);
    var layout, built, d := ArchiveParts(z, file, plan, archive);
    data := d;
    h := layout.header;
    BuildNeedsLengths(z, plan.source.internalCompression, Moved(plan.entries, plan.blobs));
    MovedIsGood(z, plan.source.internalCompression, plan.entries);
    AddressedIsBounded(plan.entries, 0, MAX_SAFE);
    BlobsOfAreFew(plan.entries);
    SectionsAreSafe(h.at);
    HeaderRoundTrip(h, layout.root + layout.metadata + layout.leaves + data);
    assert archive == layout.head + (layout.root + layout.metadata + layout.leaves + data);
    ReadPieces(layout.head, layout.root, layout.metadata, layout.leaves, data, 0, 0);
    forall o: nat, n: nat
      ensures LeafIsThere(archive, h, built.leaves, o, n) && DataIsThere(archive, h, data, o, n)
    {
      ReadPieces(layout.head, layout.root, layout.metadata, layout.leaves, data, o, n);
    }
  }

  predicate DataIsThere(archive: Bytes, h: PmHeader, data: Bytes, o: nat, n: nat) {
    o + n <= |data| ==> ReadRange(archive, h.at.tileDataOffset + o, n) == Success(data[o..o + n])
  }

  lemma BlobsOfAreFew(es: seq<PmEntry>)
    ensures |BlobsOf(es)| <= |es|
  {
    BlobsAreFew(es);
  }

  lemma SectionsAreSafe(s: Sections)
    requires s.rootDirectoryOffset <= MAX_SAFE && s.rootDirectoryLength <= MAX_SAFE && s.metadataOffset <= MAX_SAFE
    requires s.metadataLength <= MAX_SAFE && s.leafDirectoryOffset <= MAX_SAFE && s.leafDirectoryLength <= MAX_SAFE
    requires s.tileDataOffset <= MAX_SAFE && s.tileDataLength <= MAX_SAFE && s.numAddressedTiles <= MAX_SAFE
    requires s.numTileEntries <= MAX_SAFE && s.numTileContents <= MAX_SAFE
    ensures SafeSections(s)
  {
  }

  /** The tile read for an id from the archive is the blob the plan's entries name for it, read from the source. */
  lemma ArchiveTile(z: Gzip, file: Bytes, plan: Plan, archive: Bytes, h: PmHeader, data: Bytes, id: nat)
    requires Flat(plan.entries, 0, MAX_SAFE) && OffsetsAgree(plan.entries) && plan.blobs == BlobsOf(plan.entries)
    requires TileData(file, plan.source.at.tileDataOffset, plan.blobs) == Success(data)
    requires forall o: nat, n: nat :: DataIsThere(archive, h, data, o, n)
    ensures TileRead(archive, h, EntryFor(Moved(plan.entries, plan.blobs), id))
         == TileAtBlob(SourceOf(z, file, plan.source), Success(BlobAt(plan.entries, id)))
  {
    hide BlobsOf, TileData, EntryFor, ReadRange, OffsetsAgree, NewOffset, BlobsInOrder, Flat;
    var moved := Moved(plan.entries, plan.blobs);
    MovedBlobs(plan.entries, plan.blobs, 0, MAX_SAFE, id);
    EntryForFlat(moved, 0, MAX_SAFE, id);
    EntryForFlat(plan.entries, 0, MAX_SAFE, id);
    if EntryFor(plan.entries, id).Some? {
      var e := EntryFor(plan.entries, id).value;
      var i :| 0 <= i < |plan.entries| && plan.entries[i] == e;
      var k := BlobOfEntry(plan.entries, i);
      BlobIsAtNewOffset(file, plan.source.at.tileDataOffset, plan.blobs, k);
      assert DataIsThere(archive, h, data, NewOffset(plan.blobs, e.offset), e.length);
    }
  }

  /** Tile ids are safe integers. */
  lemma IdIsSafe(t: Tile)
    requires IsTile(t)
    ensures IdOf(t) < MAX_SAFE
  {
    hide TileId, ZoomStartId;
    TileIdInZoom(t.0, t.1, t.2);
    ZoomBelowDeepest(t.0);
    DeepestZoomEnds();
  }

  lemma DeepestZoomEnds()
    ensures ZoomStartId(PM_MAX_ZOOM + 1) == 1_431_655_765
  {
    assert Pow4(4) == 256;
    assert Pow4(8) == 65536;
    assert Pow4(12) == 0x100_0000;
    assert Pow4(16) == 0x1_0000_0000;
  }

  /**
   * For every good source, accepted selection and tile: the archive written reads back, and reading
   * the tile from it gives what reading it from the source gives when the selection asks for the
   * tile, and nothing otherwise.
   */
  lemma ExtractReadsTheSame(z: Gzip, file: Bytes, sel: ExtractSelection, rangeOf: RangeOf, plan: Plan, archive: Bytes, t: Tile)
    requires Lawful(z) && Planned(z, file, sel, rangeOf, plan) && plan.totalBytes <= MAX_SAFE
    requires ZoomOk(plan.selection.worldMaxZoom) && ZoomOk(plan.selection.maxZoom)
    requires ArchiveOf(z, file, plan) == Success(archive) && IsTile(t)
    ensures ReadPmHeader(archive).Success?
    ensures WalkTile(z, archive, ReadPmHeader(archive).value, TileId(t.0, t.1, t.2)) ==
            if Selected(sel, rangeOf, t) then WalkTile(z, file, plan.source, TileId(t.0, t.1, t.2)) else Success(None)
  {
    hide Planned, Build, ReadPmHeader, TileData, ArchiveOf, GoodEntries, Moved, BlobsOf, TotalLength, AddressedTiles, Accepted,
         WalkFrom, TileId, Lawful, Holds, Flat, EntryFor, BlobAt, SourceBlob, WellFormed, OffsetsAgree, LayoutOf, DataIsThere, TileRead,
         TileAtBlob, Selected, AreaOf, WorldEnd, VisitFrom, GoodSource, Supported;
    var id := IdOf(t);
    var s := SourceOf(z, file, plan.source);
    PlanParts(z, file, sel, rangeOf, plan);
    EntriesAreFew(z, file, sel, rangeOf, plan);
    EntriesAgree(z, file, sel, rangeOf, plan);
    var h, data := ArchiveHolds(z, file, sel, rangeOf, plan, archive);
    MovedAreRuns(plan);
    WalkFindsTheEntry(z, archive, h, Moved(plan.entries, plan.blobs), id);
    ArchiveTile(z, file, plan, archive, h, data, id);
    SourceTile(z, file, sel, rangeOf, plan, t);
  }

  lemma MovedAreRuns(plan: Plan)
    requires Flat(plan.entries, 0, MAX_SAFE)
    ensures var moved := Moved(plan.entries, plan.blobs);
            |moved| == |plan.entries| && forall i :: 0 <= i < |moved| ==> moved[i].runLength > 0
  {
    FlatIsSorted(plan.entries, 0, MAX_SAFE);
  }

  /** The source's own tile, when it is asked for; and no blob in the plan, when it is not. */
  lemma SourceTile(z: Gzip, file: Bytes, sel: ExtractSelection, rangeOf: RangeOf, plan: Plan, t: Tile)
    requires Planned(z, file, sel, rangeOf, plan) && IsTile(t)
    ensures TileAtBlob(SourceOf(z, file, plan.source), Success(BlobAt(plan.entries, IdOf(t)))) ==
            if Selected(sel, rangeOf, t) then WalkTile(z, file, plan.source, IdOf(t)) else Success(None)
  {
    hide Planned, ReadRange, WalkFrom, TileId, BlobAt, SourceBlob, WellFormed, Selected, AreaOf, WorldEnd, Accepted, VisitFrom, LayoutOf, BlobsOf, TotalLength;
    var s := SourceOf(z, file, plan.source);
    PlanParts(z, file, sel, rangeOf, plan);
    PlannedIsGood(z, file, sel, rangeOf, plan);
    PlanIsExact(z, file, sel, rangeOf, plan, IdOf(t));
    IdIsSafe(t);
    WantedIsSelected(sel, rangeOf, t);
    WalkReadsTheBlob(s, s.h.at.rootDirectoryOffset, s.h.at.rootDirectoryLength, RootOf(s).value, 0, MAX_SAFE, IdOf(t), 0);
  }

  // ---- what the archive says of itself ---------------------------------------------------------------------

  /** An archive's metadata, read and decompressed. */
  function MetadataOf(s: Source): Result<Bytes> {
    var packed :- ReadRange(s.file, s.h.at.metadataOffset, s.h.at.metadataLength);
    DecompressInternal(s.z, packed, s.h.internalCompression, 16 * 1024 * 1024)
  }

  /** `v` is `x` rounded to a whole number. */
  predicate IsRounded(v: int, x: real) {
    v as real - 0.5 <= x < v as real + 0.5
  }

  lemma E7Rounds(degrees: real)
    requires -180.0 <= degrees <= 180.0
    ensures IsRounded(E7(degrees), degrees * 10000000.0)
  {
    var n := (degrees * 10000000.0 + 0.5).Floor;
    assert -1_800_000_000 <= n <= 1_800_000_000;
    ModSmall(n + 0x8000_0000);
  }

  lemma ModSmall(n: int)
    requires 0 <= n < 0x1_0000_0000
    ensures n % 0x1_0000_0000 == n
  {
  }

  /** A header for an extract of `src`: its zooms, its centre, and what it takes over from the source. */
  ghost predicate Describes(h: PmHeader, src: PmHeader, sel: ExtractSelection) {
    && h.clustered && h.minZoom == 0
    && h.internalCompression == src.internalCompression && h.tileCompression == src.tileCompression && h.tileType == src.tileType
    && h.minLon == src.minLon && h.minLat == src.minLat && h.maxLon == src.maxLon && h.maxLat == src.maxLat
    && match sel.bounds
       case None =>
         && h.maxZoom as int == sel.worldMaxZoom
         && h.centerZoom as int == (if sel.worldMaxZoom >= 2 then 2 else sel.worldMaxZoom)
         && h.centerLon == 0 && h.centerLat == 0
       case Some(b) =>
         && h.maxZoom as int == sel.maxZoom
         && h.centerZoom as int == (if sel.maxZoom <= 8 then sel.maxZoom else if sel.worldMaxZoom <= 8 then 8 else sel.worldMaxZoom)
         && IsRounded(h.centerLon, (b.west + b.east) / 2.0 * 10000000.0)
         && IsRounded(h.centerLat, (b.south + b.north) / 2.0 * 10000000.0)
  }

  lemma LayoutDescribes(z: Gzip, src: PmHeader, sel: ExtractSelection, metadata: Bytes, entries: seq<PmEntry>, blobs: seq<Blob>,
                        tileBytes: nat, tiles: nat)
    requires 0 <= sel.worldMaxZoom <= sel.maxZoom <= PM_MAX_ZOOM && (sel.bounds.Some? ==> OnEarth(sel.bounds.value))
    requires LayoutFor(z, src, sel, metadata, entries, blobs, tileBytes, tiles).Success?
    ensures var l := LayoutFor(z, src, sel, metadata, entries, blobs, tileBytes, tiles).value;
            && Describes(l.header, src, sel)
            && CompressInternal(z, metadata, src.internalCompression) == Success(l.metadata)
            && l.header.internalCompression == src.internalCompression
  {
    hide Build, EncodeHeader, E7, IsRounded, TotalLength, NewOffset;
    if sel.bounds.Some? {
      E7Rounds((sel.bounds.value.west + sel.bounds.value.east) / 2.0);
      E7Rounds((sel.bounds.value.south + sel.bounds.value.north) / 2.0);
    }
  }

  /** The archive written says what it holds, and its metadata are the source's. */
  lemma ArchiveIsDescribed(z: Gzip, file: Bytes, sel: ExtractSelection, rangeOf: RangeOf, plan: Plan, archive: Bytes)
    requires Lawful(z) && Planned(z, file, sel, rangeOf, plan) && plan.totalBytes <= MAX_SAFE
    requires ZoomOk(plan.selection.worldMaxZoom) && ZoomOk(plan.selection.maxZoom)
    requires ArchiveOf(z, file, plan) == Success(archive)
    ensures MetadataOf(SourceOf(z, file, plan.source)) == Success(plan.metadata)
    ensures ReadPmHeader(archive).Success?
    ensures var h := ReadPmHeader(archive).value;
            && Describes(h, plan.source, sel)
            && (|plan.metadata| <= 16 * 1024 * 1024 || h.internalCompression == COMPRESSION_NONE ==>
                  MetadataOf(SourceOf(z, archive, h)) == Success(plan.metadata))
  {
    hide Planned, Build, ReadPmHeader, TileData, ArchiveOf, GoodEntries, Moved, BlobsOf, TotalLength, AddressedTiles, Accepted, LayoutFor,
         Holds, DataIsThere, ReadRange, EncodeHeader, CompressInternal, DecompressInternal, Describes, Lawful, VisitFrom, SafeSections, AreaOf;
    PlanParts(z, file, sel, rangeOf, plan);
    PlanTakesMetadata(z, file, sel, rangeOf, plan);
    var h, data := ArchiveHolds(z, file, sel, rangeOf, plan, archive);
    var layout := FrontIsThere(z, file, plan, archive);
    AcceptedIsOnEarth(sel, rangeOf);
    LayoutDescribes(z, plan.source, plan.selection, plan.metadata, plan.entries, plan.blobs, plan.tileBytes, plan.addressedTiles);
    if |plan.metadata| <= 16 * 1024 * 1024 || h.internalCompression == COMPRESSION_NONE {
      UnpacksMetadata(z, plan.metadata, layout.metadata, h.internalCompression);
    }
  }

  lemma FrontIsThere(z: Gzip, file: Bytes, plan: Plan, archive: Bytes) returns (layout: Layout)
    requires ZoomOk(plan.selection.worldMaxZoom) && ZoomOk(plan.selection.maxZoom)
    requires ArchiveOf(z, file, plan) == Success(archive)
    requires LayoutOf(z, plan).Success? && SafeSections(LayoutOf(z, plan).value.header.at)
    ensures LayoutOf(z, plan) == Success(layout) && ReadPmHeader(archive) == Success(layout.header)
    ensures ReadRange(archive, layout.header.at.metadataOffset, layout.header.at.metadataLength) == Success(layout.metadata)
  {
    hide ArchiveOf, LayoutOf, TileData, Build, ReadRange, ReadPmHeader, EncodeHeader, SafeSections;
    var l, built, data := ArchiveParts(z, file, plan, archive);
    layout := l;
    HeaderRoundTrip(layout.header, layout.root + layout.metadata + layout.leaves + data);
    assert archive == layout.head + (layout.root + layout.metadata + layout.leaves + data);
    MetadataIsThere(layout.head, layout.root, layout.metadata, layout.leaves, data);
  }

  lemma AcceptedIsOnEarth(sel: ExtractSelection, rangeOf: RangeOf)
    requires Accepted(sel, rangeOf)
    ensures sel.bounds.Some? ==> OnEarth(sel.bounds.value)
  {
    hide RangesFit, TileCount;
  }

  lemma UnpacksMetadata(z: Gzip, metadata: Bytes, packed: Bytes, compression: nat)
    requires Lawful(z) && CompressInternal(z, metadata, compression) == Success(packed)
    requires |metadata| <= 16 * 1024 * 1024 || compression == COMPRESSION_NONE
    ensures DecompressInternal(z, packed, compression, 16 * 1024 * 1024) == Success(metadata)
  {
  }

  lemma MetadataIsThere(head: Bytes, root: Bytes, metadata: Bytes, leaves: Bytes, data: Bytes)
    ensures ReadRange(head + root + metadata + leaves + data, |head| + |root|, |metadata|) == Success(metadata)
  {
    var b := head + root + metadata + leaves + data;
    assert b[|head| + |root|..|head| + |root| + |metadata|] == metadata;
  }

  lemma PlanTakesMetadata(z: Gzip, file: Bytes, sel: ExtractSelection, rangeOf: RangeOf, plan: Plan)
    requires Planned(z, file, sel, rangeOf, plan)
    ensures MetadataOf(SourceOf(z, file, plan.source)) == Success(plan.metadata)
  {
    hide ReadPmHeader, Unpack, VisitFrom, LayoutFor, BlobsOf, TotalLength, AddressedTiles, DecompressInternal, RangesFit, WorldEnd, AreaOf, GoodSource;
  }
}
