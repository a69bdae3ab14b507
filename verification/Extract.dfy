/**
 * A map extract: the plan's blobs, the layout of the new archive, and its writing in coalesced
 * ranges (packages/offline/src/pmtiles-extract.ts, `planExtract` from the blobs on, `layoutFor`,
 * `coalesce`, `writeExtract`).
 */
module Extract {
  import opened Wrappers
  import opened Varints
  import opened Directories
  import opened Headers
  import opened Archives
  import opened DirectoryTree
  import opened Selection
  import opened ExtractPlan
  import opened Sorting

  /** A blob of the source's tile data. */
  datatype Blob = Blob(offset: int, length: nat)

  // ---- the blobs -----------------------------------------------------------------------------------------

  /** The distinct offsets of the entries, in the order they first occur. */
  function OffsetKeys(es: seq<PmEntry>): seq<int> {
    if es == [] then [] else
      var keys := OffsetKeys(es[..|es| - 1]);
      if es[|es| - 1].offset in keys then keys else keys + [es[|es| - 1].offset]
  }

  /** The length an offset first occurs with. */
  function FirstLength(es: seq<PmEntry>, offset: int): nat {
    if es == [] then 0 else if es[0].offset == offset then es[0].length else FirstLength(es[1..], offset)
  }

  function IntAtMost(a: int, b: int): bool {
    a <= b
  }

  function BlobsFor(es: seq<PmEntry>, offsets: seq<int>): (bs: seq<Blob>)
    ensures |bs| == |offsets|
  {
    seq(|offsets|, i requires 0 <= i < |offsets| => Blob(offsets[i], FirstLength(es, offsets[i])))
  }

  /** The blobs to copy, by source offset. */
  function BlobsOf(es: seq<PmEntry>): seq<Blob> {
    BlobsFor(es, Sort(OffsetKeys(es), IntAtMost))
  }

  function TotalLength(blobs: seq<Blob>): nat {
    if blobs == [] then 0 else TotalLength(blobs[..|blobs| - 1]) + blobs[|blobs| - 1].length
  }

  function AddressedTiles(es: seq<PmEntry>): nat {
    if es == [] then 0 else AddressedTiles(es[..|es| - 1]) + es[|es| - 1].runLength
  }

  /** Blobs in source order, no offset twice. */
  predicate BlobsInOrder(blobs: seq<Blob>) {
    forall i, j :: 0 <= i < j < |blobs| ==> blobs[i].offset < blobs[j].offset
  }

  lemma {:induction false} OffsetKeysAre(es: seq<PmEntry>)
    ensures NoDuplicates(OffsetKeys(es))
    ensures forall k :: k in OffsetKeys(es) <==> exists i :: 0 <= i < |es| && es[i].offset == k
  {
    if es != [] {
      var init, last := es[..|es| - 1], es[|es| - 1];
      OffsetKeysAre(init);
      forall k | exists i :: 0 <= i < |es| && es[i].offset == k
        ensures k in OffsetKeys(es)
      {
        var i :| 0 <= i < |es| && es[i].offset == k;
        if i < |init| {
          assert init[i].offset == k;
        }
      }
      forall k | k in OffsetKeys(es)
        ensures exists i :: 0 <= i < |es| && es[i].offset == k
      {
        if k in OffsetKeys(init) {
          var i :| 0 <= i < |init| && init[i].offset == k;
          assert es[i].offset == k;
        } else {
          assert es[|es| - 1].offset == k;
        }
      }
    }
  }

  lemma IntAtMostIsAnOrder()
    ensures TotalOrder<int>(IntAtMost)
  {
  }

  predicate Names(blobs: seq<Blob>, offset: int) {
    exists k :: 0 <= k < |blobs| && blobs[k].offset == offset
  }

  /** The blobs are in order, one for each offset of the entries. */
  lemma BlobsAreInOrder(es: seq<PmEntry>)
    ensures BlobsInOrder(BlobsOf(es))
    ensures forall i :: 0 <= i < |es| ==> Names(BlobsOf(es), es[i].offset)
    ensures forall k :: 0 <= k < |BlobsOf(es)| ==> BlobsOf(es)[k].length == FirstLength(es, BlobsOf(es)[k].offset)
  {
    var keys := OffsetKeys(es);
    var sorted := Sort(keys, IntAtMost);
    OffsetKeysAre(es);
    IntAtMostIsAnOrder();
    SortSorts<int>(keys, IntAtMost);
    SortKeepsDistinct<int>(keys, IntAtMost);
    forall i | 0 <= i < |es|
      ensures Names(BlobsOf(es), es[i].offset)
    {
      SortMembers<int>(keys, IntAtMost, es[i].offset);
      var k :| 0 <= k < |sorted| && sorted[k] == es[i].offset;
      assert BlobsOf(es)[k].offset == es[i].offset;
    }
  }

  /** One blob, one length: the same offset never names blobs of different lengths. */
  predicate OffsetsAgree(es: seq<PmEntry>) {
    forall i, j :: 0 <= i < j < |es| && es[i].offset == es[j].offset ==> es[i].length == es[j].length
  }

  lemma {:induction false} FirstLengthIsTheLength(es: seq<PmEntry>, i: nat)
    requires OffsetsAgree(es) && i < |es|
    ensures FirstLength(es, es[i].offset) == es[i].length
  {
    if es[0].offset != es[i].offset {
      FirstLengthIsTheLength(es[1..], i - 1);
    } else if i > 0 {
      assert es[0].length == es[i].length;
    }
  }

  // ---- where the blobs go --------------------------------------------------------------------------------

  /** The new offset of a blob: the lengths of the blobs before it. */
  function NewOffset(blobs: seq<Blob>, offset: int): nat {
    if blobs == [] then 0
    else if blobs[|blobs| - 1].offset == offset then TotalLength(blobs[..|blobs| - 1])
    else NewOffset(blobs[..|blobs| - 1], offset)
  }

  function Moved(es: seq<PmEntry>, blobs: seq<Blob>): (moved: seq<PmEntry>)
    ensures |moved| == |es| && HaveOffsets(moved)
  {
    seq(|es|, i requires 0 <= i < |es| => es[i].(offset := NewOffset(blobs, es[i].offset)))
  }

  /** The bytes of the blobs, one after another. */
  function TileData(file: Bytes, base: nat, blobs: seq<Blob>): Result<Bytes> {
    if blobs == [] then Success([]) else
      var before :- TileData(file, base, blobs[..|blobs| - 1]);
      var last := blobs[|blobs| - 1];
      var bytes :- ReadRange(file, base + last.offset, last.length);
      Success(before + bytes)
  }

  lemma {:induction false} TileDataLength(file: Bytes, base: nat, blobs: seq<Blob>)
    ensures TileData(file, base, blobs).Success? ==> |TileData(file, base, blobs).value| == TotalLength(blobs)
  {
    if blobs != [] {
      TileDataLength(file, base, blobs[..|blobs| - 1]);
    }
  }

  /** A blob's bytes are at its new offset. */
  lemma {:induction false} BlobIsAtNewOffset(file: Bytes, base: nat, blobs: seq<Blob>, k: nat)
    requires TileData(file, base, blobs).Success? && BlobsInOrder(blobs) && k < |blobs|
    ensures var b, data := blobs[k], TileData(file, base, blobs).value;
            var at := NewOffset(blobs, b.offset);
            && at + b.length <= |data| == TotalLength(blobs)
            && ReadRange(file, base + b.offset, b.length) == Success(data[at..at + b.length])
  {
    var init, last := blobs[..|blobs| - 1], blobs[|blobs| - 1];
    TileDataLength(file, base, blobs);
    TileDataLength(file, base, init);
    var before, bytes := TileData(file, base, init).value, ReadRange(file, base + last.offset, last.length).value;
    var at := NewOffset(blobs, blobs[k].offset);
    if k < |init| {
      BlobIsAtNewOffset(file, base, init, k);
      assert blobs[k] == init[k] && blobs[k].offset < last.offset;
      assert (before + bytes)[at..at + blobs[k].length] == before[at..at + blobs[k].length];
    } else {
      assert (before + bytes)[at..at + blobs[k].length] == bytes;
    }
  }

  // ---- the plan and the layout ---------------------------------------------------------------------------

  datatype Plan = Plan(
    source: PmHeader, metadata: Bytes, selection: ExtractSelection,
    entries: seq<PmEntry>, blobs: seq<Blob>,
    addressedTiles: nat, tileBytes: nat, totalBytes: nat)

  datatype Layout = Layout(header: PmHeader, head: Bytes, root: Bytes, metadata: Bytes, leaves: Bytes, totalBytes: nat)

  const MAX_METADATA: nat := 16 * 1024 * 1024

  /** `setInt32`: the lowest 32 bits, as a signed number. */
  function ToInt32(n: int): Int32 {
    (n + 0x8000_0000) % 0x1_0000_0000 - 0x8000_0000
  }

  /** `Math.round(deg * 1e7)` as the header holds it. */
  function E7(degrees: real): Int32 {
    ToInt32((degrees * 10000000.0 + 0.5).Floor)
  }

  function CenterZoom(sel: ExtractSelection): int {
    if sel.bounds.Some? then
      var deep := if sel.worldMaxZoom > 8 then sel.worldMaxZoom else 8;
      if sel.maxZoom < deep then sel.maxZoom else deep
    else if sel.worldMaxZoom < 2 then sel.worldMaxZoom else 2
  }

  function LayoutFor(z: Gzip, src: PmHeader, sel: ExtractSelection, metadataJson: Bytes, entries: seq<PmEntry>,
                     blobs: seq<Blob>, tileBytes: nat, addressedTiles: nat): Result<Layout>
    requires ZoomOk(sel.worldMaxZoom) && ZoomOk(sel.maxZoom)
  {
    var moved := Moved(entries, blobs);
    var dirs :- Build(z, src.internalCompression, moved);
    var metadata :- CompressInternal(z, metadataJson, src.internalCompression);
    var metadataOffset := PM_HEADER_BYTES + |dirs.root|;
    var leafOffset := metadataOffset + |metadata|;
    var tileOffset := leafOffset + |dirs.leaves|;
    var b := sel.bounds;
    var header := src.(
      at := Sections(PM_HEADER_BYTES, |dirs.root|, metadataOffset, |metadata|, leafOffset, |dirs.leaves|,
                     tileOffset, tileBytes, addressedTiles, |moved|, |blobs|),
      clustered := true, minZoom := 0,
      maxZoom := if b.Some? then sel.maxZoom else sel.worldMaxZoom,
      centerZoom := CenterZoom(sel),
      centerLon := if b.Some? then E7((b.value.west + b.value.east) / 2.0) else 0,
      centerLat := if b.Some? then E7((b.value.south + b.value.north) / 2.0) else 0);
    Success(Layout(header, EncodeHeader(header), dirs.root, metadata, dirs.leaves, tileOffset + tileBytes))
  }

  function ById(a: PmEntry, b: PmEntry): bool {
    a.tileId <= b.tileId
  }

  function SourceOf(z: Gzip, file: Bytes, h: PmHeader): Source {
    Source(z, file, h)
  }

  function WantedOf(sel: ExtractSelection, rangeOf: RangeOf): Wanted
    requires sel.worldMaxZoom >= 0
  {
    Wanted(WorldEnd(sel), AreaOf(sel, rangeOf))
  }

  /** The first bytes of a file, as many as there are up to the root's 16 KiB. */
  function HeadOf(file: Bytes): Bytes {
    if |file| <= PM_ROOT_BYTES then file else file[..PM_ROOT_BYTES]
  }

  function FinishPlan(z: Gzip, header: PmHeader, sel: ExtractSelection, metadata: Bytes, out: seq<PmEntry>): Result<Plan>
    requires ZoomOk(sel.worldMaxZoom) && ZoomOk(sel.maxZoom)
  {
    if out == [] then Failure("the source has no tiles in that selection") else
      var entries := Sort(out, ById);
      var blobs := BlobsOf(entries);
      var draft :- LayoutFor(z, header, sel, metadata, entries, blobs, TotalLength(blobs), AddressedTiles(entries));
      Success(Plan(header, metadata, sel, entries, blobs, AddressedTiles(entries), TotalLength(blobs), draft.totalBytes))
  }

  function PlanOf(z: Gzip, file: Bytes, sel: ExtractSelection, rangeOf: RangeOf): Result<Plan> {
    if SelectionProblem(sel, rangeOf).Some? then Failure(SelectionProblem(sel, rangeOf).value) else
      var header :- ReadPmHeader(HeadOf(file));
      if !header.clustered then Failure("the source archive is not clustered") else
        var rootBytes :- ReadRange(file, header.at.rootDirectoryOffset, header.at.rootDirectoryLength);
        var packed :- ReadRange(file, header.at.metadataOffset, header.at.metadataLength);
        var metadata :- DecompressInternal(z, packed, header.internalCompression, MAX_METADATA);
        var root :- Unpack(z, header.internalCompression, rootBytes);
        var out :- VisitFrom(SourceOf(z, file, header), WantedOf(sel, rangeOf), root, MAX_SAFE, 0);
        FinishPlan(z, header, sel, metadata, out)
  }

  /** Every entry re-pointed at its blob's offset in the new tile data. */
  method MoveEntries(entries: seq<PmEntry>, blobs: seq<Blob>) returns (moved: seq<PmEntry>)
    requires BlobsInOrder(blobs) && forall i :: 0 <= i < |entries| ==> Names(blobs, entries[i].offset)
    ensures moved == Moved(entries, blobs)
  {
    hide NewOffset, TotalLength;
    var newOffset: map<int, nat>, at := map[], 0;
    NoBlobs();
    for i := 0 to |blobs|
      invariant at == TotalLength(blobs[..i])
      invariant forall j :: 0 <= j < i ==> blobs[j].offset in newOffset && newOffset[blobs[j].offset] == NewOffset(blobs, blobs[j].offset)
    {
      NewOffsetAt(blobs, i);
      newOffset := newOffset[blobs[i].offset := at];
      TotalLengthStep(blobs, i);
      at := at + blobs[i].length;
    }
    moved := [];
    for i := 0 to |entries|
      invariant moved == Moved(entries, blobs)[..i]
    {
      var e := entries[i];
      assert Names(blobs, e.offset);
      moved := moved + [e.(offset := newOffset[e.offset])];
    }
  }

  lemma NoBlobs()
    ensures TotalLength([]) == 0
  {
  }

  lemma TotalLengthStep(blobs: seq<Blob>, i: nat)
    requires i < |blobs|
    ensures TotalLength(blobs[..i + 1]) == TotalLength(blobs[..i]) + blobs[i].length
  {
    assert blobs[..i + 1][..i] == blobs[..i];
  }

  method LayOut(z: Gzip, src: PmHeader, sel: ExtractSelection, metadataJson: Bytes, entries: seq<PmEntry>,
                blobs: seq<Blob>, tileBytes: nat, addressedTiles: nat) returns (r: Result<Layout>)
    requires ZoomOk(sel.worldMaxZoom) && ZoomOk(sel.maxZoom) && BlobsInOrder(blobs)
    requires forall i :: 0 <= i < |entries| ==> Names(blobs, entries[i].offset)
    ensures r == LayoutFor(z, src, sel, metadataJson, entries, blobs, tileBytes, addressedTiles)
  {
    hide Build, EncodeHeader, CompressInternal, E7;
    var moved := MoveEntries(entries, blobs);
    var dirs := BuildPmDirectories(z, moved, src.internalCompression);
    if dirs.Failure? {
      return Failure(dirs.error);
    }
    var metadata := CompressInternal(z, metadataJson, src.internalCompression);
    if metadata.Failure? {
      return Failure(metadata.error);
    }
    var rootOffset := PM_HEADER_BYTES;
    var metadataOffset := rootOffset + |dirs.value.root|;
    var leafOffset := metadataOffset + |metadata.value|;
    var tileOffset := leafOffset + |dirs.value.leaves|;
    var b := sel.bounds;
    var maxZoom := if b.Some? then sel.maxZoom else sel.worldMaxZoom;
    var centerLon: Int32, centerLat: Int32 := 0, 0;
    if b.Some? {
      centerLon, centerLat := E7((b.value.west + b.value.east) / 2.0), E7((b.value.south + b.value.north) / 2.0);
    }
    var header := PmHeader(
      Sections(rootOffset, |dirs.value.root|, metadataOffset, |metadata.value|, leafOffset, |dirs.value.leaves|,
               tileOffset, tileBytes, addressedTiles, |moved|, |blobs|),
      true, src.internalCompression, src.tileCompression, src.tileType, 0, maxZoom,
      src.minLon, src.minLat, src.maxLon, src.maxLat, CenterZoom(sel), centerLon, centerLat);
    return Success(Layout(header, EncodeHeader(header), dirs.value.root, metadata.value, dirs.value.leaves, tileOffset + tileBytes));
  }

  lemma {:induction false} NewOffsetAt(blobs: seq<Blob>, i: nat)
    requires BlobsInOrder(blobs) && i < |blobs|
    ensures NewOffset(blobs, blobs[i].offset) == TotalLength(blobs[..i])
  {
    var init := blobs[..|blobs| - 1];
    if i < |init| {
      NewOffsetAt(init, i);
      assert blobs[..i] == init[..i] && blobs[i].offset < blobs[|blobs| - 1].offset;
    }
  }

  /** The map from offset to length that the planner fills, and its keys in order of insertion. */
  method CollectOffsets(es: seq<PmEntry>) returns (lengths: map<int, nat>, keys: seq<int>)
    ensures keys == OffsetKeys(es)
    ensures forall k :: k in keys ==> k in lengths && lengths[k] == FirstLength(es, k)
  {
    lengths, keys := map[], [];
    for i := 0 to |es|
      invariant keys == OffsetKeys(es[..i])
      invariant forall k :: k in keys <==> k in lengths
      invariant forall k :: k in lengths ==> lengths[k] == FirstLength(es[..i], k)
    {
      var e := es[i];
      assert es[..i + 1][..i] == es[..i];
      forall k
        ensures FirstLength(es[..i + 1], k) == if k in keys then FirstLength(es[..i], k) else if k == e.offset then e.length else 0
      {
        OffsetKeysAre(es[..i]);
        FirstLengthOfLonger(es[..i], e, k);
        assert es[..i + 1] == es[..i] + [e];
      }
      if e.offset !in lengths {
        lengths := lengths[e.offset := e.length];
        keys := keys + [e.offset];
      }
    }
    assert es[..|es|] == es;
  }

  lemma {:induction false} FirstLengthOfLonger(es: seq<PmEntry>, e: PmEntry, k: int)
    ensures FirstLength(es + [e], k) ==
            if exists i :: 0 <= i < |es| && es[i].offset == k then FirstLength(es, k)
            else if e.offset == k then e.length else 0
  {
    if es != [] && es[0].offset != k {
      FirstLengthOfLonger(es[1..], e, k);
      assert (es + [e])[1..] == es[1..] + [e];
      if exists i :: 0 <= i < |es| && es[i].offset == k {
        var i :| 0 <= i < |es| && es[i].offset == k;
        assert es[1..][i - 1].offset == k;
      }
    } else if es != [] {
      assert es[0].offset == k;
    }
  }

  method PlanBlobs(entries: seq<PmEntry>) returns (blobs: seq<Blob>, tileBytes: nat)
    ensures blobs == BlobsOf(entries) && tileBytes == TotalLength(blobs)
  {
    hide OffsetKeys, FirstLength;
    var offsets, keys := CollectOffsets(entries);
    var sorted := Sort(keys, IntAtMost);
    blobs, tileBytes := [], 0;
    for i := 0 to |sorted|
      invariant blobs == BlobsOf(entries)[..i] && tileBytes == TotalLength(blobs)
    {
      IntAtMostIsAnOrder();
      SortMembers<int>(keys, IntAtMost, sorted[i]);
      ghost var was := blobs;
      blobs := blobs + [Blob(sorted[i], offsets[sorted[i]])];
      assert blobs[..|blobs| - 1] == was;
      tileBytes := tileBytes + offsets[sorted[i]];
    }
  }

  method SumRuns(entries: seq<PmEntry>) returns (n: nat)
    ensures n == AddressedTiles(entries)
  {
    n := 0;
    for i := 0 to |entries|
      invariant n == AddressedTiles(entries[..i])
    {
      assert entries[..i + 1][..i] == entries[..i];
      n := n + entries[i].runLength;
    }
    assert entries[..|entries|] == entries;
  }

  /** The part of `planExtract` after the visit. */
  method CompletePlan(z: Gzip, header: PmHeader, sel: ExtractSelection, metadata: Bytes, out: seq<PmEntry>) returns (r: Result<Plan>)
    requires ZoomOk(sel.worldMaxZoom) && ZoomOk(sel.maxZoom)
    ensures r == FinishPlan(z, header, sel, metadata, out)
  {
    hide LayoutFor, BlobsOf, TotalLength, AddressedTiles;
    if |out| == 0 {
      return Failure("the source has no tiles in that selection");
    }
    var entries := Sort(out, ById);
    var blobs, tileBytes := PlanBlobs(entries);
    var addressedTiles := SumRuns(entries);
    BlobsAreInOrder(entries);
    var draft := LayOut(z, header, sel, metadata, entries, blobs, tileBytes, addressedTiles);
    if draft.Failure? {
      return Failure(draft.error);
    }
    return Success(Plan(header, metadata, sel, entries, blobs, addressedTiles, tileBytes, draft.value.totalBytes));
  }

  method PlanExtract(z: Gzip, file: Bytes, sel: ExtractSelection, rangeOf: RangeOf) returns (r: Result<Plan>)
    requires RangesFit(rangeOf)
    ensures r == PlanOf(z, file, sel, rangeOf)
  {
    hide ReadPmHeader, DecodeDirectory, DecompressInternal, VisitFrom, AreaOf, FinishPlan, RangesFit;
    var problem := SelectionProblem(sel, rangeOf);
    if problem.Some? {
      return Failure(problem.value);
    }
    var head := HeadOf(file);
    var header := ReadPmHeader(head);
    if header.Failure? {
      return Failure(header.error);
    }
    var h := header.value;
    if !h.clustered {
      return Failure("the source archive is not clustered");
    }
    var rootEnd := h.at.rootDirectoryOffset + h.at.rootDirectoryLength;
    var rootBytes;
    if rootEnd <= |head| {
      rootBytes := Success(head[h.at.rootDirectoryOffset..rootEnd]);
      assert head[h.at.rootDirectoryOffset..rootEnd] == file[h.at.rootDirectoryOffset..rootEnd];
    } else {
      rootBytes := ReadRange(file, h.at.rootDirectoryOffset, h.at.rootDirectoryLength);
    }
    if rootBytes.Failure? {
      return Failure(rootBytes.error);
    }
    var packed := ReadRange(file, h.at.metadataOffset, h.at.metadataLength);
    if packed.Failure? {
      return Failure(packed.error);
    }
    var metadata := DecompressInternal(z, packed.value, h.internalCompression, MAX_METADATA);
    if metadata.Failure? {
      return Failure(metadata.error);
    }
    var worldEnd, area := WantedIds(sel, rangeOf);
    WantedIsOk(sel, rangeOf);
    var planner := new Planner(SourceOf(z, file, h), Wanted(worldEnd, area));
    var rootDirectory := DecompressInternal(z, rootBytes.value, h.internalCompression, MAX_DECOMPRESSED);
    if rootDirectory.Failure? {
      return Failure(rootDirectory.error);
    }
    var root := DecodePmDirectory(rootDirectory.value);
    if root.Failure? {
      return Failure(root.error);
    }
    var visited := planner.Visit(root.value, MAX_SAFE, 0);
    if visited.Failure? {
      return Failure(visited.error);
    }
    ghost var es := VisitFrom(SourceOf(z, file, h), WantedOf(sel, rangeOf), root.value, MAX_SAFE, 0).value;
    assert planner.out == [] + es == es;
    r := CompletePlan(z, h, sel, metadata.value, planner.out);
  }

  lemma WantedIsOk(sel: ExtractSelection, rangeOf: RangeOf)
    requires Accepted(sel, rangeOf)
    ensures WantedOk(WantedOf(sel, rangeOf))
  {
    AreaIsExact(sel, rangeOf);
  }

  // ---- coalesced reads -----------------------------------------------------------------------------------

  const GAP: nat := 256 * 1024
  const MAX_RANGE: nat := 8 * 1024 * 1024

  /** One request: the bytes at `start`, and the blobs it covers. */
  datatype Group = Group(start: int, length: int, first: nat, count: nat)

  function BlobEnd(b: Blob): int {
    b.offset + b.length
  }

  /** The end of the bytes from blob `first` up to blob `next`. */
  function EndOf(blobs: seq<Blob>, first: nat, next: nat): int
    requires first < next <= |blobs|
  {
    if next == first + 1 then BlobEnd(blobs[first])
    else
      var before := EndOf(blobs, first, next - 1);
      if before < BlobEnd(blobs[next - 1]) then BlobEnd(blobs[next - 1]) else before
  }

  /** Whether blob `next` joins a request that holds the blobs from `first` up to it. */
  predicate Joins(blobs: seq<Blob>, first: nat, next: nat, gap: nat, maxRange: nat)
    requires first < next < |blobs|
  {
    blobs[next].offset - EndOf(blobs, first, next) <= gap && BlobEnd(blobs[next]) - blobs[first].offset <= maxRange
  }

  /** The request made for the blobs from `first` on: as many as join, one after another. */
  predicate GroupAt(blobs: seq<Blob>, g: Group, gap: nat, maxRange: nat) {
    && g.count > 0 && g.first + g.count <= |blobs|
    && g.start == blobs[g.first].offset && g.length == EndOf(blobs, g.first, g.first + g.count) - g.start
    && (forall j :: g.first < j < g.first + g.count ==> Joins(blobs, g.first, j, gap, maxRange))
    && (g.first + g.count < |blobs| ==> !Joins(blobs, g.first, g.first + g.count, gap, maxRange))
  }

  /** Requests, one after another, for the blobs from `from` up to `to`. */
  predicate GroupsCover(blobs: seq<Blob>, groups: seq<Group>, from: nat, to: nat, gap: nat, maxRange: nat) {
    if groups == [] then from == to
    else
      && groups[0].first == from && GroupAt(blobs, groups[0], gap, maxRange)
      && GroupsCover(blobs, groups[1..], from + groups[0].count, to, gap, maxRange)
  }

  method Coalesce(blobs: seq<Blob>, gap: nat, maxRange: nat) returns (groups: seq<Group>)
    ensures GroupsCover(blobs, groups, 0, |blobs|, gap, maxRange)
  {
    groups := [];
    var i, n := 0, |blobs|;
    while i < n
      invariant i <= n && GroupsCover(blobs, groups, 0, i, gap, maxRange)
    {
      var start := blobs[i].offset;
      var end := start + blobs[i].length;
      var j := i + 1;
      while j < n
        invariant i < j <= n && end == EndOf(blobs, i, j)
        invariant forall k :: i < k < j ==> Joins(blobs, i, k, gap, maxRange)
      {
        var s := blobs[j].offset;
        var e := s + blobs[j].length;
        if s - end > gap || e - start > maxRange {
          break;
        }
        end := if end > e then end else e;
        j := j + 1;
      }
      var g := Group(start, end - start, i, j - i);
      GroupsCoverMore(blobs, groups, g, 0, i, gap, maxRange);
      groups := groups + [g];
      i := j;
    }
  }

  lemma {:induction false} GroupsCoverMore(blobs: seq<Blob>, groups: seq<Group>, g: Group, from: nat, to: nat, gap: nat, maxRange: nat)
    requires GroupsCover(blobs, groups, from, to, gap, maxRange) && g.first == to && GroupAt(blobs, g, gap, maxRange)
    ensures GroupsCover(blobs, groups + [g], from, to + g.count, gap, maxRange)
  {
    hide GroupAt;
    if groups == [] {
      assert [g][1..] == [];
      assert groups + [g] == [g];
    } else {
      GroupsCoverMore(blobs, groups[1..], g, from + groups[0].count, to, gap, maxRange);
      assert (groups + [g])[1..] == groups[1..] + [g];
    }
  }

  /** A request holds each of its blobs whole, and is no longer than the limit or its first blob. */
  lemma {:induction false} GroupHoldsItsBlobs(blobs: seq<Blob>, first: nat, next: nat, gap: nat, maxRange: nat)
    requires BlobsInOrder(blobs) && first < next <= |blobs|
    requires forall j :: first < j < next ==> Joins(blobs, first, j, gap, maxRange)
    ensures forall k :: first <= k < next ==> blobs[first].offset <= blobs[k].offset && BlobEnd(blobs[k]) <= EndOf(blobs, first, next)
    ensures EndOf(blobs, first, next) - blobs[first].offset <= maxRange || EndOf(blobs, first, next) == BlobEnd(blobs[first])
    ensures exists k :: first <= k < next && EndOf(blobs, first, next) == BlobEnd(blobs[k])
  {
    if next > first + 1 {
      GroupHoldsItsBlobs(blobs, first, next - 1, gap, maxRange);
      assert Joins(blobs, first, next - 1, gap, maxRange);
      var k :| first <= k < next - 1 && EndOf(blobs, first, next - 1) == BlobEnd(blobs[k]);
    }
  }

  lemma {:induction false} EndIsTheFurthest(blobs: seq<Blob>, first: nat, next: nat)
    requires first < next <= |blobs|
    ensures forall k :: first <= k < next ==> BlobEnd(blobs[k]) <= EndOf(blobs, first, next)
    ensures exists k :: first <= k < next && EndOf(blobs, first, next) == BlobEnd(blobs[k])
  {
    if next > first + 1 {
      EndIsTheFurthest(blobs, first, next - 1);
      var k :| first <= k < next - 1 && EndOf(blobs, first, next - 1) == BlobEnd(blobs[k]);
    } else {
      assert EndOf(blobs, first, next) == BlobEnd(blobs[first]);
    }
  }

  /** A blob joins those before it when it begins within the gap of the end of one of them, and ends within the limit. */
  lemma JoinsWhen(blobs: seq<Blob>, first: nat, next: nat, gap: nat, maxRange: nat)
    requires first < next < |blobs|
    ensures Joins(blobs, first, next, gap, maxRange) <==>
              && BlobEnd(blobs[next]) <= blobs[first].offset + maxRange
              && exists k :: first <= k < next && blobs[next].offset <= BlobEnd(blobs[k]) + gap
  {
    EndIsTheFurthest(blobs, first, next);
    hide EndOf, BlobEnd;
    var k :| first <= k < next && EndOf(blobs, first, next) == BlobEnd(blobs[k]);
  }

  // ---- writing -------------------------------------------------------------------------------------------

  function Front(layout: Layout): Bytes {
    layout.head + layout.root + layout.metadata + layout.leaves
  }

  function LayoutOf(z: Gzip, plan: Plan): Result<Layout>
    requires ZoomOk(plan.selection.worldMaxZoom) && ZoomOk(plan.selection.maxZoom)
  {
    LayoutFor(z, plan.source, plan.selection, plan.metadata, plan.entries, plan.blobs, plan.tileBytes, plan.addressedTiles)
  }

  /** The archive a plan describes. */
  function ArchiveOf(z: Gzip, file: Bytes, plan: Plan): Result<Bytes>
    requires ZoomOk(plan.selection.worldMaxZoom) && ZoomOk(plan.selection.maxZoom)
  {
    var layout :- LayoutOf(z, plan);
    var data :- TileData(file, plan.source.at.tileDataOffset, plan.blobs);
    Success(Front(layout) + data)
  }

  lemma TileDataStep(file: Bytes, base: nat, blobs: seq<Blob>, k: nat)
    requires k < |blobs| && TileData(file, base, blobs[..k]).Success?
    ensures TileData(file, base, blobs[..k + 1]) ==
            match ReadRange(file, base + blobs[k].offset, blobs[k].length) {
              case Failure(error) => Failure(error)
              case Success(bytes) => Success(TileData(file, base, blobs[..k]).value + bytes)
            }
  {
    assert blobs[..k + 1][..k] == blobs[..k];
  }

  lemma {:induction false} TileDataNeedsAll(file: Bytes, base: nat, blobs: seq<Blob>, k: nat)
    requires k < |blobs| && TileData(file, base, blobs).Success?
    ensures ReadRange(file, base + blobs[k].offset, blobs[k].length).Success?
  {
    if k < |blobs| - 1 {
      TileDataNeedsAll(file, base, blobs[..|blobs| - 1], k);
    }
  }

  /** What a request's place says of its blobs. */
  lemma GroupPlace(blobs: seq<Blob>, g: Group, gap: nat, maxRange: nat) returns (last: nat)
    requires BlobsInOrder(blobs) && GroupAt(blobs, g, gap, maxRange)
    ensures 0 < g.count && g.first + g.count <= |blobs| && g.length >= 0
    ensures g.start == blobs[g.first].offset
    ensures forall k :: g.first <= k < g.first + g.count ==> g.start <= blobs[k].offset && BlobEnd(blobs[k]) <= g.start + g.length
    ensures g.first <= last < g.first + g.count && BlobEnd(blobs[last]) == g.start + g.length
  {
    hide EndOf, Joins, BlobsInOrder;
    var next := g.first + g.count;
    GroupHoldsItsBlobs(blobs, g.first, next, gap, maxRange);
    last :| g.first <= last < next && EndOf(blobs, g.first, next) == BlobEnd(blobs[last]);
    assert BlobEnd(blobs[g.first]) <= EndOf(blobs, g.first, next);
  }

  /** A request can be read exactly when each of its blobs can, and each blob is where its offset says. */
  lemma GroupReads(file: Bytes, base: nat, blobs: seq<Blob>, g: Group, gap: nat, maxRange: nat)
    requires BlobsInOrder(blobs) && GroupAt(blobs, g, gap, maxRange)
    ensures g.length >= 0
    ensures ReadRange(file, base + g.start, g.length).Failure? ==>
              exists k :: g.first <= k < g.first + g.count && ReadRange(file, base + blobs[k].offset, blobs[k].length).Failure?
    ensures ReadRange(file, base + g.start, g.length).Success? ==>
              forall k :: g.first <= k < g.first + g.count ==>
                            var at := blobs[k].offset - g.start;
                            && 0 <= at && at + blobs[k].length <= g.length
                            && ReadRange(file, base + blobs[k].offset, blobs[k].length)
                            == Success(ReadRange(file, base + g.start, g.length).value[at..at + blobs[k].length])
  {
    hide GroupAt, BlobsInOrder;
    var last := GroupPlace(blobs, g, gap, maxRange);
    var r := ReadRange(file, base + g.start, g.length);
    if r.Failure? {
      var k := if base + g.start < 0 then g.first else last;
      assert ReadRange(file, base + blobs[k].offset, blobs[k].length).Failure?;
    } else {
      forall k | g.first <= k < g.first + g.count
        ensures var at := blobs[k].offset - g.start;
                && 0 <= at && at + blobs[k].length <= g.length
                && ReadRange(file, base + blobs[k].offset, blobs[k].length) == Success(r.value[at..at + blobs[k].length])
      {
        assert BlobEnd(blobs[k]) == blobs[k].offset + blobs[k].length;
        RangeOfRange(file, base + g.start, g.length, blobs[k].offset - g.start, blobs[k].length);
        assert base + g.start + (blobs[k].offset - g.start) == base + blobs[k].offset;
      }
    }
  }

  /** A part of a range read is the range of that part. */
  lemma RangeOfRange(file: Bytes, offset: int, length: nat, at: nat, n: nat)
    requires ReadRange(file, offset, length).Success? && at + n <= length
    ensures ReadRange(file, offset + at, n) == Success(ReadRange(file, offset, length).value[at..at + n])
  {
    var all := file[offset..offset + length];
    var a, b := all[at..at + n], file[offset + at..offset + at + n];
    forall i | 0 <= i < n
      ensures a[i] == b[i]
    {
      assert all[at + i] == file[offset + (at + i)];
    }
    assert a == b;
  }

  class Sink {
    var written: Bytes

    constructor ()
      ensures written == []
    {
      written := [];
    }

    /** `put`: nothing is written for nothing. */
    method Put(bytes: Bytes) returns (count: nat)
      modifies this
      ensures written == old(written) + bytes && count == |bytes|
    {
      if |bytes| > 0 {
        written := written + bytes;
      }
      count := |bytes|;
    }
  }

  /** The reads under way: those from `from` up to `next`, each to give what the source holds there. */
  ghost predicate Reading(file: Bytes, base: nat, groups: seq<Group>, pending: map<nat, Result<Bytes>>, from: nat, next: nat) {
    && from <= next <= |groups|
    && (forall i :: i in pending <==> from <= i < next)
    && (forall i :: i in pending ==> groups[i].length >= 0 &&
                                     pending[i] == ReadRange(file, base + groups[i].start, groups[i].length))
  }

  /** Reads from `from` up to `next` are that many. */
  lemma {:induction false} ReadingCount(pending: map<nat, Result<Bytes>>, from: nat, next: nat)
    requires from <= next && forall i :: i in pending <==> from <= i < next
    ensures |pending| == next - from
  {
    assert |pending.Keys| == |pending|;
    if from == next {
      assert pending.Keys == {};
    } else {
      var others := pending - {next - 1};
      ReadingCount(others, from, next - 1);
      assert pending.Keys == others.Keys + {next - 1};
      assert |others.Keys| == |others|;
    }
  }

  /** The reads under way, by the number of their request, and the most there have been at once. */
  class Fetches {
    var pending: map<nat, Result<Bytes>>
    ghost var most: nat

    constructor ()
      ensures pending == map[] && most == 0
    {
      pending, most := map[], 0;
    }

    /** `fetch`: a read is started. */
    method Start(k: nat, file: Bytes, offset: int, length: nat)
      modifies this
      ensures pending == old(pending)[k := ReadRange(file, offset, length)]
      ensures most == if |pending| > old(most) then |pending| else old(most)
    {
      pending := pending[k := ReadRange(file, offset, length)];
      most := if |pending| > most then |pending| else most;
    }

    /** A read has ended and is taken. */
    method Take(k: nat) returns (bytes: Result<Bytes>)
      requires k in pending
      modifies this
      ensures bytes == old(pending)[k] && pending == old(pending) - {k} && most == old(most)
    {
      bytes := pending[k];
      pending := pending - {k};
    }
  }

  /** Start the reads that are not started yet, up to the one at `k`. */
  method StartUpTo(fetches: Fetches, file: Bytes, base: nat, groups: seq<Group>, ghost from: nat, next: nat, k: nat) returns (nextToStart: nat)
    requires Reading(file, base, groups, fetches.pending, from, next) && from < |groups| && from <= k
    requires forall i :: 0 <= i < |groups| ==> groups[i].length >= 0
    modifies fetches
    ensures Reading(file, base, groups, fetches.pending, from, nextToStart)
    ensures next <= nextToStart && from < nextToStart && nextToStart <= (if next > k then next else k + 1)
    ensures old(fetches.most) <= fetches.most
    ensures fetches.most > old(fetches.most) ==> fetches.most <= nextToStart - from
  {
    hide Reading, ReadRange;
    nextToStart := next;
    while nextToStart < |groups| && nextToStart <= k
      invariant Reading(file, base, groups, fetches.pending, from, nextToStart)
      invariant next <= nextToStart <= (if next > k then next else k + 1)
      invariant old(fetches.most) <= fetches.most
      invariant fetches.most > old(fetches.most) ==> fetches.most <= nextToStart - from
    {
      var g := groups[nextToStart];
      StartedIsReading(file, base, groups, fetches.pending, from, nextToStart);
      fetches.Start(nextToStart, file, base + g.start, g.length);
      nextToStart := nextToStart + 1;
    }
  }

  lemma StartedIsReading(file: Bytes, base: nat, groups: seq<Group>, pending: map<nat, Result<Bytes>>, from: nat, next: nat)
    requires Reading(file, base, groups, pending, from, next) && next < |groups| && groups[next].length >= 0
    ensures var started := pending[next := ReadRange(file, base + groups[next].start, groups[next].length)];
            Reading(file, base, groups, started, from, next + 1) && |started| == next + 1 - from
  {
    ReadingCount(pending[next := ReadRange(file, base + groups[next].start, groups[next].length)], from, next + 1);
  }

  lemma TakenIsReading(file: Bytes, base: nat, groups: seq<Group>, pending: map<nat, Result<Bytes>>, k: nat, next: nat)
    requires Reading(file, base, groups, pending, k, next) && k < next
    ensures Reading(file, base, groups, pending - {k}, k + 1, next)
  {
  }

  lemma ReadAtTurn(file: Bytes, base: nat, groups: seq<Group>, pending: map<nat, Result<Bytes>>, k: nat, next: nat)
    requires Reading(file, base, groups, pending, k, next) && k < next
    ensures k in pending && k < |groups| && pending[k] == ReadRange(file, base + groups[k].start, groups[k].length)
  {
  }

  lemma NothingRead(file: Bytes, base: nat, groups: seq<Group>)
    ensures Reading(file, base, groups, map[], 0, 0)
  {
  }

  method PutGroup(sink: Sink, file: Bytes, base: nat, blobs: seq<Blob>, g: Group, bytes: Bytes) returns (count: nat)
    requires BlobsInOrder(blobs) && GroupAt(blobs, g, GAP, MAX_RANGE) && g.length >= 0
    requires ReadRange(file, base + g.start, g.length) == Success(bytes)
    requires TileData(file, base, blobs[..g.first]).Success?
    modifies sink
    ensures TileData(file, base, blobs[..g.first + g.count]).Success?
    ensures count == |sink.written| - |old(sink.written)|
    ensures forall front :: old(sink.written) == front + TileData(file, base, blobs[..g.first]).value
                      ==> sink.written == front + TileData(file, base, blobs[..g.first + g.count]).value
  {
    hide TileData, GroupAt, ReadRange;
    GroupFits(blobs, g);
    GroupReads(file, base, blobs, g, GAP, MAX_RANGE);
    count := 0;
    var b := g.first;
    while b < g.first + g.count
      invariant g.first <= b <= g.first + g.count <= |blobs|
      invariant TileData(file, base, blobs[..b]).Success? && count == |sink.written| - |old(sink.written)|
      invariant forall front :: old(sink.written) == front + TileData(file, base, blobs[..g.first]).value
                          ==> sink.written == front + TileData(file, base, blobs[..b]).value
    {
      TileDataStep(file, base, blobs, b);
      var off := blobs[b].offset - g.start;
      var n := sink.Put(bytes[off..off + blobs[b].length]);
      count := count + n;
      b := b + 1;
    }
  }

  lemma GroupFits(blobs: seq<Blob>, g: Group)
    requires GroupAt(blobs, g, GAP, MAX_RANGE)
    ensures g.count > 0 && g.first + g.count <= |blobs|
  {
  }

  lemma {:induction false} GroupsAreSound(blobs: seq<Blob>, groups: seq<Group>, from: nat, to: nat, i: nat)
    requires BlobsInOrder(blobs) && GroupsCover(blobs, groups, from, to, GAP, MAX_RANGE) && i < |groups|
    ensures GroupAt(blobs, groups[i], GAP, MAX_RANGE) && groups[i].length >= 0
    decreases |groups|
  {
    hide GroupAt;
    if i > 0 {
      GroupsAreSound(blobs, groups[1..], from + groups[0].count, to, i - 1);
    } else {
      GroupHasLength(blobs, groups[0]);
    }
  }

  lemma GroupHasLength(blobs: seq<Blob>, g: Group)
    requires BlobsInOrder(blobs) && GroupAt(blobs, g, GAP, MAX_RANGE)
    ensures g.length >= 0
  {
    GroupHoldsItsBlobs(blobs, g.first, g.first + g.count, GAP, MAX_RANGE);
    assert BlobEnd(blobs[g.first]) <= EndOf(blobs, g.first, g.first + g.count);
  }

  /** A request that cannot be read holds a blob that cannot, so there is no archive. */
  lemma NoArchive(file: Bytes, base: nat, blobs: seq<Blob>, g: Group)
    requires BlobsInOrder(blobs) && GroupAt(blobs, g, GAP, MAX_RANGE) && ReadRange(file, base + g.start, g.length).Failure?
    ensures TileData(file, base, blobs).Failure?
  {
    hide GroupAt, TileData;
    GroupFits(blobs, g);
    GroupReads(file, base, blobs, g, GAP, MAX_RANGE);
    var k :| g.first <= k < g.first + g.count && ReadRange(file, base + blobs[k].offset, blobs[k].length).Failure?;
    if TileData(file, base, blobs).Success? {
      TileDataNeedsAll(file, base, blobs, k);
    }
  }

  lemma NoTileDataYet(file: Bytes, base: nat, blobs: seq<Blob>)
    ensures TileData(file, base, blobs[..0]) == Success([])
  {
  }

  lemma NextGroup(blobs: seq<Blob>, groups: seq<Group>, r: nat, done: nat)
    requires r <= |groups| && GroupsCover(blobs, groups[r..], done, |blobs|, GAP, MAX_RANGE)
    ensures if r < |groups| then
              groups[r].first == done && GroupsCover(blobs, groups[r + 1..], done + groups[r].count, |blobs|, GAP, MAX_RANGE)
            else done == |blobs|
  {
    if r < |groups| {
      assert groups[r..][1..] == groups[r + 1..];
    }
  }

  /** Fetch the requests in order, `concurrency` under way at most, and put each blob as its turn comes. */
  method PutBlobs(sink: Sink, fetches: Fetches, file: Bytes, base: nat, blobs: seq<Blob>, groups: seq<Group>, concurrency: nat)
    returns (r: Result<nat>)
    requires BlobsInOrder(blobs) && concurrency > 0 && GroupsCover(blobs, groups, 0, |blobs|, GAP, MAX_RANGE)
    requires fetches.pending == map[] && fetches.most == 0
    modifies sink, fetches
    ensures fetches.most <= concurrency
    ensures match TileData(file, base, blobs)
            case Success(data) => r == Success(|data|) && sink.written == old(sink.written) + data
            case Failure(_) => r.Failure?
  {
    hide TileData, GroupAt, GroupsCover, ReadRange, Reading;
    NothingRead(file, base, groups);
    forall i | 0 <= i < |groups|
      ensures GroupAt(blobs, groups[i], GAP, MAX_RANGE) && groups[i].length >= 0
    {
      GroupsAreSound(blobs, groups, 0, |blobs|, i);
    }
    var nextToStart: nat, count: nat := 0, 0;
    ghost var done: nat := 0;
    NoTileDataYet(file, base, blobs);
    assert groups[0..] == groups;
    for k := 0 to |groups|
      invariant done <= |blobs| && GroupsCover(blobs, groups[k..], done, |blobs|, GAP, MAX_RANGE)
      invariant TileData(file, base, blobs[..done]).Success?
      invariant sink.written == old(sink.written) + TileData(file, base, blobs[..done]).value
      invariant count == |TileData(file, base, blobs[..done]).value|
      invariant Reading(file, base, groups, fetches.pending, k, nextToStart)
      invariant nextToStart < k + concurrency && fetches.most <= concurrency
    {
      NextGroup(blobs, groups, k, done);
      nextToStart := StartUpTo(fetches, file, base, groups, k, nextToStart, k + concurrency - 1);
      ReadAtTurn(file, base, groups, fetches.pending, k, nextToStart);
      TakenIsReading(file, base, groups, fetches.pending, k, nextToStart);
      var bytes := fetches.Take(k);
      if bytes.Failure? {
        NoArchive(file, base, blobs, groups[k]);
        return Failure(bytes.error);
      }
      GroupFits(blobs, groups[k]);
      var n := PutGroup(sink, file, base, blobs, groups[k], bytes.value);
      count := count + n;
      done := done + groups[k].count;
    }
    NextGroup(blobs, groups, |groups|, done);
    assert blobs[..|blobs|] == blobs;
    return Success(count);
  }

  /** How many reads may be under way: at least one, at most eight. */
  function AtOnce(concurrency: int): nat {
    if concurrency < 1 then 1 else if concurrency > 8 then 8 else concurrency
  }

  /**
   * Writes exactly the archive the plan describes: the front part, then every blob in the plan's
   * order. It fails when the layout does, when a blob cannot be read, or when the plan's total is not
   * that of its blobs.
   */
  method WriteExtract(z: Gzip, file: Bytes, plan: Plan, sink: Sink, concurrency: int) returns (r: Result<nat>, ghost mostReads: nat)
    requires ZoomOk(plan.selection.worldMaxZoom) && ZoomOk(plan.selection.maxZoom) && BlobsInOrder(plan.blobs)
    requires forall i :: 0 <= i < |plan.entries| ==> Names(plan.blobs, plan.entries[i].offset)
    modifies sink
    ensures mostReads <= 8 && (concurrency >= 1 ==> mostReads <= concurrency) && (concurrency < 1 ==> mostReads <= 1)
    ensures r.Success? <==> ArchiveOf(z, file, plan).Success? && plan.tileBytes == TotalLength(plan.blobs)
    ensures r.Success? ==> var archive := ArchiveOf(z, file, plan).value;
                           sink.written == old(sink.written) + archive && r.value == |archive|
  {
    hide LayoutFor, TileData, Front, TotalLength, GroupsCover;
    var laid := LayOut(z, plan.source, plan.selection, plan.metadata, plan.entries, plan.blobs, plan.tileBytes, plan.addressedTiles);
    if laid.Failure? {
      return Failure(laid.error), 0;
    }
    var layout := laid.value;
    var head := sink.Put(layout.head);
    var root := sink.Put(layout.root);
    var metadata := sink.Put(layout.metadata);
    var leaves := sink.Put(layout.leaves);
    FrontParts(layout);
    assert sink.written == old(sink.written) + Front(layout);
    var ranges := Coalesce(plan.blobs, GAP, MAX_RANGE);
    var fetches := new Fetches();
    var base := plan.source.at.tileDataOffset;
    var put := PutBlobs(sink, fetches, file, base, plan.blobs, ranges, AtOnce(concurrency));
    mostReads := fetches.most;
    if put.Failure? {
      return Failure(put.error), mostReads;
    }
    TileDataLength(file, base, plan.blobs);
    LayoutSize(z, plan);
    var written := head + root + metadata + leaves + put.value;
    if written != layout.totalBytes {
      return Failure("wrote a different number of bytes than planned"), mostReads;
    }
    return Success(written), mostReads;
  }

  lemma FrontParts(layout: Layout)
    ensures forall before: Bytes :: before + layout.head + layout.root + layout.metadata + layout.leaves == before + Front(layout)
    ensures |Front(layout)| == |layout.head| + |layout.root| + |layout.metadata| + |layout.leaves|
  {
  }

  lemma LayoutSize(z: Gzip, plan: Plan)
    requires ZoomOk(plan.selection.worldMaxZoom) && ZoomOk(plan.selection.maxZoom)
    ensures LayoutOf(z, plan).Success? ==> LayoutOf(z, plan).value.totalBytes == |Front(LayoutOf(z, plan).value)| + plan.tileBytes
  {
    hide Build, EncodeHeader, CompressInternal, Moved;
  }
}
