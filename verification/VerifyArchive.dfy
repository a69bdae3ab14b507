/**
 * Reading a written archive back and checking that it holds together
 * (packages/offline/src/pmtiles-extract.ts, `verifyArchive`).
 */
module VerifyArchive {
  import opened Wrappers
  import opened Varints
  import opened Directories
  import opened Headers
  import opened Archives
  import opened DirectoryTree
  import opened Selection
  import opened ExtractPlan
  import opened Extract
  import opened ExtractMeaning

  /** What the check has seen: the last tile id, the tiles addressed, the tile entries. */
  datatype Tally = Tally(last: int, tiles: nat, entries: nat)

  const DEEPEST_CHECKED: nat := 2

  /** The check of a directory's entries, `depth` directories down. */
  function CheckFrom(z: Gzip, file: Bytes, h: PmHeader, es: seq<PmEntry>, depth: nat, seen: Tally): Result<Tally>
    requires depth <= DEEPEST_CHECKED
    decreases DEEPEST_CHECKED - depth, |es|
  {
    if es == [] then Success(seen) else
      var e := es[0];
      if e.tileId < seen.last then Failure("entries out of order")
      else if e.runLength == 0 then
        if depth == DEEPEST_CHECKED then Failure("leaf directories nested")
        else if e.offset + e.length > h.at.leafDirectoryLength then Failure("a leaf points outside its section")
        else
          var leaf :- ReadDirectory(z, file, h.internalCompression, h.at.leafDirectoryOffset + e.offset, e.length);
          var after :- CheckFrom(z, file, h, leaf, depth + 1, seen);
          CheckFrom(z, file, h, es[1..], depth, after)
      else if e.offset + e.length > h.at.tileDataLength then Failure("a tile points outside the data")
      else CheckFrom(z, file, h, es[1..], depth, Tally(e.tileId, seen.tiles + e.runLength, seen.entries + 1))
  }

  datatype Section = Section(name: string, offset: nat, length: nat)

  function SectionList(s: Sections): (list: seq<Section>)
    ensures |list| == 4
  {
    [Section("root directory", s.rootDirectoryOffset, s.rootDirectoryLength), Section("metadata", s.metadataOffset, s.metadataLength),
     Section("leaf directories", s.leafDirectoryOffset, s.leafDirectoryLength), Section("tile data", s.tileDataOffset, s.tileDataLength)]
  }

  predicate Inside(s: Section, size: nat) {
    s.length == 0 || (PM_HEADER_BYTES <= s.offset && s.offset + s.length <= size)
  }

  /** The first section, from the one at `i`, that is not inside the file. */
  function FirstOutside(list: seq<Section>, i: nat, size: nat): Option<string>
    requires i <= |list|
    decreases |list| - i
  {
    if i == |list| then None
    else if !Inside(list[i], size) then Some("the " + list[i].name + " lies outside the file")
    else FirstOutside(list, i + 1, size)
  }

  /** Where the last of the first `i` sections ends. */
  function EndAfter(list: seq<Section>, i: nat): nat
    requires i <= |list|
  {
    if i == 0 then PM_HEADER_BYTES else
      var end, s := EndAfter(list, i - 1), list[i - 1];
      if s.length > 0 && s.offset + s.length > end then s.offset + s.length else end
  }

  /** Nothing when the archive holds together, else what is wrong with it. */
  function ArchiveProblem(z: Gzip, file: Bytes): Option<string> {
    match ReadPmHeader(HeadOf(file))
    case Failure(error) => Some(error)
    case Success(h) =>
      var s := h.at;
      var list := SectionList(s);
      if FirstOutside(list, 0, |file|).Some? then FirstOutside(list, 0, |file|)
      else if EndAfter(list, |list|) != |file| then Some("the file size does not match its header")
      else
        match ReadDirectory(z, file, h.internalCompression, s.rootDirectoryOffset, s.rootDirectoryLength)
        case Failure(error) => Some(error)
        case Success(root) =>
          match CheckFrom(z, file, h, root, 0, Tally(-1, 0, 0))
          case Failure(error) => Some(error)
          case Success(seen) =>
            if seen.tiles != s.numAddressedTiles then Some("the directories and the header count different tiles")
            else if seen.entries != s.numTileEntries then Some("the directories and the header count different entries")
            else None
  }

  // ---- the walk of the check -----------------------------------------------------------------------------

  lemma CheckStep(z: Gzip, file: Bytes, h: PmHeader, es: seq<PmEntry>, i: nat, depth: nat, seen: Tally)
    requires depth <= DEEPEST_CHECKED && i < |es|
    ensures var e := es[i];
            CheckFrom(z, file, h, es[i..], depth, seen) ==
            if e.tileId < seen.last then Failure("entries out of order")
            else if e.runLength == 0 then
              if depth == DEEPEST_CHECKED then Failure("leaf directories nested")
              else if e.offset + e.length > h.at.leafDirectoryLength then Failure("a leaf points outside its section")
              else
                match ReadDirectory(z, file, h.internalCompression, h.at.leafDirectoryOffset + e.offset, e.length) {
                  case Failure(error) => Failure(error)
                  case Success(leaf) =>
                    match CheckFrom(z, file, h, leaf, depth + 1, seen)
                    case Failure(error) => Failure(error)
                    case Success(after) => CheckFrom(z, file, h, es[i + 1..], depth, after)
                }
            else if e.offset + e.length > h.at.tileDataLength then Failure("a tile points outside the data")
            else CheckFrom(z, file, h, es[i + 1..], depth, Tally(e.tileId, seen.tiles + e.runLength, seen.entries + 1))
  {
    hide ReadDirectory;
    assert es[i..][1..] == es[i + 1..];
  }

  lemma CheckDone(z: Gzip, file: Bytes, h: PmHeader, es: seq<PmEntry>, depth: nat, seen: Tally)
    requires depth <= DEEPEST_CHECKED
    ensures es[0..] == es && CheckFrom(z, file, h, es[|es|..], depth, seen) == Success(seen)
  {
  }

  class Checker {
    const z: Gzip
    const file: Bytes
    const h: PmHeader
    var last: int
    var tiles: nat
    var entries: nat

    constructor (z: Gzip, file: Bytes, h: PmHeader)
      ensures this.z == z && this.file == file && this.h == h && last == -1 && tiles == entries == 0
    {
      this.z, this.file, this.h, last, tiles, entries := z, file, h, -1, 0, 0;
    }

    function Seen(): Tally
      reads this
    {
      Tally(last, tiles, entries)
    }

    method Check(offset: int, length: nat, depth: nat) returns (r: Result<bool>)
      requires depth <= DEEPEST_CHECKED
      modifies this
      ensures match ReadDirectory(z, file, h.internalCompression, offset, length)
              case Failure(error) => r == Failure(error)
              case Success(es) =>
                match CheckFrom(z, file, h, es, depth, old(Seen()))
                case Failure(error) => r == Failure(error)
                case Success(seen) => r.Success? && Seen() == seen
      decreases DEEPEST_CHECKED - depth
    {
      hide CheckFrom, DecodeDirectory, DecompressInternal, ReadRange;
      var raw := ReadRange(file, offset, length);
      if raw.Failure? {
        return Failure(raw.error);
      }
      var bytes := DecompressInternal(z, raw.value, h.internalCompression, MAX_DECOMPRESSED);
      if bytes.Failure? {
        return Failure(bytes.error);
      }
      var dir := DecodePmDirectory(bytes.value);
      if dir.Failure? {
        return Failure(dir.error);
      }
      var es := dir.value;
      CheckDone(z, file, h, es, depth, Seen());
      for i := 0 to |es|
        invariant CheckFrom(z, file, h, es, depth, old(Seen())) == CheckFrom(z, file, h, es[i..], depth, Seen())
      {
        CheckStep(z, file, h, es, i, depth, Seen());
        var e := es[i];
        if e.tileId < last {
          return Failure("entries out of order");
        }
        if e.runLength == 0 {
          if depth > 1 {
            return Failure("leaf directories nested");
          }
          if e.offset + e.length > h.at.leafDirectoryLength {
            return Failure("a leaf points outside its section");
          }
          var leaf := Check(h.at.leafDirectoryOffset + e.offset, e.length, depth + 1);
          if leaf.Failure? {
            return Failure(leaf.error);
          }
        } else {
          last := e.tileId;
          if e.offset + e.length > h.at.tileDataLength {
            return Failure("a tile points outside the data");
          }
          tiles := tiles + e.runLength;
          entries := entries + 1;
        }
      }
      CheckDone(z, file, h, es, depth, Seen());
      return Success(true);
    }
  }

  method Verify(z: Gzip, file: Bytes) returns (problem: Option<string>)
    ensures problem == ArchiveProblem(z, file)
  {
    hide ReadPmHeader, CheckFrom, ReadDirectory;
    var header := ReadPmHeader(HeadOf(file));
    if header.Failure? {
      return Some(header.error);
    }
    var h := header.value;
    var s := h.at;
    var sections, end := SectionList(s), PM_HEADER_BYTES;
    for i := 0 to |sections|
      invariant FirstOutside(sections, 0, |file|) == FirstOutside(sections, i, |file|)
      invariant end == EndAfter(sections, i)
    {
      var section := sections[i];
      if section.length > 0 {
        if section.offset < PM_HEADER_BYTES || section.offset + section.length > |file| {
          return Some("the " + section.name + " lies outside the file");
        }
        end := if end < section.offset + section.length then section.offset + section.length else end;
      }
    }
    if end != |file| {
      return Some("the file size does not match its header");
    }
    var checker := new Checker(z, file, h);
    var checked := checker.Check(s.rootDirectoryOffset, s.rootDirectoryLength, 0);
    if checked.Failure? {
      return Some(checked.error);
    }
    if checker.tiles != s.numAddressedTiles {
      return Some("the directories and the header count different tiles");
    }
    if checker.entries != s.numTileEntries {
      return Some("the directories and the header count different entries");
    }
    return None;
  }

  // ---- a written archive is accepted ---------------------------------------------------------------------

  lemma {:induction false} AddressedAppend(a: seq<PmEntry>, b: seq<PmEntry>)
    ensures AddressedTiles(a + b) == AddressedTiles(a) + AddressedTiles(b)
  {
    if b == [] {
      assert a + b == a;
    } else {
      AddressedAppend(a, b[..|b| - 1]);
      assert (a + b)[..|a + b| - 1] == a + b[..|b| - 1];
    }
  }

  /** Entries whose blobs all lie in the tile data. */
  predicate BlobsInside(es: seq<PmEntry>, size: nat) {
    forall i :: 0 <= i < |es| ==> es[i].runLength > 0 && es[i].offset + es[i].length <= size
  }

  function LastId(es: seq<PmEntry>, last: int): int {
    if es == [] then last else es[|es| - 1].tileId
  }

  /** Sorted runs inside the tile data are all counted. */
  lemma {:induction false} CheckOfRuns(z: Gzip, file: Bytes, h: PmHeader, es: seq<PmEntry>, depth: nat, seen: Tally)
    requires depth <= DEEPEST_CHECKED && StrictlySorted(es) && BlobsInside(es, h.at.tileDataLength)
    requires es != [] ==> seen.last <= es[0].tileId
    ensures CheckFrom(z, file, h, es, depth, seen)
         == Success(Tally(LastId(es, seen.last), seen.tiles + AddressedTiles(es), seen.entries + |es|))
    decreases |es|
  {
    if es != [] {
      AddressedFromFront(es);
      CheckOfRuns(z, file, h, es[1..], depth, Tally(es[0].tileId, seen.tiles + es[0].runLength, seen.entries + 1));
    }
  }

  /** The leaves as the archive stores them, from `offset` on in the leaf section. */
  predicate LeavesStored(file: Bytes, h: PmHeader, offset: nat, leaves: Bytes) {
    && offset + |leaves| <= h.at.leafDirectoryLength
    && ReadRange(file, h.at.leafDirectoryOffset + offset, |leaves|) == Success(leaves)
  }

  lemma StoredParts(file: Bytes, h: PmHeader, offset: nat, a: Bytes, b: Bytes)
    requires LeavesStored(file, h, offset, a + b)
    ensures LeavesStored(file, h, offset, a) && LeavesStored(file, h, offset + |a|, b)
  {
    var at := h.at.leafDirectoryOffset + offset;
    var all := file[at..at + |a + b|];
    assert all == a + b;
    assert file[at..at + |a|] == all[..|a|] == a;
    assert file[at + |a|..at + |a| + |b|] == all[|a|..] == b;
  }

  /** Following the leaf pointers counts the entries of every leaf, in order. */
  lemma {:induction false} CheckOfLeaves(z: Gzip, file: Bytes, h: PmHeader, entries: seq<PmEntry>, leafSize: nat, from: nat, offset: nat, seen: Tally)
    requires Lawful(z) && Supported(h.internalCompression) && GoodEntries(entries) && HaveOffsets(entries)
    requires 0 < leafSize <= MAX_LEAF_SIZE && from < |entries| <= MAX_TREE_ENTRIES && offset <= 120 * from
    requires BlobsInside(entries, h.at.tileDataLength) && seen.last <= entries[from].tileId
    requires LeavesFrom(z, h.internalCompression, entries, leafSize, from, offset).Success?
    requires LeavesStored(file, h, offset, LeavesFrom(z, h.internalCompression, entries, leafSize, from, offset).value.1)
    ensures CheckFrom(z, file, h, LeavesFrom(z, h.internalCompression, entries, leafSize, from, offset).value.0, 0, seen)
         == Success(Tally(LastId(entries, 0), seen.tiles + AddressedTiles(entries[from..]), seen.entries + |entries| - from))
    decreases |entries| - from
  {
    hide Pack, Unpack, GoodEntries, Lawful, LeavesFrom, CheckFrom, LeavesStored, BlobsInside, ReadRange, StrictlySorted, AddressedTiles;
    var to, leaf, pointers, leaves := FirstLeaf(z, h.internalCompression, entries, leafSize, from, offset);
    var chunk := entries[from..to];
    StoredParts(file, h, offset, leaf, leaves);
    ChunkIsCounted(z, file, h, entries, from, to, offset, leaf, seen);
    var after := Tally(entries[to - 1].tileId, seen.tiles + AddressedTiles(chunk), seen.entries + (to - from));
    var p := PmEntry(entries[from].tileId, offset, |leaf|, 0);
    CheckOfPointer(z, file, h, p, chunk, pointers, leaf, seen, after);
    assert entries[from..] == chunk + entries[to..];
    AddressedAppend(chunk, entries[to..]);
    if to < |entries| {
      GoodOrder(entries, to - 1, to);
      CheckOfLeaves(z, file, h, entries, leafSize, to, offset + |leaf|, after);
    } else {
      CheckOfNothing(z, file, h, after);
      NothingAddressed();
    }
  }

  lemma NothingAddressed()
    ensures AddressedTiles([]) == 0
  {
  }

  lemma CheckOfNothing(z: Gzip, file: Bytes, h: PmHeader, seen: Tally)
    ensures CheckFrom(z, file, h, [], 0, seen) == Success(seen)
  {
  }

  lemma CheckOfPointer(z: Gzip, file: Bytes, h: PmHeader, p: PmEntry, chunk: seq<PmEntry>, pointers: seq<PmEntry>, leaf: Bytes,
                       seen: Tally, after: Tally)
    requires p.runLength == 0 && p.offset >= 0 && p.length == |leaf| && p.tileId >= seen.last
    requires LeavesStored(file, h, p.offset, leaf) && Unpack(z, h.internalCompression, leaf) == Success(chunk)
    requires CheckFrom(z, file, h, chunk, 1, seen) == Success(after)
    ensures CheckFrom(z, file, h, [p] + pointers, 0, seen) == CheckFrom(z, file, h, pointers, 0, after)
  {
    hide Unpack;
    CheckStep(z, file, h, [p] + pointers, 0, 0, seen);
    assert ([p] + pointers)[0..] == [p] + pointers && ([p] + pointers)[1..] == pointers;
  }

  /** One leaf reads back and its entries are counted. */
  lemma ChunkIsCounted(z: Gzip, file: Bytes, h: PmHeader, entries: seq<PmEntry>, from: nat, to: nat, offset: nat, leaf: Bytes, seen: Tally)
    requires Lawful(z) && Supported(h.internalCompression) && GoodEntries(entries) && from < to <= |entries| <= MAX_TREE_ENTRIES
    requires to - from <= MAX_LEAF_SIZE && BlobsInside(entries, h.at.tileDataLength) && seen.last <= entries[from].tileId
    requires GoodEntries(entries[from..to]) && Pack(z, h.internalCompression, entries[from..to]) == Success(leaf)
    ensures Unpack(z, h.internalCompression, leaf) == Success(entries[from..to])
    ensures CheckFrom(z, file, h, entries[from..to], 1, seen)
         == Success(Tally(entries[to - 1].tileId, seen.tiles + AddressedTiles(entries[from..to]), seen.entries + (to - from)))
  {
    hide Pack, Unpack, Lawful, CheckFrom;
    GoodIsWritable(entries[from..to]);
    UnpackOfPack(z, h.internalCompression, entries[from..to]);
    CheckOfRuns(z, file, h, entries[from..to], 1, seen);
  }

  /** The directories of a written archive count what its header says. */
  lemma DirectoriesAreCounted(z: Gzip, archive: Bytes, h: PmHeader, moved: seq<PmEntry>)
    requires Lawful(z) && Supported(h.internalCompression) && Holds(z, archive, h, moved)
    requires GoodEntries(moved) && 0 < |moved| <= MAX_TREE_ENTRIES && BlobsInside(moved, h.at.tileDataLength)
    requires h.at.leafDirectoryLength == |Build(z, h.internalCompression, moved).value.leaves|
    ensures ReadDirectory(z, archive, h.internalCompression, h.at.rootDirectoryOffset, h.at.rootDirectoryLength).Success?
    ensures var root := ReadDirectory(z, archive, h.internalCompression, h.at.rootDirectoryOffset, h.at.rootDirectoryLength).value;
            CheckFrom(z, archive, h, root, 0, Tally(-1, 0, 0)) == Success(Tally(LastId(moved, 0), AddressedTiles(moved), |moved|))
  {
    hide Pack, Unpack, GoodEntries, Storable, Lawful, LeavesFrom, LeafCount, Tiles, BuildWith, CheckFrom, ReadRange, BlobsInside, AddressedTiles;
    var c := h.internalCompression;
    var built := Build(z, c, moved).value;
    GoodIsWritable(moved);
    PackGood(z, c, moved);
    if |Pack(z, c, moved).value| <= PM_MAX_ROOT_DIR {
      UnpackOfPack(z, c, moved);
      CheckOfRuns(z, archive, h, moved, 0, Tally(-1, 0, 0));
    } else {
      var used := BuildWithSucceeds(z, c, moved, FIRST_LEAF_SIZE);
      assert used <= MAX_LEAF_SIZE;
      LeavesGood(z, c, moved, used, 0, 0);
      var (pointers, leaves) := LeavesFrom(z, c, moved, used, 0, 0).value;
      TooManyPointers(|moved|, used, |pointers|);
      UnpackOfPack(z, c, pointers);
      assert LeafIsThere(archive, h, built.leaves, 0, |leaves|);
      assert leaves[0..0 + |leaves|] == leaves && moved[0..] == moved;
      CheckOfLeaves(z, archive, h, moved, used, 0, 0, Tally(-1, 0, 0));
    }
  }

  lemma MovedIsInside(es: seq<PmEntry>)
    requires Flat(es, 0, MAX_SAFE) && OffsetsAgree(es)
    ensures BlobsInside(Moved(es, BlobsOf(es)), TotalLength(BlobsOf(es)))
  {
    hide BlobsOf, TotalLength, NewOffset, OffsetsAgree, BlobsInOrder;
    FlatIsSorted(es, 0, MAX_SAFE);
    var moved := Moved(es, BlobsOf(es));
    forall i | 0 <= i < |moved|
      ensures moved[i].runLength > 0 && moved[i].offset + moved[i].length <= TotalLength(BlobsOf(es))
    {
      var k := BlobOfEntry(es, i);
      NewOffsetFits(BlobsOf(es), k);
    }
  }

  lemma {:induction false} MovedAddresses(es: seq<PmEntry>, blobs: seq<Blob>)
    ensures AddressedTiles(Moved(es, blobs)) == AddressedTiles(es)
  {
    if es != [] {
      MovedAddresses(es[..|es| - 1], blobs);
      assert Moved(es, blobs)[..|es| - 1] == Moved(es[..|es| - 1], blobs);
    }
  }

  /** The sections of a written archive lie inside it, and the tile data ends it. */
  lemma SectionsFit(s: Sections, size: nat)
    requires s.rootDirectoryOffset == PM_HEADER_BYTES
    requires s.metadataOffset == s.rootDirectoryOffset + s.rootDirectoryLength
    requires s.leafDirectoryOffset == s.metadataOffset + s.metadataLength
    requires s.tileDataOffset == s.leafDirectoryOffset + s.leafDirectoryLength
    requires s.tileDataOffset + s.tileDataLength == size
    ensures FirstOutside(SectionList(s), 0, size) == None && EndAfter(SectionList(s), 4) == size
  {
    var list := SectionList(s);
    assert FirstOutside(list, 4, size) == None;
    assert FirstOutside(list, 3, size) == None;
    assert FirstOutside(list, 2, size) == None;
    assert FirstOutside(list, 1, size) == None;
    assert EndAfter(list, 1) == s.metadataOffset;
    assert EndAfter(list, 2) == s.leafDirectoryOffset;
    assert EndAfter(list, 3) == s.tileDataOffset;
  }

  /** A header read from the head of a file is the one read from the whole of it. */
  lemma HeaderOfHead(file: Bytes)
    requires |file| >= PM_HEADER_BYTES
    ensures ReadPmHeader(HeadOf(file)) == ReadPmHeader(file)
  {
    hide ReadI32, ReadU64s;
    var head := HeadOf(file);
    assert head[..7] == file[..7] && head[8..96] == file[8..96];
    assert head[102..106] == file[102..106] && head[106..110] == file[106..110];
    assert head[110..114] == file[110..114] && head[114..118] == file[114..118];
    assert head[119..123] == file[119..123] && head[123..127] == file[123..127];
  }

  /** Every archive written from a good source passes the check. */
  lemma WrittenArchiveIsAccepted(z: Gzip, file: Bytes, sel: ExtractSelection, rangeOf: RangeOf, plan: Plan, archive: Bytes)
    requires Lawful(z) && Planned(z, file, sel, rangeOf, plan) && plan.totalBytes <= MAX_SAFE
    requires ZoomOk(plan.selection.worldMaxZoom) && ZoomOk(plan.selection.maxZoom)
    requires ArchiveOf(z, file, plan) == Success(archive)
    ensures ArchiveProblem(z, archive) == None
  {
    hide Planned, Build, EncodeHeader, ReadPmHeader, TileData, LayoutOf, ReadRange, GoodEntries, Moved, Holds, Lawful, CheckFrom,
         BlobsOf, TotalLength, AddressedTiles, VisitFrom, Accepted, BlobsInside, FirstOutside, EndAfter, SectionList, ReadDirectory, LastId,
         ArchiveOf, HeadOf, Supported, Flat, OffsetsAgree;
    PlanParts(z, file, sel, rangeOf, plan);
    EntriesAreFew(z, file, sel, rangeOf, plan);
    EntriesAgree(z, file, sel, rangeOf, plan);
    var h, data := ArchiveHolds(z, file, sel, rangeOf, plan, archive);
    ArchiveShape(z, file, plan, archive, h);
    var moved := Moved(plan.entries, plan.blobs);
    MovedIsInside(plan.entries);
    MovedAddresses(plan.entries, plan.blobs);
    DirectoriesAreCounted(z, archive, h, moved);
    SectionsFit(h.at, |archive|);
    HeaderOfHead(archive);
  }

  /** The written header's numbers. */
  lemma ArchiveShape(z: Gzip, file: Bytes, plan: Plan, archive: Bytes, h: PmHeader)
    requires ZoomOk(plan.selection.worldMaxZoom) && ZoomOk(plan.selection.maxZoom)
    requires ArchiveOf(z, file, plan) == Success(archive) && ReadPmHeader(archive) == Success(h)
    requires plan.tileBytes == TotalLength(plan.blobs)
    requires LayoutOf(z, plan).Success? && SafeSections(LayoutOf(z, plan).value.header.at)
    ensures |archive| >= PM_HEADER_BYTES && h == LayoutOf(z, plan).value.header
    ensures Build(z, h.internalCompression, Moved(plan.entries, plan.blobs)).Success?
    ensures var s := h.at;
            && s.rootDirectoryOffset == PM_HEADER_BYTES
            && s.metadataOffset == s.rootDirectoryOffset + s.rootDirectoryLength
            && s.leafDirectoryOffset == s.metadataOffset + s.metadataLength
            && s.tileDataOffset == s.leafDirectoryOffset + s.leafDirectoryLength
            && s.tileDataOffset + s.tileDataLength == |archive| && s.tileDataLength == plan.tileBytes
            && s.numAddressedTiles == plan.addressedTiles && s.numTileEntries == |plan.entries|
            && s.leafDirectoryLength == |Build(z, h.internalCompression, Moved(plan.entries, plan.blobs)).value.leaves|
  {
    hide Build, EncodeHeader, ReadPmHeader, TileData, LayoutOf, Moved, TotalLength, ArchiveOf, SafeSections;
    var layout, built, data := ArchiveParts(z, file, plan, archive);
    TileDataLength(file, plan.source.at.tileDataOffset, plan.blobs);
    HeaderRoundTrip(layout.header, layout.root + layout.metadata + layout.leaves + data);
    assert archive == layout.head + (layout.root + layout.metadata + layout.leaves + data);
  }

  // ---- an accepted archive reads -------------------------------------------------------------------------

  /** What the check asks of one entry: a run's bytes are in the tile data, a leaf can be read and passes too. */
  lemma {:induction false} EntryWasChecked(z: Gzip, file: Bytes, h: PmHeader, es: seq<PmEntry>, depth: nat, seen: Tally, i: nat) returns (at: Tally)
    requires depth <= DEEPEST_CHECKED && CheckFrom(z, file, h, es, depth, seen).Success? && i < |es|
    ensures es[i].runLength > 0 ==> es[i].offset + es[i].length <= h.at.tileDataLength
    ensures es[i].runLength == 0 ==>
              && depth < DEEPEST_CHECKED
              && var leaf := ReadDirectory(z, file, h.internalCompression, h.at.leafDirectoryOffset + es[i].offset, es[i].length);
                 leaf.Success? && CheckFrom(z, file, h, leaf.value, depth + 1, at).Success?
    decreases |es|
  {
    hide ReadDirectory;
    var e := es[0];
    if i == 0 {
      return seen;
    }
    var rest := es[1..];
    assert rest[i - 1] == es[i];
    if e.runLength == 0 {
      var leaf := ReadDirectory(z, file, h.internalCompression, h.at.leafDirectoryOffset + e.offset, e.length).value;
      at := EntryWasChecked(z, file, h, rest, depth, CheckFrom(z, file, h, leaf, depth + 1, seen).value, i - 1);
    } else {
      at := EntryWasChecked(z, file, h, rest, depth, Tally(e.tileId, seen.tiles + e.runLength, seen.entries + 1), i - 1);
    }
  }

  lemma LookupIsOneOf(es: seq<PmEntry>, id: nat) returns (i: nat)
    requires Lookup(es, id).Some?
    ensures i < |es| && Lookup(es, id) == Some(es[i])
  {
    var (exact, at) := SearchFrom(es, id, 0, |es| - 1);
    i := at;
  }

  lemma {:induction false} OffsetAtLeast(raws: seq<nat>, lengths: seq<nat>, i: nat)
    requires i < |raws| <= |lengths|
    ensures OffsetAt(raws, lengths, i) >= -1
  {
    if i > 0 { OffsetAtLeast(raws, lengths, i - 1); }
  }

  /** A decoded offset is at least -1. */
  lemma DecodedOffsets(bs: Bytes, i: nat)
    requires DecodeDirectory(bs).Success? && i < |DecodeDirectory(bs).value|
    ensures DecodeDirectory(bs).value[i].offset >= -1
  {
    hide ReadVarint, ReadNums, OffsetAt, IdAt;
    var (n, b0) := ReadVarint(bs).value;
    var (deltas, b1) := ReadNums(n, b0).value;
    var (runs, b2) := ReadNums(n, b1).value;
    var (lengths, b3) := ReadNums(n, b2).value;
    var (raws, rest) := ReadNums(n, b3).value;
    OffsetAtLeast(raws, lengths, i);
  }

  lemma ReadOffsets(z: Gzip, file: Bytes, compression: nat, offset: int, length: nat, i: nat)
    requires ReadDirectory(z, file, compression, offset, length).Success? && i < |ReadDirectory(z, file, compression, offset, length).value|
    ensures ReadDirectory(z, file, compression, offset, length).value[i].offset >= -1
  {
    hide DecodeDirectory;
    var raw := ReadRange(file, offset, length).value;
    DecodedOffsets(DecompressInternal(z, raw, compression, MAX_DECOMPRESSED).value, i);
  }

  /** The runs of a directory and of the leaves under it, in order. */
  function RunsOf(z: Gzip, file: Bytes, h: PmHeader, es: seq<PmEntry>, depth: nat): seq<PmEntry>
    requires depth <= DEEPEST_CHECKED
    decreases DEEPEST_CHECKED - depth, |es|
  {
    if es == [] then [] else
      var e := es[0];
      (if e.runLength > 0 then [e]
       else if depth == DEEPEST_CHECKED then []
       else
         match ReadDirectory(z, file, h.internalCompression, h.at.leafDirectoryOffset + e.offset, e.length)
         case Failure(_) => []
         case Success(leaf) => RunsOf(z, file, h, leaf, depth + 1))
      + RunsOf(z, file, h, es[1..], depth)
  }

  /** Ids that never go back, none below `lo`. */
  ghost predicate NeverBack(runs: seq<PmEntry>, lo: int) {
    && (forall i :: 0 <= i < |runs| ==> lo <= runs[i].tileId)
    && (forall i, j :: 0 <= i < j < |runs| ==> runs[i].tileId <= runs[j].tileId)
  }

  /** What the check makes of some runs, after what it has seen. */
  ghost predicate Counted(seen: Tally, runs: seq<PmEntry>, after: Tally) {
    && NeverBack(runs, seen.last) && after.last == LastId(runs, seen.last)
    && after.tiles == seen.tiles + AddressedTiles(runs) && after.entries == seen.entries + |runs|
  }

  lemma CountedBoth(seen: Tally, a: seq<PmEntry>, mid: Tally, b: seq<PmEntry>, after: Tally)
    requires Counted(seen, a, mid) && Counted(mid, b, after)
    ensures Counted(seen, a + b, after)
  {
    AddressedAppend(a, b);
    hide AddressedTiles;
    var all := a + b;
    forall i | 0 <= i < |all| ensures seen.last <= all[i].tileId && (i < |a| ==> all[i].tileId <= mid.last) {
      if i < |a| { assert a[i].tileId <= a[|a| - 1].tileId || i == |a| - 1; }
    }
  }

  lemma CountedOne(seen: Tally, e: PmEntry)
    requires seen.last <= e.tileId
    ensures Counted(seen, [e], Tally(e.tileId, seen.tiles + e.runLength, seen.entries + 1))
  {
    assert [e][..0] == [];
  }

  /** What passes the check is counted as it is: run by run, through the leaves, ids never going back. */
  lemma {:induction false} CheckCounts(z: Gzip, file: Bytes, h: PmHeader, es: seq<PmEntry>, depth: nat, seen: Tally)
    requires depth <= DEEPEST_CHECKED && CheckFrom(z, file, h, es, depth, seen).Success?
    ensures Counted(seen, RunsOf(z, file, h, es, depth), CheckFrom(z, file, h, es, depth, seen).value)
    decreases DEEPEST_CHECKED - depth, |es|
  {
    hide ReadDirectory, Counted;
    if es == [] {
      CountedNone(seen);
    } else {
      var e, rest := es[0], es[1..];
      var after := CheckFrom(z, file, h, es, depth, seen).value;
      if e.runLength == 0 {
        var leaf := ReadDirectory(z, file, h.internalCompression, h.at.leafDirectoryOffset + e.offset, e.length).value;
        var mid := CheckFrom(z, file, h, leaf, depth + 1, seen).value;
        CheckCounts(z, file, h, leaf, depth + 1, seen);
        CheckCounts(z, file, h, rest, depth, mid);
        CountedBoth(seen, RunsOf(z, file, h, leaf, depth + 1), mid, RunsOf(z, file, h, rest, depth), after);
      } else {
        var mid := Tally(e.tileId, seen.tiles + e.runLength, seen.entries + 1);
        CountedOne(seen, e);
        CheckCounts(z, file, h, rest, depth, mid);
        CountedBoth(seen, [e], mid, RunsOf(z, file, h, rest, depth), after);
      }
    }
  }

  lemma CountedNone(seen: Tally)
    ensures Counted(seen, [], seen)
  {
  }

  lemma {:induction false} RunOfEntry(z: Gzip, file: Bytes, h: PmHeader, es: seq<PmEntry>, depth: nat, i: nat, r: PmEntry)
    requires depth <= DEEPEST_CHECKED && i < |es|
    requires if es[i].runLength > 0 then r == es[i] else
               && depth < DEEPEST_CHECKED
               && var leaf := ReadDirectory(z, file, h.internalCompression, h.at.leafDirectoryOffset + es[i].offset, es[i].length);
                  leaf.Success? && r in RunsOf(z, file, h, leaf.value, depth + 1)
    ensures r in RunsOf(z, file, h, es, depth)
    decreases |es|
  {
    hide ReadDirectory;
    if i > 0 {
      assert es[1..][i - 1] == es[i];
      RunOfEntry(z, file, h, es[1..], depth, i - 1, r);
    }
  }

  /** The run the reader's walk ends at. */
  function RunAt(z: Gzip, file: Bytes, h: PmHeader, offset: int, length: nat, id: nat, depth: nat): Result<Option<PmEntry>>
    requires depth <= MAX_DEPTH
    decreases MAX_DEPTH - depth
  {
    if depth == MAX_DEPTH then Failure("leaf directories nested too deep") else
      var dir :- ReadDirectory(z, file, h.internalCompression, offset, length);
      match Lookup(dir, id)
      case None => Success(None)
      case Some(e) =>
        if e.runLength > 0 then Success(Some(e))
        else RunAt(z, file, h, h.at.leafDirectoryOffset + e.offset, e.length, id, depth + 1)
  }

  /** A run whose bytes are in the file. */
  predicate InFile(h: PmHeader, e: PmEntry, size: nat) {
    0 <= h.at.tileDataOffset + e.offset && h.at.tileDataOffset + e.offset + e.length <= size
  }

  /** The walk reads exactly when it comes to a run whose bytes are in the file, or to none. */
  lemma {:induction false} WalkReadsTheRun(z: Gzip, file: Bytes, h: PmHeader, offset: int, length: nat, id: nat, depth: nat)
    requires depth <= MAX_DEPTH
    ensures var run := RunAt(z, file, h, offset, length, id, depth);
            WalkFrom(z, file, h, offset, length, id, depth).Success? <==>
            run.Success? && (run.value.Some? ==> InFile(h, run.value.value, |file|))
    decreases MAX_DEPTH - depth
  {
    hide ReadDirectory, Lookup;
    if depth < MAX_DEPTH {
      var dir := ReadDirectory(z, file, h.internalCompression, offset, length);
      if dir.Success? && Lookup(dir.value, id).Some? && Lookup(dir.value, id).value.runLength == 0 {
        var e := Lookup(dir.value, id).value;
        WalkReadsTheRun(z, file, h, h.at.leafDirectoryOffset + e.offset, e.length, id, depth + 1);
      }
    }
  }

  /** Below a directory that passes the check the walk comes to one of its runs, or to none. */
  lemma {:induction false} CheckedRunIsFound(z: Gzip, file: Bytes, h: PmHeader, offset: int, length: nat, es: seq<PmEntry>, depth: nat, seen: Tally, id: nat)
    requires depth <= DEEPEST_CHECKED && ReadDirectory(z, file, h.internalCompression, offset, length) == Success(es)
    requires CheckFrom(z, file, h, es, depth, seen).Success?
    ensures var run := RunAt(z, file, h, offset, length, id, depth);
            && run.Success?
            && (run.value.Some? ==> var r := run.value.value;
                  r in RunsOf(z, file, h, es, depth) && -1 <= r.offset && r.offset + r.length <= h.at.tileDataLength)
    decreases DEEPEST_CHECKED - depth
  {
    hide ReadDirectory, Lookup, CheckFrom, RunsOf;
    if Lookup(es, id).Some? {
      var i := LookupIsOneOf(es, id);
      var at := EntryWasChecked(z, file, h, es, depth, seen, i);
      if es[i].runLength == 0 {
        var o := h.at.leafDirectoryOffset + es[i].offset;
        var leaf := ReadDirectory(z, file, h.internalCompression, o, es[i].length).value;
        CheckedRunIsFound(z, file, h, o, es[i].length, leaf, depth + 1, at, id);
        var run := RunAt(z, file, h, o, es[i].length, id, depth + 1).value;
        if run.Some? { RunOfEntry(z, file, h, es, depth, i, run.value); }
      } else {
        ReadOffsets(z, file, h.internalCompression, offset, length, i);
        RunOfEntry(z, file, h, es, depth, i, es[i]);
      }
    }
  }

  /** A section that is not empty lies in the file. */
  lemma TileDataIsInside(h: PmHeader, size: nat)
    requires FirstOutside(SectionList(h.at), 0, size).None?
    ensures h.at.tileDataLength > 0 ==> PM_HEADER_BYTES <= h.at.tileDataOffset && h.at.tileDataOffset + h.at.tileDataLength <= size
  {
    var list := SectionList(h.at);
    assert FirstOutside(list, 1, size).None? && FirstOutside(list, 2, size).None? && FirstOutside(list, 3, size).None?;
    assert Inside(list[3], size);
  }

  /** The root directory of an archive, and the runs under it. */
  function TreeRuns(z: Gzip, file: Bytes, h: PmHeader): seq<PmEntry> {
    match ReadDirectory(z, file, h.internalCompression, h.at.rootDirectoryOffset, h.at.rootDirectoryLength)
    case Failure(_) => []
    case Success(root) => RunsOf(z, file, h, root, 0)
  }

  /** What the check promises of an accepted archive: its runs never go back, and are as many, of as many tiles, as the header says. */
  lemma AcceptedArchiveCounts(z: Gzip, file: Bytes)
    requires ArchiveProblem(z, file).None?
    ensures ReadPmHeader(HeadOf(file)).Success?
    ensures var h := ReadPmHeader(HeadOf(file)).value;
            var runs := TreeRuns(z, file, h);
            NeverBack(runs, 0) && |runs| == h.at.numTileEntries && AddressedTiles(runs) == h.at.numAddressedTiles
  {
    hide ReadPmHeader, ReadDirectory, CheckFrom, HeadOf, FirstOutside, EndAfter, RunsOf, AddressedTiles;
    var h := ReadPmHeader(HeadOf(file)).value;
    var root := ReadDirectory(z, file, h.internalCompression, h.at.rootDirectoryOffset, h.at.rootDirectoryLength).value;
    CheckCounts(z, file, h, root, 0, Tally(-1, 0, 0));
  }

  /** A section is empty, or after the header and within the file. */
  ghost predicate LiesWithin(offset: nat, length: nat, size: nat) {
    length == 0 || (127 <= offset && offset + length <= size)
  }

  /** The sections hold together: each is empty or within the file, and nothing comes after the last of them. */
  lemma SectionsHoldTogether(s: Sections, size: nat)
    ensures FirstOutside(SectionList(s), 0, size).None? && EndAfter(SectionList(s), 4) == size <==>
              && LiesWithin(s.rootDirectoryOffset, s.rootDirectoryLength, size) && LiesWithin(s.metadataOffset, s.metadataLength, size)
              && LiesWithin(s.leafDirectoryOffset, s.leafDirectoryLength, size) && LiesWithin(s.tileDataOffset, s.tileDataLength, size)
              && size >= 127
              && (size > 127 ==>
                    || (s.rootDirectoryLength > 0 && s.rootDirectoryOffset + s.rootDirectoryLength == size)
                    || (s.metadataLength > 0 && s.metadataOffset + s.metadataLength == size)
                    || (s.leafDirectoryLength > 0 && s.leafDirectoryOffset + s.leafDirectoryLength == size)
                    || (s.tileDataLength > 0 && s.tileDataOffset + s.tileDataLength == size))
  {
    var list := SectionList(s);
    assert FirstOutside(list, 4, size) == None;
    assert FirstOutside(list, 3, size).None? <==> Inside(list[3], size);
    assert FirstOutside(list, 2, size).None? <==> Inside(list[2], size) && Inside(list[3], size);
    assert FirstOutside(list, 1, size).None? <==> Inside(list[1], size) && Inside(list[2], size) && Inside(list[3], size);
    assert EndAfter(list, 0) == 127;
    assert EndAfter(list, 1) >= 127 && EndAfter(list, 2) >= EndAfter(list, 1) && EndAfter(list, 3) >= EndAfter(list, 2);
  }

  /** The runs of an accepted archive are within its tile data. */
  lemma {:induction false} RunsAreInside(z: Gzip, file: Bytes, h: PmHeader, es: seq<PmEntry>, depth: nat, seen: Tally, run: PmEntry)
    requires depth <= DEEPEST_CHECKED && CheckFrom(z, file, h, es, depth, seen).Success? && run in RunsOf(z, file, h, es, depth)
    ensures run.runLength > 0 && run.offset + run.length <= h.at.tileDataLength
    decreases DEEPEST_CHECKED - depth, |es|
  {
    hide ReadDirectory;
    if es != [] {
      var e := es[0];
      if e.runLength == 0 {
        var leaf := ReadDirectory(z, file, h.internalCompression, h.at.leafDirectoryOffset + e.offset, e.length).value;
        var after := CheckFrom(z, file, h, leaf, depth + 1, seen).value;
        if run in RunsOf(z, file, h, leaf, depth + 1) {
          RunsAreInside(z, file, h, leaf, depth + 1, seen, run);
        } else {
          RunsAreInside(z, file, h, es[1..], depth, after, run);
        }
      } else if run != e {
        RunsAreInside(z, file, h, es[1..], depth, Tally(e.tileId, seen.tiles + e.runLength, seen.entries + 1), run);
      }
    }
  }

  /** An accepted archive is whole: its sections are within it and end it, and its runs are within the tile data. */
  lemma AcceptedArchiveIsWhole(z: Gzip, file: Bytes)
    requires ArchiveProblem(z, file).None?
    ensures ReadPmHeader(HeadOf(file)).Success?
    ensures var h, size := ReadPmHeader(HeadOf(file)).value, |file|;
            var s := h.at;
            && LiesWithin(s.rootDirectoryOffset, s.rootDirectoryLength, size) && LiesWithin(s.metadataOffset, s.metadataLength, size)
            && LiesWithin(s.leafDirectoryOffset, s.leafDirectoryLength, size) && LiesWithin(s.tileDataOffset, s.tileDataLength, size)
            && (size > 127 ==>
                  || (s.rootDirectoryLength > 0 && s.rootDirectoryOffset + s.rootDirectoryLength == size)
                  || (s.metadataLength > 0 && s.metadataOffset + s.metadataLength == size)
                  || (s.leafDirectoryLength > 0 && s.leafDirectoryOffset + s.leafDirectoryLength == size)
                  || (s.tileDataLength > 0 && s.tileDataOffset + s.tileDataLength == size))
            && forall run :: run in TreeRuns(z, file, h) ==> run.runLength > 0 && run.offset + run.length <= s.tileDataLength
  {
    hide ReadPmHeader, ReadDirectory, CheckFrom, HeadOf, FirstOutside, EndAfter, RunsOf, SectionList;
    var h := ReadPmHeader(HeadOf(file)).value;
    SectionsHoldTogether(h.at, |file|);
    var root := ReadDirectory(z, file, h.internalCompression, h.at.rootDirectoryOffset, h.at.rootDirectoryLength).value;
    forall run | run in TreeRuns(z, file, h) ensures run.runLength > 0 && run.offset + run.length <= h.at.tileDataLength {
      RunsAreInside(z, file, h, root, 0, Tally(-1, 0, 0), run);
    }
  }

  /** Where even an empty run can be read: there are tile data, or none to look for, or their place is in the file. */
  predicate DataCanBeRead(h: PmHeader, size: nat) {
    h.at.tileDataLength > 0 || h.at.numTileEntries == 0 || 1 <= h.at.tileDataOffset <= size
  }

  /**
   * What the check is for: in an accepted archive the walk for any tile decodes every directory it
   * meets and comes to a run or to none. It reads exactly when that run is in the file, and always when
   * the archive has tile data, or no runs, or a place for them in the file.
   */
  lemma AcceptedArchiveReads(z: Gzip, file: Bytes, id: nat)
    requires ArchiveProblem(z, file).None?
    ensures ReadPmHeader(HeadOf(file)).Success?
    ensures var h := ReadPmHeader(HeadOf(file)).value;
            var run := RunAt(z, file, h, h.at.rootDirectoryOffset, h.at.rootDirectoryLength, id, 0);
            && run.Success? && (run.value.Some? ==> run.value.value in TreeRuns(z, file, h))
            && (WalkTile(z, file, h, id).Success? <==> run.value.None? || InFile(h, run.value.value, |file|))
            && (DataCanBeRead(h, |file|) ==> WalkTile(z, file, h, id).Success?)
  {
    hide ReadPmHeader, ReadDirectory, CheckFrom, WalkFrom, RunAt, RunsOf, HeadOf, FirstOutside, EndAfter, AddressedTiles, NeverBack;
    var h := ReadPmHeader(HeadOf(file)).value;
    TileDataIsInside(h, |file|);
    AcceptedArchiveCounts(z, file);
    var root := ReadDirectory(z, file, h.internalCompression, h.at.rootDirectoryOffset, h.at.rootDirectoryLength).value;
    CheckedRunIsFound(z, file, h, h.at.rootDirectoryOffset, h.at.rootDirectoryLength, root, 0, Tally(-1, 0, 0), id);
    WalkReadsTheRun(z, file, h, h.at.rootDirectoryOffset, h.at.rootDirectoryLength, id, 0);
  }

  // ---- empty tile data --------------------------------------------------------------------------------------

  /** The directory of one run at tile 0: at offset -1, or empty at offset 0. */
  function OneRun(before: bool): seq<PmEntry> {
    [if before then PmEntry(0, -1, 1, 1) else PmEntry(0, 0, 0, 1)]
  }

  function OneRunBytes(before: bool): Bytes {
    EncodeNums([1]) + (EncodeNums([0]) + (EncodeNums([1]) + (EncodeNums([if before then 1 else 0]) + EncodeNums([if before then 0 else 1]))))
  }

  lemma OneNumber(n: nat)
    requires n < 128
    ensures EncodeNums([n]) == EncodeVarint(n) && |EncodeNums([n])| == 1
  {
    assert [n][1..] == [];
  }

  lemma OneRunDecodes(before: bool)
    ensures |OneRunBytes(before)| == 5 && DecodeDirectory(OneRunBytes(before)) == Success(OneRun(before))
  {
    var l, r := if before then 1 else 0, if before then 0 else 1;
    OneNumber(1);
    OneNumber(0);
    var b3 := EncodeNums([l]) + EncodeNums([r]);
    var b1 := EncodeNums([1]) + b3;
    var b0 := EncodeNums([0]) + b1;
    VarintRoundTrip(1, b0);
    NumsRoundTrip([0], b1);
    NumsRoundTrip([1], b3);
    NumsRoundTrip([l], EncodeNums([r]));
    NumsRoundTrip([r], []);
    assert EncodeNums([r]) + [] == EncodeNums([r]);
    hide EncodeNums, ReadNums, EncodeVarint, ReadVarint;
    assert DecodeDirectory(OneRunBytes(before)) == Success(EntriesOf([0], [1], [l], [r]));
    assert EntriesOf([0], [1], [l], [r])[0] == OneRun(before)[0];
    assert EntriesOf([0], [1], [l], [r]) == OneRun(before);
  }

  /** An archive of one run, and of no tile data, said to be at `place`. */
  function OneRunHeader(place: nat): PmHeader {
    PmHeader(Sections(PM_HEADER_BYTES, 5, 0, 0, 0, 0, place, 0, 1, 1, 1), true, 1, 1, 0, 0, 0, 0, 0, 0, 0, 0, 0, 0)
  }

  function OneRunArchive(place: nat): Bytes {
    EncodeHeader(OneRunHeader(place)) + OneRunBytes(place == 0)
  }

  lemma OneRunParts(z: Gzip, place: nat)
    requires place <= MAX_SAFE
    ensures var file := OneRunArchive(place);
            && |file| == PM_HEADER_BYTES + 5 && ReadPmHeader(HeadOf(file)) == Success(OneRunHeader(place))
            && ReadDirectory(z, file, 1, PM_HEADER_BYTES, 5) == Success(OneRun(place == 0))
  {
    hide EncodeHeader, ReadPmHeader, DecodeDirectory, OneRunBytes, OneRun;
    var h, root := OneRunHeader(place), OneRunBytes(place == 0);
    OneRunDecodes(place == 0);
    HeaderRoundTrip(h, root);
    HeaderOfHead(OneRunArchive(place));
    assert OneRunArchive(place)[PM_HEADER_BYTES..PM_HEADER_BYTES + 5] == root;
  }

  lemma OneRunIsAccepted(z: Gzip, place: nat)
    requires place <= MAX_SAFE
    ensures ArchiveProblem(z, OneRunArchive(place)).None?
  {
    hide ReadPmHeader, ReadDirectory, OneRunArchive, HeadOf;
    var h, es := OneRunHeader(place), OneRun(place == 0);
    OneRunParts(z, place);
    assert es[1..] == [];
    SectionsOfOne(place);
    assert CheckFrom(z, OneRunArchive(place), h, es[1..], 0, Tally(0, 1, 1)) == Success(Tally(0, 1, 1));
  }

  lemma SectionsOfOne(place: nat)
    ensures var list := SectionList(OneRunHeader(place).at);
            FirstOutside(list, 0, PM_HEADER_BYTES + 5).None? && EndAfter(list, 4) == PM_HEADER_BYTES + 5
  {
    var list, size := SectionList(OneRunHeader(place).at), PM_HEADER_BYTES + 5;
    assert FirstOutside(list, 4, size) == FirstOutside(list, 3, size) == FirstOutside(list, 2, size) == FirstOutside(list, 1, size) == None;
    assert EndAfter(list, 1) == EndAfter(list, 2) == EndAfter(list, 3) == size;
  }

  /**
   * Of empty tile data the check does not look at the place. For every place there is an accepted
   * archive of one run that reads exactly when the place is in the file.
   */
  lemma EmptyDataReadsWhereItCan(z: Gzip, place: nat)
    requires place <= MAX_SAFE
    ensures var file, h := OneRunArchive(place), OneRunHeader(place);
            && ArchiveProblem(z, file).None? && ReadPmHeader(HeadOf(file)) == Success(h)
            && (WalkTile(z, file, h, 0).Success? <==> DataCanBeRead(h, |file|))
  {
    hide ReadPmHeader, ReadDirectory, OneRunArchive, HeadOf, WalkFrom, ArchiveProblem;
    var file, h := OneRunArchive(place), OneRunHeader(place);
    OneRunIsAccepted(z, place);
    OneRunParts(z, place);
    WalkStep(z, file, h, PM_HEADER_BYTES, 5, 0, 0);
    assert SearchFrom(OneRun(place == 0), 0, 0, 0) == (true, 0);
  }
}
