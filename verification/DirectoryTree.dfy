/**
 * Tile entries as a root directory that fits the first 16 KiB, and the leaf directories it points
 * at when they do not all fit (packages/offline/src/pmtiles.ts, `buildPmDirectories`).
 */
module DirectoryTree {
  import opened Wrappers
  import opened Numbers
  import opened Varints
  import opened Directories
  import opened Headers
  import opened Archives

  const PM_ROOT_BYTES: nat := 16_384
  const PM_MAX_ROOT_DIR: nat := PM_ROOT_BYTES - PM_HEADER_BYTES
  const FIRST_LEAF_SIZE: nat := 4096

  datatype Built = Built(root: Bytes, leaves: Bytes, leafCount: nat)

  /** A directory as it is stored. */
  function Pack(z: Gzip, compression: nat, es: seq<PmEntry>): Result<Bytes>
    requires HaveOffsets(es)
  {
    var raw :- EncodeDirectory(es);
    CompressInternal(z, raw, compression)
  }

  function LeafEnd(count: nat, from: nat, leafSize: nat): nat {
    if from + leafSize < count then from + leafSize else count
  }

  /** The leaves of the entries at `from` and after, `leafSize` each, and the pointers to them. */
  function LeavesFrom(z: Gzip, compression: nat, entries: seq<PmEntry>, leafSize: nat, from: nat, offset: nat)
    : (r: Result<(seq<PmEntry>, Bytes)>)
    requires HaveOffsets(entries) && leafSize > 0
    ensures r.Success? ==> HaveOffsets(r.value.0)
    decreases |entries| - from
  {
    if from >= |entries| then Success(([], [])) else
      var leaf :- Pack(z, compression, entries[from..LeafEnd(|entries|, from, leafSize)]);
      var (pointers, leaves) :- LeavesFrom(z, compression, entries, leafSize, from + leafSize, offset + |leaf|);
      Success(([PmEntry(entries[from].tileId, offset, |leaf|, 0)] + pointers, leaf + leaves))
  }

  function BuildWith(z: Gzip, compression: nat, entries: seq<PmEntry>, leafSize: nat): Result<Built>
    requires HaveOffsets(entries) && leafSize > 0
    decreases 2 * |entries| + FIRST_LEAF_SIZE - leafSize
  {
    var (pointers, leaves) :- LeavesFrom(z, compression, entries, leafSize, 0, 0);
    var root :- Pack(z, compression, pointers);
    if |root| <= PM_MAX_ROOT_DIR then Success(Built(root, leaves, |pointers|))
    else if leafSize > |entries| then Failure("the directory cannot be made to fit")
    else BuildWith(z, compression, entries, leafSize * 2)
  }

  function Build(z: Gzip, compression: nat, entries: seq<PmEntry>): Result<Built>
    requires HaveOffsets(entries)
  {
    var whole :- Pack(z, compression, entries);
    if |whole| <= PM_MAX_ROOT_DIR then Success(Built(whole, [], 0))
    else BuildWith(z, compression, entries, FIRST_LEAF_SIZE)
  }

  // ---- the loops -----------------------------------------------------------------------------------

  method PackDirectory(z: Gzip, compression: nat, es: seq<PmEntry>) returns (r: Result<Bytes>)
    requires HaveOffsets(es)
    ensures r == Pack(z, compression, es)
  {
    var raw := EncodePmDirectory(es);
    if raw.Failure? {
      return Failure(raw.error);
    }
    return CompressInternal(z, raw.value, compression);
  }

  /** `r`, with what the loop has gathered before it. */
  function After(pointers: seq<PmEntry>, leaves: Bytes, r: Result<(seq<PmEntry>, Bytes)>): Result<(seq<PmEntry>, Bytes)> {
    match r
    case Failure(e) => Failure(e)
    case Success((more, bytes)) => Success((pointers + more, leaves + bytes))
  }

  lemma LeavesStep(z: Gzip, compression: nat, entries: seq<PmEntry>, leafSize: nat, from: nat, offset: nat,
                   pointers: seq<PmEntry>, leaves: Bytes)
    requires HaveOffsets(entries) && leafSize > 0 && from < |entries|
    ensures After(pointers, leaves, LeavesFrom(z, compression, entries, leafSize, from, offset)) ==
            match Pack(z, compression, entries[from..LeafEnd(|entries|, from, leafSize)]) {
              case Failure(e) => Failure(e)
              case Success(leaf) =>
                After(pointers + [PmEntry(entries[from].tileId, offset, |leaf|, 0)], leaves + leaf,
                      LeavesFrom(z, compression, entries, leafSize, from + leafSize, offset + |leaf|))
            }
  {
    hide Pack;
    var packed := Pack(z, compression, entries[from..LeafEnd(|entries|, from, leafSize)]);
    if packed.Success? {
      var rest := LeavesFrom(z, compression, entries, leafSize, from + leafSize, offset + |packed.value|);
      if rest.Success? {
        var p := PmEntry(entries[from].tileId, offset, |packed.value|, 0);
        assert pointers + ([p] + rest.value.0) == pointers + [p] + rest.value.0;
        assert leaves + (packed.value + rest.value.1) == leaves + packed.value + rest.value.1;
      }
    }
  }

  /** The loop over the entries: each leaf's pointer, and the leaves as separate parts. */
  method SplitLeaves(z: Gzip, compression: nat, entries: seq<PmEntry>, leafSize: nat)
    returns (r: Result<bool>, pointers: seq<PmEntry>, parts: seq<Bytes>, offset: nat)
    requires HaveOffsets(entries) && leafSize > 0
    ensures match LeavesFrom(z, compression, entries, leafSize, 0, 0)
            case Failure(e) => r == Failure(e)
            case Success((ps, leaves)) => r.Success? && pointers == ps && Concat(parts) == leaves && offset == |leaves|
  {
    hide Pack, LeavesFrom;
    pointers, parts, offset := [], [], 0;
    AfterNothing(LeavesFrom(z, compression, entries, leafSize, 0, 0));
    var i := 0;
    while i < |entries|
      invariant offset == |Concat(parts)|
      invariant LeavesFrom(z, compression, entries, leafSize, 0, 0)
             == After(pointers, Concat(parts), LeavesFrom(z, compression, entries, leafSize, i, offset))
    {
      LeavesStep(z, compression, entries, leafSize, i, offset, pointers, Concat(parts));
      var leaf := PackDirectory(z, compression, entries[i..LeafEnd(|entries|, i, leafSize)]);
      if leaf.Failure? {
        return Failure(leaf.error), pointers, parts, offset;
      }
      pointers := pointers + [PmEntry(entries[i].tileId, offset, |leaf.value|, 0)];
      ConcatPush(parts, leaf.value);
      parts := parts + [leaf.value];
      offset := offset + |leaf.value|;
      i := i + leafSize;
    }
    NoMoreLeaves(z, compression, entries, leafSize, i, offset, pointers, Concat(parts));
    return Success(true), pointers, parts, offset;
  }

  lemma AfterNothing(r: Result<(seq<PmEntry>, Bytes)>)
    ensures After([], Concat([]), r) == r
  {
    if r.Success? {
      assert [] + r.value.0 == r.value.0;
      assert [] + r.value.1 == r.value.1;
    }
  }

  lemma NoMoreLeaves(z: Gzip, compression: nat, entries: seq<PmEntry>, leafSize: nat, from: nat, offset: nat,
                     pointers: seq<PmEntry>, leaves: Bytes)
    requires HaveOffsets(entries) && leafSize > 0 && from >= |entries|
    ensures After(pointers, leaves, LeavesFrom(z, compression, entries, leafSize, from, offset)) == Success((pointers, leaves))
  {
    assert pointers + [] == pointers && leaves + [] == leaves;
  }

  lemma ConcatPush(parts: seq<Bytes>, part: Bytes)
    ensures Concat(parts + [part]) == Concat(parts) + part
  {
    assert (parts + [part])[..|parts|] == parts;
  }

  method JoinParts(parts: seq<Bytes>, size: nat) returns (bytes: Bytes)
    requires size == |Concat(parts)|
    ensures bytes == Concat(parts)
  {
    var leaves := new byte[size](_ => 0);
    var at := 0;
    for i := 0 to |parts|
      invariant at == |Concat(parts[..i])| <= size
      invariant leaves[..at] == Concat(parts[..i])
    {
      assert parts[..i + 1][..i] == parts[..i];
      ConcatGrows(parts, i + 1);
      SetBytes(leaves, parts[i], at);
      at := at + |parts[i]|;
    }
    assert parts[..|parts|] == parts;
    return leaves[..];
  }

  method BuildPmDirectories(z: Gzip, entries: seq<PmEntry>, compression: nat) returns (r: Result<Built>)
    requires HaveOffsets(entries)
    ensures r == Build(z, compression, entries)
  {
    hide Pack, LeavesFrom;
    var whole := PackDirectory(z, compression, entries);
    if whole.Failure? {
      return Failure(whole.error);
    }
    if |whole.value| <= PM_MAX_ROOT_DIR {
      return Success(Built(whole.value, [], 0));
    }
    var leafSize := FIRST_LEAF_SIZE;
    while true
      invariant leafSize > 0
      invariant Build(z, compression, entries) == BuildWith(z, compression, entries, leafSize)
      decreases 2 * |entries| + FIRST_LEAF_SIZE - leafSize
    {
      var split, pointers, parts, offset := SplitLeaves(z, compression, entries, leafSize);
      if split.Failure? {
        return Failure(split.error);
      }
      var root := PackDirectory(z, compression, pointers);
      if root.Failure? {
        return Failure(root.error);
      }
      if |root.value| <= PM_MAX_ROOT_DIR {
        var leaves := JoinParts(parts, offset);
        return Success(Built(root.value, leaves, |pointers|));
      }
      if leafSize > |entries| {
        return Failure("the directory cannot be made to fit");
      }
      leafSize := leafSize * 2;
    }
  }

  // ---- what the tree promises ------------------------------------------------------------------------

  /** Entries that can be stored: sorted, with lengths, every number written a safe integer. */
  predicate Storable(es: seq<PmEntry>) {
    && SortedById(es) && HaveLengths(es) && HaveOffsets(es)
    && forall i :: 0 <= i < |es| ==>
         && es[i].tileId <= MAX_SAFE && es[i].offset < MAX_SAFE
         && es[i].length <= MAX_SAFE && es[i].runLength <= MAX_SAFE
  }

  /** Tile entries as the extractor makes them: storable, and no two at one tile id. */
  predicate GoodEntries(es: seq<PmEntry>) {
    StrictlySorted(es) && Storable(es)
  }

  lemma StorableSlice(es: seq<PmEntry>, from: nat, to: nat)
    requires Storable(es) && from <= to <= |es|
    ensures Storable(es[from..to])
    ensures StrictlySorted(es) ==> StrictlySorted(es[from..to])
  {
    var part := es[from..to];
    assert forall i :: 0 <= i < |part| ==> part[i] == es[from + i];
    forall i | 0 < i < |part| ensures part[i - 1].tileId <= part[i].tileId {
      assert part[i - 1] == es[from + i - 1] && es[from + i - 1].tileId <= es[from + i].tileId;
    }
  }

  lemma GoodEntriesSlice(es: seq<PmEntry>, from: nat, to: nat)
    requires GoodEntries(es) && from <= to <= |es|
    ensures GoodEntries(es[from..to])
  {
    StorableSlice(es, from, to);
  }

  lemma StorableEncode(es: seq<PmEntry>)
    requires Storable(es) && es != []
    ensures EncodeDirectory(es) == Success(EncodeNums(DirectoryNums(es)))
    ensures |es| <= MAX_DIRECTORY_ENTRIES ==> Readable(es)
    ensures |EncodeDirectory(es).value| <= 8 * (1 + 4 * |es|) || |es| > MAX_SAFE
    ensures |EncodeDirectory(es).value| > 4 * |es| || |es| > MAX_SAFE
  {
    hide EncodeNums;
    if |es| <= MAX_SAFE {
      StorableNumsAreSafe(es);
      NumsSize(DirectoryNums(es));
    }
  }

  lemma StorableNumsAreSafe(es: seq<PmEntry>)
    requires Storable(es) && |es| <= MAX_SAFE
    ensures AllSafe(DirectoryNums(es))
  {
    assert AllSafe(Deltas(es)) by {
      forall i | 0 <= i < |es| ensures Deltas(es)[i] <= MAX_SAFE { assert es[i].tileId <= MAX_SAFE; }
    }
    assert AllSafe(Runs(es)) && AllSafe(Lengths(es)) && AllSafe(RawOffsets(es));
    hide Deltas, Runs, Lengths, RawOffsets;
    SafeBoth([|es|], Deltas(es));
    SafeBoth([|es|] + Deltas(es), Runs(es));
    SafeBoth([|es|] + Deltas(es) + Runs(es), Lengths(es));
    SafeBoth([|es|] + Deltas(es) + Runs(es) + Lengths(es), RawOffsets(es));
  }

  lemma SafeBoth(a: seq<nat>, b: seq<nat>)
    requires AllSafe(a) && AllSafe(b)
    ensures AllSafe(a + b)
  {
  }

  predicate Supported(compression: nat) {
    compression == COMPRESSION_NONE || compression == COMPRESSION_GZIP
  }

  /** The most bytes `n` entries are stored in. */
  function PackBound(n: nat): nat {
    var raw := 8 * (1 + 4 * n);
    raw + raw / 1000 + 64
  }

  /** The entries a compressed leaf may hold and still be within what the reader will decompress. */
  const MAX_LEAF_SIZE: nat := 2_000_000

  /** So few entries that the reader decompresses and decodes their directory, however it is stored. */
  predicate Decodable(compression: nat, count: nat) {
    count <= if compression == COMPRESSION_NONE then MAX_DIRECTORY_ENTRIES else MAX_LEAF_SIZE
  }

  lemma PackGood(z: Gzip, compression: nat, es: seq<PmEntry>)
    requires Lawful(z) && Supported(compression) && Storable(es) && es != [] && |es| <= MAX_SAFE
    ensures Pack(z, compression, es).Success?
    ensures 0 < |Pack(z, compression, es).value| <= PackBound(|es|)
    ensures 4 * |es| < 1032 * |Pack(z, compression, es).value|
  {
    hide EncodeDirectory;
    StorableEncode(es);
  }

  /** A stored directory reads back, when it is small enough stored or holds few enough entries. */
  lemma UnpackOfPack(z: Gzip, compression: nat, es: seq<PmEntry>)
    requires Lawful(z) && Supported(compression) && Storable(es) && es != [] && |es| <= MAX_SAFE
    requires Pack(z, compression, es).Success?
    requires Decodable(compression, |es|) || |Pack(z, compression, es).value| <= PM_MAX_ROOT_DIR
    ensures Unpack(z, compression, Pack(z, compression, es).value) == Success(es)
  {
    hide EncodeDirectory, DecodeDirectory, Readable;
    StorableEncode(es);
    var raw := EncodeDirectory(es).value;
    PackedIsSmall(z, compression, es);
    if compression != COMPRESSION_NONE {
      CompressionRoundTrip(z, raw, compression, MAX_DECOMPRESSED);
    }
    DirectoryRoundTrip(es, []);
    assert raw + [] == raw;
  }

  lemma PackedIsSmall(z: Gzip, compression: nat, es: seq<PmEntry>)
    requires Lawful(z) && Supported(compression) && Storable(es) && es != [] && |es| <= MAX_SAFE
    requires Pack(z, compression, es).Success?
    requires Decodable(compression, |es|) || |Pack(z, compression, es).value| <= PM_MAX_ROOT_DIR
    ensures compression == COMPRESSION_NONE || |EncodeDirectory(es).value| <= MAX_DECOMPRESSED
    ensures |es| <= MAX_DIRECTORY_ENTRIES
  {
    hide EncodeDirectory;
    StorableEncode(es);
  }

  /** Pointers that follow one another through `size` bytes from `offset`. */
  predicate Tiles(pointers: seq<PmEntry>, offset: nat, size: nat) {
    if pointers == [] then size == 0 else
      && pointers[0].offset == offset && 0 < pointers[0].length <= size && pointers[0].runLength == 0
      && Tiles(pointers[1..], offset + pointers[0].length, size - pointers[0].length)
  }

  /** The most entries an array holds. */
  const MAX_ARRAY_LENGTH: nat := 0xFFFF_FFFF

  /** The most entries whose compressed leaves are sure to be within what the reader will decompress. */
  const MAX_TREE_ENTRIES: nat := 500_000_000

  lemma StorableCons(p: PmEntry, es: seq<PmEntry>)
    requires Storable(es) && (es != [] ==> p.tileId <= es[0].tileId)
    requires p.tileId <= MAX_SAFE && 0 <= p.offset < MAX_SAFE && 0 < p.length <= MAX_SAFE && p.runLength <= MAX_SAFE
    ensures Storable([p] + es)
    ensures StrictlySorted(es) && (es != [] ==> p.tileId < es[0].tileId) ==> StrictlySorted([p] + es)
  {
    var all := [p] + es;
    assert forall i :: 0 < i < |all| ==> all[i] == es[i - 1];
    forall i | 0 < i < |all| ensures all[i - 1].tileId <= all[i].tileId {
      if i > 1 { assert es[i - 2].tileId <= es[i - 1].tileId; }
    }
    if StrictlySorted(es) && (es != [] ==> p.tileId < es[0].tileId) {
      forall i, j | 0 <= i < j < |all|
        ensures all[i].tileId < all[j].tileId
      {
        if i == 0 && j > 1 { assert es[0].tileId < es[j - 1].tileId; }
      }
    }
  }

  function EntriesLeft(count: nat, from: nat): nat {
    if from < count then count - from else 0
  }

  predicate LeafCount(left: nat, leafSize: nat, pointers: nat) {
    if left == 0 then pointers == 0 else pointers > 0 && (pointers - 1) * leafSize < left
  }

  lemma LeafCountStep(left: nat, leafSize: nat, pointers: nat)
    requires leafSize > 0 && left > 0 && LeafCount(if left > leafSize then left - leafSize else 0, leafSize, pointers)
    ensures LeafCount(left, leafSize, pointers + 1)
  {
    if left > leafSize {
      assert pointers * leafSize == (pointers - 1) * leafSize + leafSize;
    }
  }

  /** The leaves of the entries at `from` on: their pointers can be stored and tile the leaf bytes exactly. */
  predicate LeafPart(entries: seq<PmEntry>, leafSize: nat, from: nat, offset: nat, pointers: seq<PmEntry>, leaves: Bytes) {
    && Storable(pointers) && (StrictlySorted(entries) ==> StrictlySorted(pointers)) && Tiles(pointers, offset, |leaves|)
    && |leaves| <= 120 * EntriesLeft(|entries|, from)
    && LeafCount(EntriesLeft(|entries|, from), leafSize, |pointers|)
    && (pointers != [] ==> from < |entries| && pointers[0].tileId == entries[from].tileId)
  }

  lemma LeafPartStep(entries: seq<PmEntry>, leafSize: nat, from: nat, offset: nat, leaf: Bytes, pointers: seq<PmEntry>, leaves: Bytes)
    requires Storable(entries) && leafSize > 0 && from < |entries| <= MAX_ARRAY_LENGTH
    requires offset <= 120 * from && LeafPart(entries, leafSize, from + leafSize, offset + |leaf|, pointers, leaves)
    requires 0 < |leaf| <= PackBound(LeafEnd(|entries|, from, leafSize) - from)
    ensures LeafPart(entries, leafSize, from, offset, [PmEntry(entries[from].tileId, offset, |leaf|, 0)] + pointers, leaf + leaves)
  {
    hide Storable, LeafCount, StrictlySorted;
    var p := PmEntry(entries[from].tileId, offset, |leaf|, 0);
    StorableField(entries, from);
    if from + leafSize < |entries| {
      StorableOrder(entries, from, from + leafSize);
    }
    StorableCons(p, pointers);
    LeafCountStep(|entries| - from, leafSize, |pointers|);
    assert ([p] + pointers)[1..] == pointers;
  }

  /** Making leaves never fails. */
  lemma {:induction false} LeavesGood(z: Gzip, compression: nat, entries: seq<PmEntry>, leafSize: nat, from: nat, offset: nat)
    requires Lawful(z) && Supported(compression) && Storable(entries) && HaveOffsets(entries) && leafSize > 0
    requires |entries| <= MAX_ARRAY_LENGTH && offset <= 120 * from
    ensures var r := LeavesFrom(z, compression, entries, leafSize, from, offset);
            r.Success? && LeafPart(entries, leafSize, from, offset, r.value.0, r.value.1)
    decreases |entries| - from
  {
    hide Pack, Storable, LeafPart, Lawful;
    if from < |entries| {
      var to := LeafEnd(|entries|, from, leafSize);
      StorableSlice(entries, from, to);
      PackGood(z, compression, entries[from..to]);
      var leaf := Pack(z, compression, entries[from..to]).value;
      LeavesGood(z, compression, entries, leafSize, from + leafSize, offset + |leaf|);
      var (pointers, leaves) := LeavesFrom(z, compression, entries, leafSize, from + leafSize, offset + |leaf|).value;
      LeafPartStep(entries, leafSize, from, offset, leaf, pointers, leaves);
    } else {
      NoLeavesGood(entries, leafSize, from, offset);
    }
  }

  lemma NoLeavesGood(entries: seq<PmEntry>, leafSize: nat, from: nat, offset: nat)
    requires from >= |entries|
    ensures LeafPart(entries, leafSize, from, offset, [], [])
  {
  }

  lemma StorableField(es: seq<PmEntry>, i: nat)
    requires Storable(es) && i < |es|
    ensures es[i].tileId <= MAX_SAFE
  {
  }

  lemma {:induction false} StorableOrder(es: seq<PmEntry>, i: nat, j: nat)
    requires Storable(es) && i < j < |es|
    ensures es[i].tileId <= es[j].tileId
    ensures StrictlySorted(es) ==> es[i].tileId < es[j].tileId
  {
    if i < j - 1 {
      StorableOrder(es, i, j - 1);
    }
    assert es[j - 1].tileId <= es[j].tileId;
  }

  lemma GoodOrder(es: seq<PmEntry>, i: nat, j: nat)
    requires GoodEntries(es) && i < j < |es|
    ensures es[i].tileId < es[j].tileId
  {
  }

  /** A root of up to 500 pointers fits, so past it the leaves are few and the doubling stays small. */
  lemma TooManyPointers(left: nat, leafSize: nat, pointers: nat)
    requires LeafCount(left, leafSize, pointers) && leafSize > 0 && left > 0
    ensures pointers <= left
    ensures PackBound(pointers) > PM_MAX_ROOT_DIR ==> 500 * leafSize < left
  {
    MulMonotone(1, leafSize, pointers - 1);
    if PackBound(pointers) > PM_MAX_ROOT_DIR {
      MulMonotone(500, pointers - 1, leafSize);
    }
  }

  /** A leaf size the doubling tries: the first, or one it has been doubled to with pointers to spare. */
  predicate Tried(leafSize: nat, count: nat) {
    0 < leafSize && (leafSize <= FIRST_LEAF_SIZE || 250 * leafSize < count)
  }

  /** The doubling ends with a root that fits. */
  lemma {:induction false} BuildWithSucceeds(z: Gzip, compression: nat, entries: seq<PmEntry>, leafSize: nat) returns (used: nat)
    requires Lawful(z) && Supported(compression) && Storable(entries) && HaveOffsets(entries)
    requires 0 < |entries| <= MAX_ARRAY_LENGTH && Tried(leafSize, |entries|)
    ensures Tried(used, |entries|)
    ensures var r, split := BuildWith(z, compression, entries, leafSize), LeavesFrom(z, compression, entries, used, 0, 0);
            && r.Success? && |r.value.root| <= PM_MAX_ROOT_DIR && split.Success?
            && r.value.leaves == split.value.1 && r.value.leafCount == |split.value.0| > 0
            && Pack(z, compression, split.value.0) == Success(r.value.root)
    decreases 2 * |entries| + FIRST_LEAF_SIZE - leafSize
  {
    hide Pack, Storable, Lawful, LeavesFrom, LeafCount, Tiles, StrictlySorted;
    LeavesGood(z, compression, entries, leafSize, 0, 0);
    var (pointers, leaves) := LeavesFrom(z, compression, entries, leafSize, 0, 0).value;
    LeafCountPositive(|entries|, leafSize, |pointers|);
    TooManyPointers(|entries|, leafSize, |pointers|);
    PackGood(z, compression, pointers);
    if |Pack(z, compression, pointers).value| <= PM_MAX_ROOT_DIR {
      used := leafSize;
    } else {
      PackBoundMonotone(|pointers|, |Pack(z, compression, pointers).value|);
      used := BuildWithSucceeds(z, compression, entries, leafSize * 2);
    }
  }

  lemma LeafCountPositive(left: nat, leafSize: nat, pointers: nat)
    requires left > 0 && LeafCount(left, leafSize, pointers)
    ensures pointers > 0
  {
  }

  lemma PackBoundMonotone(n: nat, size: nat)
    requires PM_MAX_ROOT_DIR < size <= PackBound(n)
    ensures PackBound(n) > PM_MAX_ROOT_DIR
  {
  }

  /** Leaves as large as the doubling makes them can be decoded, stored as they are or within the bound on compressed ones. */
  lemma TriedIsDecodable(compression: nat, leafSize: nat, count: nat)
    requires Tried(leafSize, count) && (compression == COMPRESSION_NONE || count <= MAX_TREE_ENTRIES) && count <= MAX_ARRAY_LENGTH
    ensures forall n: nat :: n <= leafSize ==> Decodable(compression, n)
  {
  }

  /**
   * Building never throws on entries that can be stored, however many an array holds, and the root is
   * within its 16 KiB. Either the root is the entries themselves, or it is pointers that tile the leaf
   * section exactly.
   */
  lemma BuildFits(z: Gzip, compression: nat, entries: seq<PmEntry>)
    requires Lawful(z) && Supported(compression) && Storable(entries) && 0 < |entries| <= MAX_ARRAY_LENGTH
    ensures var r := Build(z, compression, entries);
            r.Success? && |r.value.root| <= PM_MAX_ROOT_DIR &&
            match Unpack(z, compression, r.value.root) {
              case Failure(_) => false
              case Success(root) =>
                if r.value.leafCount == 0 then root == entries && r.value.leaves == []
                else |root| == r.value.leafCount && Tiles(root, 0, |r.value.leaves|)
            }
  {
    hide Pack, Unpack, Storable, Lawful, LeavesFrom, Tiles, LeafCount, BuildWith, StrictlySorted;
    StorableIsWritable(entries);
    PackGood(z, compression, entries);
    if |Pack(z, compression, entries).value| <= PM_MAX_ROOT_DIR {
      UnpackOfPack(z, compression, entries);
    } else {
      var used := BuildWithSucceeds(z, compression, entries, FIRST_LEAF_SIZE);
      LeavesGood(z, compression, entries, used, 0, 0);
      var (pointers, leaves) := LeavesFrom(z, compression, entries, used, 0, 0).value;
      TooManyPointers(|entries|, used, |pointers|);
      UnpackOfPack(z, compression, pointers);
    }
  }

  lemma StorableIsWritable(es: seq<PmEntry>)
    requires Storable(es)
    ensures HaveOffsets(es)
  {
  }

  // ---- looking an id up in the tree ------------------------------------------------------------------

  lemma {:induction false} EntryForSplit(a: seq<PmEntry>, b: seq<PmEntry>, id: nat)
    requires StrictlySorted(a + b) && a != []
    ensures EntryFor(a + b, id) == if b != [] && b[0].tileId <= id then EntryFor(b, id) else EntryFor(a, id)
  {
    var all := a + b;
    assert b != [] ==> all[|a|] == b[0];
    if |a| == 1 {
      assert all[1..] == b;
    } else {
      assert all[1..] == a[1..] + b;
      assert all[1] == a[1];
      EntryForSplit(a[1..], b, id);
    }
  }

  lemma EntryForPointer(p: PmEntry, pointers: seq<PmEntry>, id: nat)
    requires p.runLength == 0
    ensures EntryFor([p] + pointers, id) ==
            if pointers != [] && pointers[0].tileId <= id then EntryFor(pointers, id)
            else if p.tileId <= id then Some(p) else None
  {
    assert ([p] + pointers)[1..] == pointers;
  }

  lemma GoodIsWritable(es: seq<PmEntry>)
    requires GoodEntries(es)
    ensures HaveOffsets(es) && StrictlySorted(es) && Storable(es)
  {
  }

  /** What the pointer found for `id`, or its absence, says of the entries themselves. */
  ghost predicate FoundLeaf(z: Gzip, compression: nat, entries: seq<PmEntry>, leafSize: nat, offset: nat, leaves: Bytes, id: nat,
                            found: Option<PmEntry>, chunk: seq<PmEntry>)
  {
    match found
    case None => EntryFor(entries, id) == None
    case Some(p) =>
      && p.runLength == 0 && offset <= p.offset && p.offset - offset + p.length <= |leaves|
      && GoodEntries(chunk) && 0 < |chunk| <= leafSize
      && Pack(z, compression, chunk) == Success(leaves[p.offset - offset..p.offset - offset + p.length])
      && EntryFor(chunk, id) == EntryFor(entries, id)
  }

  lemma FoundInFirst(z: Gzip, compression: nat, first: seq<PmEntry>, rest: seq<PmEntry>, leafSize: nat, offset: nat,
                     leaf: Bytes, leaves: Bytes, id: nat)
    requires GoodEntries(first + rest) && 0 < |first| <= leafSize && (rest != [] ==> id < rest[0].tileId)
    requires GoodEntries(first) && Pack(z, compression, first) == Success(leaf)
    ensures var p := PmEntry(first[0].tileId, offset, |leaf|, 0);
            FoundLeaf(z, compression, first + rest, leafSize, offset, leaf + leaves, id,
                      if p.tileId <= id then Some(p) else None, first)
  {
    hide Pack, EntryFor;
    EntryForSplit(first, rest, id);
    assert (leaf + leaves)[0..|leaf|] == leaf;
    assert (first + rest)[0] == first[0];
    if id < first[0].tileId {
      EntryForNone(first + rest, id);
    }
  }

  lemma FoundInRest(z: Gzip, compression: nat, first: seq<PmEntry>, rest: seq<PmEntry>, leafSize: nat, offset: nat,
                    leaf: Bytes, leaves: Bytes, id: nat, found: Option<PmEntry>, chunk: seq<PmEntry>)
    requires GoodEntries(first + rest) && first != [] && rest != [] && rest[0].tileId <= id
    requires FoundLeaf(z, compression, rest, leafSize, offset + |leaf|, leaves, id, found, chunk)
    ensures FoundLeaf(z, compression, first + rest, leafSize, offset, leaf + leaves, id, found, chunk)
  {
    hide Pack, EntryFor;
    EntryForSplit(first, rest, id);
    if found.Some? {
      var at := found.value.offset - offset;
      assert (leaf + leaves)[at..at + found.value.length] == leaves[at - |leaf|..at - |leaf| + found.value.length];
    }
  }

  /** The first leaf of those at `from` on, and the leaves after it. */
  lemma FirstLeaf(z: Gzip, compression: nat, entries: seq<PmEntry>, leafSize: nat, from: nat, offset: nat)
    returns (to: nat, leaf: Bytes, pointers: seq<PmEntry>, leaves: Bytes)
    requires Lawful(z) && Supported(compression) && GoodEntries(entries) && HaveOffsets(entries)
    requires leafSize > 0 && from < |entries| <= MAX_ARRAY_LENGTH && offset <= 120 * from
    ensures from < to <= |entries| && to - from <= leafSize && (to < |entries| ==> to == from + leafSize)
    ensures GoodEntries(entries[from..to]) && Pack(z, compression, entries[from..to]) == Success(leaf)
    ensures to < |entries| ==> offset + |leaf| <= 120 * to
    ensures LeavesFrom(z, compression, entries, leafSize, from, offset)
         == Success(([PmEntry(entries[from].tileId, offset, |leaf|, 0)] + pointers, leaf + leaves))
    ensures LeavesFrom(z, compression, entries, leafSize, from + leafSize, offset + |leaf|) == Success((pointers, leaves))
    ensures if to < |entries| then pointers != [] && pointers[0].tileId == entries[to].tileId else pointers == []
  {
    hide Pack, GoodEntries, Storable, Lawful, EntryFor, LeafPart;
    GoodIsWritable(entries);
    to := LeafEnd(|entries|, from, leafSize);
    GoodEntriesSlice(entries, from, to);
    GoodIsWritable(entries[from..to]);
    PackGood(z, compression, entries[from..to]);
    leaf := Pack(z, compression, entries[from..to]).value;
    LeavesGood(z, compression, entries, leafSize, from + leafSize, offset + |leaf|);
    var r := LeavesFrom(z, compression, entries, leafSize, from + leafSize, offset + |leaf|).value;
    pointers, leaves := r.0, r.1;
    LeavesBegin(z, compression, entries, leafSize, from + leafSize, offset + |leaf|);
  }

  lemma LeavesBegin(z: Gzip, compression: nat, entries: seq<PmEntry>, leafSize: nat, from: nat, offset: nat)
    requires HaveOffsets(entries) && leafSize > 0 && LeavesFrom(z, compression, entries, leafSize, from, offset).Success?
    ensures var pointers := LeavesFrom(z, compression, entries, leafSize, from, offset).value.0;
            if from < |entries| then pointers != [] && pointers[0].tileId == entries[from].tileId else pointers == []
  {
    hide Pack;
  }

  /**
   * The pointer found for an id is the one to the leaf that answers for it: `chunk` is that leaf's
   * entries, stored where its entry says.
   */
  lemma {:induction false} LeavesLookup(z: Gzip, compression: nat, entries: seq<PmEntry>, leafSize: nat, from: nat, offset: nat, id: nat)
    returns (chunk: seq<PmEntry>)
    requires Lawful(z) && Supported(compression) && GoodEntries(entries) && HaveOffsets(entries)
    requires leafSize > 0 && from < |entries| <= MAX_ARRAY_LENGTH && offset <= 120 * from
    ensures var r := LeavesFrom(z, compression, entries, leafSize, from, offset);
            r.Success? && FoundLeaf(z, compression, entries[from..], leafSize, offset, r.value.1, id, EntryFor(r.value.0, id), chunk)
    decreases |entries| - from
  {
    hide Pack, GoodEntries, Lawful, EntryFor, FoundLeaf, LeavesFrom;
    var to, leaf, pointers, leaves := FirstLeaf(z, compression, entries, leafSize, from, offset);
    chunk := entries[from..to];
    var first, rest := chunk, entries[to..];
    assert entries[from..] == entries[from..|entries|] == first + rest;
    assert rest != [] ==> rest[0] == entries[to];
    GoodEntriesSlice(entries, from, |entries|);
    EntryForPointer(PmEntry(entries[from].tileId, offset, |leaf|, 0), pointers, id);
    if to < |entries| && entries[to].tileId <= id {
      chunk := LeavesLookup(z, compression, entries, leafSize, to, offset + |leaf|, id);
      FoundInRest(z, compression, first, rest, leafSize, offset, leaf, leaves, id, EntryFor(pointers, id), chunk);
    } else {
      FoundInFirst(z, compression, first, rest, leafSize, offset, leaf, leaves, id);
    }
  }

  /**
   * Looking an id up in the root finds what the flat list of entries holds for it: the entry itself, or
   * the pointer to the stored leaf whose entries, `chunk`, hold it.
   */
  lemma TreeHolds(z: Gzip, compression: nat, entries: seq<PmEntry>, id: nat) returns (chunk: seq<PmEntry>)
    requires Lawful(z) && Supported(compression) && GoodEntries(entries) && 0 < |entries| <= MAX_ARRAY_LENGTH
    requires forall i :: 0 <= i < |entries| ==> entries[i].runLength > 0
    ensures HaveOffsets(entries) && Build(z, compression, entries).Success?
    ensures var built := Build(z, compression, entries).value;
            var root := Unpack(z, compression, built.root);
            root.Success? && StrictlySorted(root.value) &&
            match EntryFor(root.value, id) {
              case None => EntryFor(entries, id) == None
              case Some(e) =>
                if e.runLength > 0 then EntryFor(entries, id) == Some(e)
                else
                  && 0 <= e.offset && e.offset + e.length <= |built.leaves|
                  && GoodEntries(chunk) && Tried(|chunk|, |entries|) && EntryFor(chunk, id) == EntryFor(entries, id)
                  && Pack(z, compression, chunk) == Success(built.leaves[e.offset..e.offset + e.length])
            }
  {
    hide Pack, Unpack, GoodEntries, Storable, Lawful, LeavesFrom, LeafCount, Tiles, BuildWith, EntryFor;
    GoodIsWritable(entries);
    PackGood(z, compression, entries);
    chunk := [];
    if |Pack(z, compression, entries).value| <= PM_MAX_ROOT_DIR {
      UnpackOfPack(z, compression, entries);
      EntryForIsOneOf(entries, id);
    } else {
      var used := BuildWithSucceeds(z, compression, entries, FIRST_LEAF_SIZE);
      LeavesGood(z, compression, entries, used, 0, 0);
      var (pointers, leaves) := LeavesFrom(z, compression, entries, used, 0, 0).value;
      TooManyPointers(|entries|, used, |pointers|);
      UnpackOfPack(z, compression, pointers);
      chunk := LeavesLookup(z, compression, entries, used, 0, 0, id);
      assert entries[0..] == entries;
    }
  }

  /**
   * Looking an id up through the root, and then through the leaf its pointer names, finds what the
   * flat list of entries holds for it: always when leaves are stored as they are, and while compressed
   * leaves are sure to be within what the reader will decompress.
   */
  lemma TreeLookup(z: Gzip, compression: nat, entries: seq<PmEntry>, id: nat)
    requires Lawful(z) && Supported(compression) && GoodEntries(entries) && 0 < |entries| <= MAX_ARRAY_LENGTH
    requires compression == COMPRESSION_NONE || |entries| <= MAX_TREE_ENTRIES
    requires forall i :: 0 <= i < |entries| ==> entries[i].runLength > 0
    ensures HaveOffsets(entries) && Build(z, compression, entries).Success?
    ensures var built := Build(z, compression, entries).value;
            var root := Unpack(z, compression, built.root);
            root.Success? && StrictlySorted(root.value) &&
            match EntryFor(root.value, id) {
              case None => EntryFor(entries, id) == None
              case Some(e) =>
                if e.runLength > 0 then EntryFor(entries, id) == Some(e)
                else
                  && 0 <= e.offset && e.offset + e.length <= |built.leaves|
                  && var leaf := Unpack(z, compression, built.leaves[e.offset..e.offset + e.length]);
                     leaf.Success? && StrictlySorted(leaf.value) && EntryFor(leaf.value, id) == EntryFor(entries, id)
            }
  {
    hide Pack, Unpack, GoodEntries, Storable, Lawful, Build, EntryFor, Tried, Decodable;
    var chunk := TreeHolds(z, compression, entries, id);
    var found := EntryFor(Unpack(z, compression, Build(z, compression, entries).value.root).value, id);
    if found.Some? && found.value.runLength == 0 {
      GoodIsWritable(chunk);
      TriedIsDecodable(compression, |chunk|, |entries|);
      TriedIsSafe(|chunk|, |entries|);
      UnpackOfPack(z, compression, chunk);
    }
  }

  lemma TriedIsSafe(size: nat, count: nat)
    requires Tried(size, count) && count <= MAX_ARRAY_LENGTH
    ensures 0 < size <= MAX_SAFE
  {
  }

  lemma {:induction false} EntryForIsOneOf(es: seq<PmEntry>, id: nat)
    ensures EntryFor(es, id).Some? ==> EntryFor(es, id).value in es && Answers(EntryFor(es, id).value, id)
  {
    if |es| > 1 && es[1].tileId <= id {
      EntryForIsOneOf(es[1..], id);
    }
  }
}
