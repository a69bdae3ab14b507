/**
 * The 127-byte PMTiles header (PMTiles version 3, section 3; packages/offline/src/pmtiles.ts,
 * `readPmHeader` and `encodePmHeader`). Positions are held as the whole 1e-7 degrees on the wire.
 */
module Headers {
  import opened Wrappers
  import opened Varints

  const PM_HEADER_BYTES: nat := 127

  type Int32 = v: int | -0x8000_0000 <= v < 0x8000_0000

  /** The eleven places, lengths and counts of the header, in order. */
  datatype Sections = Sections(
    rootDirectoryOffset: nat, rootDirectoryLength: nat,
    metadataOffset: nat, metadataLength: nat,
    leafDirectoryOffset: nat, leafDirectoryLength: nat,
    tileDataOffset: nat, tileDataLength: nat,
    numAddressedTiles: nat, numTileEntries: nat, numTileContents: nat)

  datatype PmHeader = PmHeader(
    at: Sections,
    clustered: bool, internalCompression: byte, tileCompression: byte, tileType: byte,
    minZoom: byte, maxZoom: byte,
    minLon: Int32, minLat: Int32, maxLon: Int32, maxLat: Int32,
    centerZoom: byte, centerLon: Int32, centerLat: Int32)

  // ---- little-endian numbers -----------------------------------------------------------------------

  function Pow256(width: nat): (p: nat)
    ensures p > 0
  {
    if width == 0 then 1 else 256 * Pow256(width - 1)
  }

  /** The lowest `width` bytes of `n`, as a DataView's setters write them. */
  function LittleEndian(n: nat, width: nat): (bs: Bytes)
    ensures |bs| == width
  {
    if width == 0 then [] else [n % 256] + LittleEndian(n / 256, width - 1)
  }

  function FromLittleEndian(bs: Bytes): nat {
    if bs == [] then 0 else bs[0] + 256 * FromLittleEndian(bs[1..])
  }

  lemma {:induction false} LittleEndianRoundTrip(n: nat, width: nat)
    requires n < Pow256(width)
    ensures FromLittleEndian(LittleEndian(n, width)) == n
  {
    if width > 0 {
      LittleEndianRoundTrip(n / 256, width - 1);
      assert LittleEndian(n, width)[1..] == LittleEndian(n / 256, width - 1);
    }
  }

  function U64(n: nat): (bs: Bytes)
    ensures |bs| == 8
  {
    LittleEndian(n, 8)
  }

  function I32(v: Int32): (bs: Bytes)
    ensures |bs| == 4
  {
    LittleEndian(if v < 0 then v + 0x1_0000_0000 else v, 4)
  }

  function ReadI32(bs: Bytes): Int32
    requires |bs| == 4
  {
    var n := FromLittleEndian(bs);
    if n < 0x8000_0000 then n else if n < 0x1_0000_0000 then n - 0x1_0000_0000 else 0
  }

  lemma U64RoundTrip(n: nat)
    requires n <= MAX_SAFE
    ensures FromLittleEndian(U64(n)) == n
  {
    hide LittleEndian, FromLittleEndian;
    assert Pow256(4) == 0x1_0000_0000;
    assert Pow256(8) == 0x1_0000_0000 * 0x1_0000_0000;
    LittleEndianRoundTrip(n, 8);
  }

  lemma I32RoundTrip(v: Int32)
    ensures ReadI32(I32(v)) == v
  {
    hide LittleEndian, FromLittleEndian;
    assert Pow256(4) == 0x1_0000_0000;
    LittleEndianRoundTrip(if v < 0 then v + 0x1_0000_0000 else v, 4);
  }

  // ---- the header ----------------------------------------------------------------------------------

  /** "PMTiles", version 3. */
  const MAGIC: Bytes := [0x50, 0x4d, 0x54, 0x69, 0x6c, 0x65, 0x73, 3]

  function SectionNums(s: Sections): (ns: seq<nat>)
    ensures |ns| == 11
  {
    [s.rootDirectoryOffset, s.rootDirectoryLength, s.metadataOffset, s.metadataLength,
     s.leafDirectoryOffset, s.leafDirectoryLength, s.tileDataOffset, s.tileDataLength,
     s.numAddressedTiles, s.numTileEntries, s.numTileContents]
  }

  function SectionsOf(ns: seq<nat>): Sections
    requires |ns| == 11
  {
    Sections(ns[0], ns[1], ns[2], ns[3], ns[4], ns[5], ns[6], ns[7], ns[8], ns[9], ns[10])
  }

  function U64s(ns: seq<nat>): (bs: Bytes)
    ensures |bs| == 8 * |ns|
  {
    if ns == [] then [] else U64(ns[0]) + U64s(ns[1..])
  }

  function Smalls(h: PmHeader): Bytes {
    [if h.clustered then 1 else 0, h.internalCompression, h.tileCompression, h.tileType, h.minZoom, h.maxZoom]
  }

  function EncodeHeader(h: PmHeader): (bs: Bytes)
    ensures |bs| == PM_HEADER_BYTES
  {
    MAGIC + U64s(SectionNums(h.at)) + Smalls(h)
    + I32(h.minLon) + I32(h.minLat) + I32(h.maxLon) + I32(h.maxLat)
    + [h.centerZoom] + I32(h.centerLon) + I32(h.centerLat)
  }

  /** The numbers of the header's first part, each read at its own place. */
  function ReadU64s(bs: Bytes, count: nat): (r: Result<seq<nat>>)
    requires |bs| >= 8 * count
    ensures r.Success? ==> |r.value| == count && AllSafe(r.value)
  {
    if count == 0 then Success([]) else
      var first := FromLittleEndian(bs[..8]);
      if first > MAX_SAFE then Failure("a header value is too large") else
        var others :- ReadU64s(bs[8..], count - 1);
        Success([first] + others)
  }

  function ReadPmHeader(bytes: Bytes): Result<PmHeader> {
    if |bytes| < PM_HEADER_BYTES then Failure("shorter than a PMTiles header")
    else if bytes[..7] != MAGIC[..7] then Failure("not a PMTiles archive")
    else if bytes[7] != 3 then Failure("the PMTiles version is not 3")
    else
      var nums :- ReadU64s(bytes[8..96], 11);
      Success(PmHeader(
        SectionsOf(nums),
        bytes[96] == 1, bytes[97], bytes[98], bytes[99], bytes[100], bytes[101],
        ReadI32(bytes[102..106]), ReadI32(bytes[106..110]), ReadI32(bytes[110..114]), ReadI32(bytes[114..118]),
        bytes[118], ReadI32(bytes[119..123]), ReadI32(bytes[123..127])))
  }

  predicate SafeSections(s: Sections) {
    AllSafe(SectionNums(s))
  }

  lemma {:induction false} U64sRoundTrip(ns: seq<nat>)
    requires AllSafe(ns)
    ensures ReadU64s(U64s(ns), |ns|) == Success(ns)
  {
    if ns != [] {
      assert AllSafe(ns[1..]) by {
        assert forall i :: 0 <= i < |ns| - 1 ==> ns[1..][i] == ns[i + 1];
      }
      U64RoundTrip(ns[0]);
      U64sRoundTrip(ns[1..]);
      assert U64s(ns)[..8] == U64(ns[0]) && U64s(ns)[8..] == U64s(ns[1..]);
      assert ns == [ns[0]] + ns[1..];
    }
  }

  /** Where each part of a written header is. */
  lemma HeaderParts(h: PmHeader, rest: Bytes)
    ensures var b := EncodeHeader(h) + rest;
            && b[..7] == MAGIC[..7] && b[7] == 3 && b[8..96] == U64s(SectionNums(h.at))
            && b[96..102] == Smalls(h) && b[118] == h.centerZoom
            && b[102..106] == I32(h.minLon) && b[106..110] == I32(h.minLat)
            && b[110..114] == I32(h.maxLon) && b[114..118] == I32(h.maxLat)
            && b[119..123] == I32(h.centerLon) && b[123..127] == I32(h.centerLat)
  {
    hide I32, U64s, SectionNums, Smalls;
    assert |Smalls(h)| == 6 by { SmallsLength(h); }
  }

  lemma SmallsLength(h: PmHeader)
    ensures |Smalls(h)| == 6
  {
  }

  /** A written header reads back as itself exactly when its eleven numbers are safe integers. */
  lemma HeaderRoundTrip(h: PmHeader, rest: Bytes)
    ensures ReadPmHeader(EncodeHeader(h) + rest) == Success(h) <==> SafeSections(h.at)
  {
    hide I32, ReadI32, U64s, ReadU64s, EncodeHeader;
    var b := EncodeHeader(h) + rest;
    HeaderParts(h, rest);
    assert forall i :: 0 <= i < 6 ==> b[96 + i] == b[96..102][i];
    I32RoundTrip(h.minLon);
    I32RoundTrip(h.minLat);
    I32RoundTrip(h.maxLon);
    I32RoundTrip(h.maxLat);
    I32RoundTrip(h.centerLon);
    I32RoundTrip(h.centerLat);
    if SafeSections(h.at) {
      U64sRoundTrip(SectionNums(h.at));
    }
  }

  // ---- where each field is -----------------------------------------------------------------------------

  /** The unsigned 64-bit little-endian number at a place. */
  function U64At(b: Bytes, p: nat): nat
    requires p + 8 <= |b|
  {
    U32At(b, p) + 0x1_0000_0000 * U32At(b, p + 4)
  }

  function U32At(b: Bytes, p: nat): nat
    requires p + 4 <= |b|
  {
    b[p] as int + 0x100 * b[p + 1] as int + 0x1_0000 * b[p + 2] as int + 0x100_0000 * b[p + 3] as int
  }

  /** The signed 32-bit little-endian number at a place. */
  function I32At(b: Bytes, p: nat): int
    requires p + 4 <= |b|
  {
    if b[p + 3] >= 0x80 then U32At(b, p) - 0x1_0000_0000 else U32At(b, p)
  }

  /** A header's fields, each at its own place in the bytes. */
  ghost predicate IsAt(b: Bytes, h: PmHeader)
    requires |b| >= PM_HEADER_BYTES
  {
    && h.at.rootDirectoryOffset == U64At(b, 8)
    && h.at.rootDirectoryLength == U64At(b, 16)
    && h.at.metadataOffset == U64At(b, 24)
    && h.at.metadataLength == U64At(b, 32)
    && h.at.leafDirectoryOffset == U64At(b, 40)
    && h.at.leafDirectoryLength == U64At(b, 48)
    && h.at.tileDataOffset == U64At(b, 56)
    && h.at.tileDataLength == U64At(b, 64)
    && h.at.numAddressedTiles == U64At(b, 72)
    && h.at.numTileEntries == U64At(b, 80)
    && h.at.numTileContents == U64At(b, 88)
    && h.clustered == (b[96] == 1)
    && h.internalCompression == b[97]
    && h.tileCompression == b[98]
    && h.tileType == b[99]
    && h.minZoom == b[100]
    && h.maxZoom == b[101]
    && h.minLon == I32At(b, 102)
    && h.minLat == I32At(b, 106)
    && h.maxLon == I32At(b, 110)
    && h.maxLat == I32At(b, 114)
    && h.centerZoom == b[118]
    && h.centerLon == I32At(b, 119)
    && h.centerLat == I32At(b, 123)
  }

  lemma FourBytes(bs: Bytes)
    requires |bs| == 4
    ensures FromLittleEndian(bs) == U32At(bs, 0) < 0x1_0000_0000
  {
    assert bs[1..][1..] == bs[2..] && bs[2..][1..] == bs[3..] && bs[3..][1..] == bs[4..] == [];
    assert FromLittleEndian(bs[3..]) == bs[3];
    assert FromLittleEndian(bs[2..]) == bs[2] + 256 * FromLittleEndian(bs[3..]);
    assert FromLittleEndian(bs[1..]) == bs[1] + 256 * FromLittleEndian(bs[2..]);
    assert FromLittleEndian(bs) == bs[0] + 256 * FromLittleEndian(bs[1..]);
  }

  lemma {:induction false} LittleEndianSplits(a: Bytes, b: Bytes)
    ensures FromLittleEndian(a + b) == FromLittleEndian(a) + Pow256(|a|) * FromLittleEndian(b)
  {
    if a == [] {
      assert a + b == b;
    } else {
      LittleEndianSplits(a[1..], b);
      assert (a + b)[1..] == a[1..] + b;
      TimesOf(Pow256(|a| - 1), FromLittleEndian(b));
    }
  }

  lemma TimesOf(p: nat, n: nat)
    ensures 256 * (p * n) == (256 * p) * n
  {
  }

  lemma EightBytes(b: Bytes, p: nat)
    requires p + 8 <= |b|
    ensures FromLittleEndian(b[p..p + 8]) == U64At(b, p)
  {
    var low, high := b[p..p + 4], b[p + 4..p + 8];
    FourBytes(low);
    FourBytes(high);
    assert b[p..p + 8] == low + high;
    LittleEndianSplits(low, high);
    assert Pow256(4) == 0x1_0000_0000;
  }

  lemma SignedFourBytes(b: Bytes, p: nat)
    requires p + 4 <= |b|
    ensures ReadI32(b[p..p + 4]) == I32At(b, p)
  {
    FourBytes(b[p..p + 4]);
  }

  /** The first numbers of eight bytes each. */
  function Numbers(bs: Bytes, count: nat): (ns: seq<nat>)
    requires 8 * count <= |bs|
    ensures |ns| == count
  {
    seq(count, j requires 0 <= j < count => U64At(bs, 8 * j))
  }

  lemma NumbersCons(bs: Bytes, count: nat)
    requires 0 < count && 8 * count <= |bs|
    ensures Numbers(bs, count) == [FromLittleEndian(bs[..8])] + Numbers(bs[8..], count - 1)
  {
    EightBytes(bs, 0);
    assert bs[0..0 + 8] == bs[..8];
    forall j | 0 < j < count ensures U64At(bs, 8 * j) == U64At(bs[8..], 8 * (j - 1)) {
      PartNumber(bs, 8, 8 * (j - 1));
    }
  }

  lemma PartNumber(b: Bytes, from: nat, p: nat)
    requires from + p + 8 <= |b|
    ensures U64At(b, from + p) == U64At(b[from..], p)
  {
  }

  lemma SafeCons(n: nat, ns: seq<nat>)
    ensures AllSafe([n] + ns) <==> n <= MAX_SAFE && AllSafe(ns)
  {
    var all := [n] + ns;
    assert forall i :: 0 <= i < |ns| ==> all[i + 1] == ns[i];
    assert all[0] == n;
  }

  /** Numbers are read when all are safe, and are those of each eight bytes. */
  lemma {:induction false} NumbersAreRead(bs: Bytes, count: nat)
    requires 8 * count <= |bs|
    ensures var r := ReadU64s(bs, count);
            (r.Success? <==> AllSafe(Numbers(bs, count))) && (r.Success? ==> r.value == Numbers(bs, count))
    decreases count
  {
    if count > 0 {
      hide Numbers, FromLittleEndian, AllSafe;
      NumbersAreRead(bs[8..], count - 1);
      NumbersCons(bs, count);
      SafeCons(FromLittleEndian(bs[..8]), Numbers(bs[8..], count - 1));
    }
  }

  /** The number at the `k`th eight bytes after the first. */
  function NthAt(b: Bytes, k: nat): nat
    requires 16 + 8 * k <= |b|
  {
    U64At(b, 8 + 8 * k)
  }

  lemma NumbersAreNth(b: Bytes)
    requires |b| >= 96
    ensures var ns := Numbers(b[8..96], 11); forall k :: 0 <= k < 11 ==> ns[k] == NthAt(b, k)
  {
    forall k | 0 <= k < 11 ensures U64At(b[8..96], 8 * k) == NthAt(b, k) {
      PartNumber(b[..96], 8, 8 * k);
      assert b[..96][8..] == b[8..96];
    }
  }

  /** "PMTiles" and the version, at least 127 bytes, and eleven safe numbers. */
  ghost predicate IsPmHeader(b: Bytes) {
    && |b| >= 127
    && b[0] == 0x50 && b[1] == 0x4d && b[2] == 0x54 && b[3] == 0x69 && b[4] == 0x6c && b[5] == 0x65 && b[6] == 0x73
    && b[7] == 3
    && forall k :: 0 <= k < 11 ==> NthAt(b, k) <= MAX_SAFE
  }

  /** A header is read exactly when there is one, and each of its fields is the one at its place. */
  lemma FieldsAreRead(b: Bytes)
    ensures ReadPmHeader(b).Success? <==> IsPmHeader(b)
    ensures ReadPmHeader(b).Success? ==> IsAt(b, ReadPmHeader(b).value)
  {
    hide ReadI32, I32At, ReadU64s, U64At, NthAt, Numbers;
    if |b| >= PM_HEADER_BYTES {
      MagicIsThere(b);
      NumbersAreRead(b[8..96], 11);
      NumbersAreNth(b);
      var ns := Numbers(b[8..96], 11);
      assert AllSafe(ns) <==> forall k :: 0 <= k < 11 ==> NthAt(b, k) <= MAX_SAFE;
      if ReadPmHeader(b).Success? {
        PositionsAreAt(b);
        SectionsAreAt(b, ns);
      }
    }
  }

  lemma MagicIsThere(b: Bytes)
    requires |b| >= 8
    ensures b[..7] == MAGIC[..7] <==>
              b[0] == 0x50 && b[1] == 0x4d && b[2] == 0x54 && b[3] == 0x69 && b[4] == 0x6c && b[5] == 0x65 && b[6] == 0x73
  {
    assert MAGIC[..7] == [0x50, 0x4d, 0x54, 0x69, 0x6c, 0x65, 0x73];
    assert b[..7] == [b[0], b[1], b[2], b[3], b[4], b[5], b[6]];
  }

  lemma PositionsAreAt(b: Bytes)
    requires |b| >= PM_HEADER_BYTES
    ensures ReadI32(b[102..106]) == I32At(b, 102) && ReadI32(b[106..110]) == I32At(b, 106)
    ensures ReadI32(b[110..114]) == I32At(b, 110) && ReadI32(b[114..118]) == I32At(b, 114)
    ensures ReadI32(b[119..123]) == I32At(b, 119) && ReadI32(b[123..127]) == I32At(b, 123)
  {
    hide ReadI32, I32At;
    SignedFourBytes(b, 102);
    SignedFourBytes(b, 106);
    SignedFourBytes(b, 110);
    SignedFourBytes(b, 114);
    SignedFourBytes(b, 119);
    SignedFourBytes(b, 123);
  }

  lemma SectionsAreAt(b: Bytes, ns: seq<nat>)
    requires |b| >= PM_HEADER_BYTES && |ns| == 11 && forall j :: 0 <= j < 11 ==> ns[j] == NthAt(b, j)
    ensures var s := SectionsOf(ns);
            && s.rootDirectoryOffset == U64At(b, 8) && s.rootDirectoryLength == U64At(b, 16)
            && s.metadataOffset == U64At(b, 24) && s.metadataLength == U64At(b, 32)
            && s.leafDirectoryOffset == U64At(b, 40) && s.leafDirectoryLength == U64At(b, 48)
            && s.tileDataOffset == U64At(b, 56) && s.tileDataLength == U64At(b, 64)
            && s.numAddressedTiles == U64At(b, 72) && s.numTileEntries == U64At(b, 80) && s.numTileContents == U64At(b, 88)
  {
    hide U64At;
  }

  /** The eleven numbers are safe integers, one by one. */
  ghost predicate EachSafe(s: Sections) {
    && s.rootDirectoryOffset <= MAX_SAFE && s.rootDirectoryLength <= MAX_SAFE && s.metadataOffset <= MAX_SAFE
    && s.metadataLength <= MAX_SAFE && s.leafDirectoryOffset <= MAX_SAFE && s.leafDirectoryLength <= MAX_SAFE
    && s.tileDataOffset <= MAX_SAFE && s.tileDataLength <= MAX_SAFE
    && s.numAddressedTiles <= MAX_SAFE && s.numTileEntries <= MAX_SAFE && s.numTileContents <= MAX_SAFE
  }

  lemma SafeIsEach(s: Sections)
    requires EachSafe(s)
    ensures SafeSections(s)
  {
  }

  /** In a written header each field is at its place. */
  lemma FieldsAreWritten(h: PmHeader, rest: Bytes)
    requires EachSafe(h.at)
    ensures IsPmHeader(EncodeHeader(h) + rest) && IsAt(EncodeHeader(h) + rest, h)
  {
    hide IsAt, IsPmHeader, ReadPmHeader, EncodeHeader, SafeSections;
    SafeIsEach(h.at);
    HeaderRoundTrip(h, rest);
    FieldsAreRead(EncodeHeader(h) + rest);
  }
}
