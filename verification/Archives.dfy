/**
 * Reading one tile from a PMTiles archive: the binary search of a directory and the walk from the
 * root through leaf directories (packages/offline/src/pmtiles.ts, `findPmEntry` and `readPmTile`).
 */
module Archives {
  import opened Wrappers
  import opened Varints
  import opened Directories
  import opened Headers
  import opened TileIds

  const COMPRESSION_NONE: nat := 1
  const COMPRESSION_GZIP: nat := 2
  const MAX_DECOMPRESSED: nat := 64 * 1024 * 1024

  /** gzip, as two functions; `gunzip` refuses to make more than the given number of bytes. */
  datatype Gzip = Gzip(gzip: Bytes -> Bytes, gunzip: (Bytes, nat) -> Result<Bytes>)

  /** DEFLATE never does better than 1032 to one (RFC 1951), nor much worse than storing. */
  ghost predicate Lawful(z: Gzip) {
    && (forall b: Bytes, max: nat :: |b| <= max ==> z.gunzip(z.gzip(b), max) == Success(b))
    && (forall b: Bytes :: 0 < |z.gzip(b)| <= |b| + |b| / 1000 + 64)
    && (forall b: Bytes :: |b| <= 1032 * |z.gzip(b)|)
  }

  function DecompressInternal(z: Gzip, bytes: Bytes, compression: nat, maxBytes: nat): Result<Bytes> {
    if compression == COMPRESSION_NONE then Success(bytes)
    else if compression == COMPRESSION_GZIP then z.gunzip(bytes, maxBytes)
    else Failure("internal compression is not read here")
  }

  function CompressInternal(z: Gzip, bytes: Bytes, compression: nat): Result<Bytes> {
    if compression == COMPRESSION_NONE then Success(bytes)
    else if compression == COMPRESSION_GZIP then Success(z.gzip(bytes))
    else Failure("internal compression is not written here")
  }

  lemma CompressionRoundTrip(z: Gzip, bytes: Bytes, compression: nat, maxBytes: nat)
    requires Lawful(z) && CompressInternal(z, bytes, compression).Success? && |bytes| <= maxBytes
    ensures DecompressInternal(z, CompressInternal(z, bytes, compression).value, compression, maxBytes) == Success(bytes)
  {
  }

  /** A range source: exactly the bytes asked for, or a failure. */
  function ReadRange(file: Bytes, offset: int, length: nat): (r: Result<Bytes>)
    ensures r.Success? <==> 0 <= offset && offset + length <= |file|
    ensures r.Success? ==> |r.value| == length
  {
    if 0 <= offset && offset + length <= |file| then Success(file[offset..offset + length])
    else Failure("the source does not have those bytes")
  }

  // ---- one directory -------------------------------------------------------------------------------

  /** Tile ids increase from entry to entry. */
  predicate StrictlySorted(es: seq<PmEntry>) {
    forall i, j :: 0 <= i < j < |es| ==> es[i].tileId < es[j].tileId
  }

  /** A leaf pointer answers for every id up to the next entry, a run for the ids it covers. */
  predicate Answers(e: PmEntry, id: nat) {
    e.tileId <= id && (e.runLength == 0 || id - e.tileId < e.runLength)
  }

  /** The entry holding `id`: the last entry starting at or before it, when it answers for it. */
  function EntryFor(es: seq<PmEntry>, id: nat): Option<PmEntry> {
    if es == [] then None
    else if |es| > 1 && es[1].tileId <= id then EntryFor(es[1..], id)
    else if Answers(es[0], id) then Some(es[0])
    else None
  }

  /** Where the binary search of `findPmEntry` ends: an exact match, or the bound `hi` (-1 for none). */
  function SearchFrom(es: seq<PmEntry>, id: nat, lo: int, hi: int): (r: (bool, int))
    requires 0 <= lo <= hi + 1 <= |es|
    ensures if r.0 then 0 <= r.1 < |es| else -1 <= r.1 < |es|
    decreases hi - lo + 1
  {
    if lo > hi then (false, hi) else
      var mid := (lo + hi) / 2;
      if es[mid].tileId < id then SearchFrom(es, id, mid + 1, hi)
      else if es[mid].tileId > id then SearchFrom(es, id, lo, mid - 1)
      else (true, mid)
  }

  function Lookup(es: seq<PmEntry>, id: nat): Option<PmEntry> {
    var (exact, at) := SearchFrom(es, id, 0, |es| - 1);
    if exact then Some(es[at])
    else if at >= 0 && (es[at].runLength == 0 || id - es[at].tileId < es[at].runLength) then Some(es[at])
    else None
  }

  method FindPmEntry(entries: seq<PmEntry>, id: nat) returns (r: Option<PmEntry>)
    ensures r == Lookup(entries, id)
  {
    var lo, hi := 0, |entries| - 1;
    while lo <= hi
      invariant 0 <= lo <= hi + 1 <= |entries|
      invariant SearchFrom(entries, id, 0, |entries| - 1) == SearchFrom(entries, id, lo, hi)
      decreases hi - lo + 1
    {
      var mid := (lo + hi) / 2;
      var c := entries[mid].tileId;
      if c < id {
        lo := mid + 1;
      } else if c > id {
        hi := mid - 1;
      } else {
        return Some(entries[mid]);
      }
    }
    if hi >= 0 {
      var e := entries[hi];
      if e.runLength == 0 || id - e.tileId < e.runLength {
        return Some(e);
      }
    }
    return None;
  }

  /** The last entry of a sorted directory starting at or before `id` is at index `k`. */
  lemma {:induction false} EntryForAt(es: seq<PmEntry>, id: nat, k: nat)
    requires StrictlySorted(es) && k < |es| && es[k].tileId <= id
    requires k + 1 < |es| ==> id < es[k + 1].tileId
    ensures EntryFor(es, id) == if Answers(es[k], id) then Some(es[k]) else None
  {
    if k > 0 {
      assert es[1].tileId <= es[k].tileId by {
        assert k == 1 || es[1].tileId < es[k].tileId;
      }
      EntryForAt(es[1..], id, k - 1);
    }
  }

  lemma EntryForNone(es: seq<PmEntry>, id: nat)
    requires StrictlySorted(es) && (es != [] ==> id < es[0].tileId)
    ensures EntryFor(es, id) == None
  {
  }

  /** What a search that ends at `at` knows: the match, or the entries either side of `id`. */
  predicate Brackets(es: seq<PmEntry>, id: nat, exact: bool, at: int) {
    && -1 <= at < |es|
    && if exact then at >= 0 && es[at].tileId == id
       else (at >= 0 ==> es[at].tileId < id) && (at + 1 < |es| ==> id < es[at + 1].tileId)
  }

  lemma {:induction false} SearchEnds(es: seq<PmEntry>, id: nat, lo: int, hi: int)
    requires 0 <= lo <= hi + 1 <= |es|
    requires lo > 0 ==> es[lo - 1].tileId < id
    requires hi + 1 < |es| ==> id < es[hi + 1].tileId
    ensures var r := SearchFrom(es, id, lo, hi); Brackets(es, id, r.0, r.1)
    decreases hi - lo + 1
  {
    if lo <= hi {
      hide Brackets;
      var mid := (lo + hi) / 2;
      assert lo <= mid <= hi;
      if es[mid].tileId < id {
        SearchEnds(es, id, mid + 1, hi);
      } else if es[mid].tileId > id {
        SearchEnds(es, id, lo, mid - 1);
      } else {
        ExactBrackets(es, id, mid);
      }
    }
  }

  lemma ExactBrackets(es: seq<PmEntry>, id: nat, at: nat)
    requires at < |es| && es[at].tileId == id
    ensures Brackets(es, id, true, at)
  {
  }

  /** On a sorted directory the binary search finds the entry holding the id. */
  lemma LookupFindsTheEntry(es: seq<PmEntry>, id: nat)
    requires StrictlySorted(es)
    ensures Lookup(es, id) == EntryFor(es, id)
  {
    hide SearchFrom, EntryFor;
    SearchEnds(es, id, 0, |es| - 1);
    var (exact, at) := SearchFrom(es, id, 0, |es| - 1);
    if at >= 0 {
      EntryForAt(es, id, at);
    } else {
      EntryForNone(es, id);
    }
  }

  // ---- the walk ------------------------------------------------------------------------------------

  const MAX_DEPTH: nat := 4

  /** A stored directory's entries. */
  function Unpack(z: Gzip, compression: nat, raw: Bytes): Result<seq<PmEntry>> {
    var bytes :- DecompressInternal(z, raw, compression, MAX_DECOMPRESSED);
    DecodeDirectory(bytes)
  }

  function ReadDirectory(z: Gzip, file: Bytes, compression: nat, offset: int, length: nat): Result<seq<PmEntry>> {
    var raw :- ReadRange(file, offset, length);
    Unpack(z, compression, raw)
  }

  /** The tile `id` looked up from the directory at `offset`, `depth` directories down. */
  function WalkFrom(z: Gzip, file: Bytes, h: PmHeader, offset: int, length: nat, id: nat, depth: nat): Result<Option<Bytes>>
    requires depth <= MAX_DEPTH
    decreases MAX_DEPTH - depth
  {
    if depth == MAX_DEPTH then Failure("leaf directories nested too deep") else
      var dir :- ReadDirectory(z, file, h.internalCompression, offset, length);
      match Lookup(dir, id)
      case None => Success(None)
      case Some(e) =>
        if e.runLength > 0 then
          var tile :- ReadRange(file, h.at.tileDataOffset + e.offset, e.length);
          Success(Some(tile))
        else
          WalkFrom(z, file, h, h.at.leafDirectoryOffset + e.offset, e.length, id, depth + 1)
  }

  function WalkTile(z: Gzip, file: Bytes, h: PmHeader, id: nat): Result<Option<Bytes>> {
    WalkFrom(z, file, h, h.at.rootDirectoryOffset, h.at.rootDirectoryLength, id, 0)
  }

  lemma WalkStep(z: Gzip, file: Bytes, h: PmHeader, offset: int, length: nat, id: nat, depth: nat)
    requires depth < MAX_DEPTH
    ensures WalkFrom(z, file, h, offset, length, id, depth) ==
            match ReadDirectory(z, file, h.internalCompression, offset, length) {
              case Failure(error) => Failure(error)
              case Success(dir) =>
                match Lookup(dir, id) {
                  case None => Success(None)
                  case Some(e) =>
                    if e.runLength == 0 then
                      WalkFrom(z, file, h, h.at.leafDirectoryOffset + e.offset, e.length, id, depth + 1)
                    else
                      match ReadRange(file, h.at.tileDataOffset + e.offset, e.length)
                      case Failure(error) => Failure(error)
                      case Success(tile) => Success(Some(tile))
                }
            }
  {
    hide Lookup, ReadDirectory, ReadRange;
  }

  lemma TooDeep(z: Gzip, file: Bytes, h: PmHeader, offset: int, length: nat, id: nat)
    ensures WalkFrom(z, file, h, offset, length, id, MAX_DEPTH) == Failure("leaf directories nested too deep")
  {
  }

  method ReadPmTile(z: Gzip, file: Bytes, header: PmHeader, zoom: int, x: int, y: int) returns (r: Result<Option<Bytes>>)
    ensures 0 <= zoom <= PM_MAX_ZOOM && 0 <= x < Pow2(zoom) && 0 <= y < Pow2(zoom)
            ==> r == WalkTile(z, file, header, TileId(zoom, x, y))
    ensures !(0 <= zoom <= PM_MAX_ZOOM && 0 <= x < Pow2(zoom) && 0 <= y < Pow2(zoom)) ==> r.Failure?
  {
    hide Lookup, TileId, Pow2, WalkFrom, ReadRange, DecompressInternal, DecodeDirectory;
    var tileId := ZxyToTileId(zoom, x, y);
    if tileId.Failure? {
      return Failure(tileId.error);
    }
    var id := tileId.value;
    var dirOffset: int, dirLength := header.at.rootDirectoryOffset, header.at.rootDirectoryLength;
    for depth := 0 to MAX_DEPTH
      invariant WalkTile(z, file, header, id) == WalkFrom(z, file, header, dirOffset, dirLength, id, depth)
    {
      WalkStep(z, file, header, dirOffset, dirLength, id, depth);
      var raw := ReadRange(file, dirOffset, dirLength);
      if raw.Failure? {
        return Failure(raw.error);
      }
      var bytes := DecompressInternal(z, raw.value, header.internalCompression, MAX_DECOMPRESSED);
      if bytes.Failure? {
        return Failure(bytes.error);
      }
      var dir := DecodePmDirectory(bytes.value);
      if dir.Failure? {
        return Failure(dir.error);
      }
      var found := FindPmEntry(dir.value, id);
      if found.None? {
        return Success(None);
      }
      var e := found.value;
      if e.runLength > 0 {
        var tile := ReadRange(file, header.at.tileDataOffset + e.offset, e.length);
        return if tile.Success? then Success(Some(tile.value)) else Failure(tile.error);
      }
      dirOffset, dirLength := header.at.leafDirectoryOffset + e.offset, e.length;
    }
    TooDeep(z, file, header, dirOffset, dirLength, id);
    return Failure("leaf directories nested too deep");
  }
}
