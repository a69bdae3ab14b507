/**
 * PMTiles directories as bytes: the entry count, then the tile ids as differences, the run
 * lengths, the lengths, and the offsets, where 0 says "right after the entry before"
 * (PMTiles version 3, section 4; packages/offline/src/pmtiles.ts, "directories").
 */
module Directories {
  import opened Wrappers
  import opened Varints

  /** A run of tiles with one blob; run length 0 points at a leaf directory. */
  datatype PmEntry = PmEntry(tileId: nat, offset: int, length: nat, runLength: nat)

  const MAX_DIRECTORY_ENTRIES: nat := 50_000_000

  // ---- the format --------------------------------------------------------------------------------

  predicate SortedById(es: seq<PmEntry>) {
    forall i :: 0 < i < |es| ==> es[i - 1].tileId <= es[i].tileId
  }

  predicate HaveLengths(es: seq<PmEntry>) {
    forall i :: 0 <= i < |es| ==> es[i].length > 0
  }

  /** Offsets a directory can hold (0 on the wire is the shorthand, or -1 in a first entry). */
  predicate HaveOffsets(es: seq<PmEntry>) {
    forall i :: 0 <= i < |es| ==> es[i].offset >= 0
  }

  function DeltaAt(es: seq<PmEntry>, i: nat): nat
    requires i < |es| && SortedById(es)
  {
    if i == 0 then es[0].tileId else es[i].tileId - es[i - 1].tileId
  }

  predicate Contiguous(es: seq<PmEntry>, i: nat)
    requires i < |es|
  {
    i > 0 && es[i].offset == es[i - 1].offset + es[i - 1].length
  }

  function RawOffsetAt(es: seq<PmEntry>, i: nat): nat
    requires i < |es| && HaveOffsets(es)
  {
    if Contiguous(es, i) then 0 else es[i].offset + 1
  }

  function Deltas(es: seq<PmEntry>): (ns: seq<nat>)
    requires SortedById(es)
    ensures |ns| == |es|
  {
    seq(|es|, i requires 0 <= i < |es| => DeltaAt(es, i))
  }

  function Runs(es: seq<PmEntry>): (ns: seq<nat>)
    ensures |ns| == |es|
  {
    seq(|es|, i requires 0 <= i < |es| => es[i].runLength)
  }

  function Lengths(es: seq<PmEntry>): (ns: seq<nat>)
    ensures |ns| == |es|
  {
    seq(|es|, i requires 0 <= i < |es| => es[i].length)
  }

  function RawOffsets(es: seq<PmEntry>): (ns: seq<nat>)
    requires HaveOffsets(es)
    ensures |ns| == |es|
  {
    seq(|es|, i requires 0 <= i < |es| => RawOffsetAt(es, i))
  }

  /** The numbers a directory is written as, in order. */
  function DirectoryNums(es: seq<PmEntry>): (ns: seq<nat>)
    requires SortedById(es) && HaveOffsets(es)
    ensures |ns| == 1 + 4 * |es|
  {
    [|es|] + Deltas(es) + Runs(es) + Lengths(es) + RawOffsets(es)
  }

  function EncodeDirectory(es: seq<PmEntry>): Result<Bytes>
    requires HaveOffsets(es)
  {
    if es == [] then Failure("a directory must have at least one entry")
    else if !SortedById(es) then Failure("directory entries must be sorted by tile id")
    else if !HaveLengths(es) then Failure("a directory entry has no length")
    else Success(EncodeNums(DirectoryNums(es)))
  }

  function IdAt(deltas: seq<nat>, i: nat): nat
    requires i < |deltas|
  {
    if i == 0 then deltas[0] else IdAt(deltas, i - 1) + deltas[i]
  }

  function OffsetAt(raws: seq<nat>, lengths: seq<nat>, i: nat): int
    requires i < |raws| <= |lengths|
  {
    if raws[i] > 0 || i == 0 then raws[i] as int - 1 else OffsetAt(raws, lengths, i - 1) + lengths[i - 1]
  }

  function EntriesOf(deltas: seq<nat>, runs: seq<nat>, lengths: seq<nat>, raws: seq<nat>): (es: seq<PmEntry>)
    requires |deltas| == |runs| == |lengths| == |raws|
    ensures |es| == |deltas|
  {
    seq(|deltas|, i requires 0 <= i < |deltas| =>
      PmEntry(IdAt(deltas, i), OffsetAt(raws, lengths, i), lengths[i], runs[i]))
  }

  function DecodeDirectory(bs: Bytes): Result<seq<PmEntry>> {
    var (n, b0) :- ReadVarint(bs);
    if n > MAX_DIRECTORY_ENTRIES then Failure("a directory says it has too many entries") else
      var (deltas, b1) :- ReadNums(n, b0);
      var (runs, b2) :- ReadNums(n, b1);
      var (lengths, b3) :- ReadNums(n, b2);
      var (raws, _) :- ReadNums(n, b3);
      Success(EntriesOf(deltas, runs, lengths, raws))
  }

  // ---- the round trip ----------------------------------------------------------------------------

  /** The reader's limits: not too many entries, and every number written a safe integer. */
  predicate Readable(es: seq<PmEntry>)
    requires SortedById(es) && HaveOffsets(es)
  {
    && |es| <= MAX_DIRECTORY_ENTRIES
    && forall i :: 0 <= i < |es| ==>
         && DeltaAt(es, i) <= MAX_SAFE && es[i].runLength <= MAX_SAFE && es[i].length <= MAX_SAFE
         && RawOffsetAt(es, i) <= MAX_SAFE
  }

  lemma {:induction false} IdsRoundTrip(es: seq<PmEntry>, i: nat)
    requires SortedById(es) && i < |es|
    ensures IdAt(Deltas(es), i) == es[i].tileId
  {
    if i > 0 {
      IdsRoundTrip(es, i - 1);
    }
  }

  lemma {:induction false} OffsetsRoundTrip(es: seq<PmEntry>, i: nat)
    requires HaveOffsets(es) && i < |es|
    ensures OffsetAt(RawOffsets(es), Lengths(es), i) == es[i].offset
  {
    if i > 0 {
      OffsetsRoundTrip(es, i - 1);
    }
  }

  lemma EntriesRoundTrip(es: seq<PmEntry>)
    requires SortedById(es) && HaveOffsets(es)
    ensures EntriesOf(Deltas(es), Runs(es), Lengths(es), RawOffsets(es)) == es
  {
    forall i | 0 <= i < |es|
      ensures EntriesOf(Deltas(es), Runs(es), Lengths(es), RawOffsets(es))[i] == es[i]
    {
      IdsRoundTrip(es, i);
      OffsetsRoundTrip(es, i);
    }
  }

  lemma SafeColumns(es: seq<PmEntry>)
    requires SortedById(es) && HaveOffsets(es) && |es| <= MAX_DIRECTORY_ENTRIES
    ensures Readable(es) <==> AllSafe(Deltas(es)) && AllSafe(Runs(es)) && AllSafe(Lengths(es)) && AllSafe(RawOffsets(es))
  {
    if AllSafe(Deltas(es)) && AllSafe(Runs(es)) && AllSafe(Lengths(es)) && AllSafe(RawOffsets(es)) {
      forall i | 0 <= i < |es|
        ensures DeltaAt(es, i) <= MAX_SAFE && es[i].runLength <= MAX_SAFE && es[i].length <= MAX_SAFE
        ensures RawOffsetAt(es, i) <= MAX_SAFE
      {
        assert Deltas(es)[i] <= MAX_SAFE && Runs(es)[i] <= MAX_SAFE;
        assert Lengths(es)[i] <= MAX_SAFE && RawOffsets(es)[i] <= MAX_SAFE;
      }
    }
  }

  lemma EncodeColumns(n: nat, a: seq<nat>, b: seq<nat>, c: seq<nat>, d: seq<nat>)
    ensures EncodeNums([n] + a + b + c + d)
         == EncodeVarint(n) + EncodeNums(a) + EncodeNums(b) + EncodeNums(c) + EncodeNums(d)
  {
    hide EncodeNums, EncodeVarint;
    EncodeNumsOne(n);
    EncodeNumsAppend([n], a);
    EncodeNumsAppend([n] + a, b);
    EncodeNumsAppend([n] + a + b, c);
    EncodeNumsAppend([n] + a + b + c, d);
  }

  lemma ConcatRight(n: Bytes, a: Bytes, b: Bytes, c: Bytes, d: Bytes, rest: Bytes)
    ensures n + a + b + c + d + rest == n + (a + (b + (c + (d + rest))))
  {
  }

  /** Reading the columns of `es` back, whatever follows them. */
  lemma DecodeOfColumns(es: seq<PmEntry>, rest: Bytes)
    requires SortedById(es) && HaveOffsets(es)
    ensures var r := DecodeDirectory(EncodeNums(DirectoryNums(es)) + rest);
            if Readable(es) then r == Success(es) else r.Failure?
  {
    hide EncodeNums, Deltas, Runs, Lengths, RawOffsets, EncodeVarint, ReadNums, ReadVarint, EntriesOf, Readable;
    var t3 := EncodeNums(RawOffsets(es)) + rest;
    var t2 := EncodeNums(Lengths(es)) + t3;
    var t1 := EncodeNums(Runs(es)) + t2;
    var t0 := EncodeNums(Deltas(es)) + t1;
    EncodeColumns(|es|, Deltas(es), Runs(es), Lengths(es), RawOffsets(es));
    ConcatRight(EncodeVarint(|es|), EncodeNums(Deltas(es)), EncodeNums(Runs(es)), EncodeNums(Lengths(es)),
                EncodeNums(RawOffsets(es)), rest);
    VarintRoundTrip(|es|, t0);
    NumsRoundTrip(Deltas(es), t1);
    NumsRoundTrip(Runs(es), t2);
    NumsRoundTrip(Lengths(es), t3);
    NumsRoundTrip(RawOffsets(es), rest);
    EntriesRoundTrip(es);
    if |es| <= MAX_DIRECTORY_ENTRIES {
      SafeColumns(es);
    } else {
      TooManyAreNotReadable(es);
    }
  }

  lemma TooManyAreNotReadable(es: seq<PmEntry>)
    requires SortedById(es) && HaveOffsets(es) && |es| > MAX_DIRECTORY_ENTRIES
    ensures !Readable(es)
  {
  }

  /**
   * A directory that can be written reads back as the same entries exactly when it is within the
   * reader's limits; past them the reader refuses it.
   */
  lemma DirectoryRoundTrip(es: seq<PmEntry>, rest: Bytes)
    requires HaveOffsets(es) && EncodeDirectory(es).Success?
    ensures DecodeDirectory(EncodeDirectory(es).value + rest) == Success(es) <==> Readable(es)
    ensures !Readable(es) ==> DecodeDirectory(EncodeDirectory(es).value + rest).Failure?
  {
    hide Readable, DecodeDirectory, EncodeNums, DirectoryNums;
    DecodeOfColumns(es, rest);
  }

  /** Where each number of a written directory is: the count, and in four columns what the entries are. */
  lemma ColumnsAreWritten(es: seq<PmEntry>, i: nat)
    requires HaveOffsets(es) && EncodeDirectory(es).Success? && i < |es|
    ensures SortedById(es) && EncodeDirectory(es) == Success(EncodeNums(DirectoryNums(es)))
    ensures var ns, n := DirectoryNums(es), |es|;
            && |ns| == 1 + 4 * n && ns[0] == n
            && ns[1 + i] == (if i == 0 then es[i].tileId else es[i].tileId - es[i - 1].tileId)
            && ns[1 + n + i] == es[i].runLength
            && ns[1 + 2 * n + i] == es[i].length
            && ns[1 + 3 * n + i] == (if i > 0 && es[i].offset == es[i - 1].offset + es[i - 1].length then 0 else es[i].offset + 1)
  {
    hide EncodeNums;
    FourColumns(Deltas(es), Runs(es), Lengths(es), RawOffsets(es), i);
  }

  lemma FourColumns(a: seq<nat>, b: seq<nat>, c: seq<nat>, d: seq<nat>, i: nat)
    requires |a| == |b| == |c| == |d| && i < |a|
    ensures var ns, n := [|a|] + a + b + c + d, |a|;
            ns[0] == n && ns[1 + i] == a[i] && ns[1 + n + i] == b[i] && ns[1 + 2 * n + i] == c[i] && ns[1 + 3 * n + i] == d[i]
  {
  }

  /** The columns of the numbers after the count. */
  lemma ColumnsAreRead(n: nat, ns: seq<nat>, rest: Bytes)
    requires |ns| == 4 * n && n <= MAX_DIRECTORY_ENTRIES && AllSafe(ns)
    ensures DecodeDirectory(EncodeVarint(n) + EncodeNums(ns) + rest)
         == Success(EntriesOf(ns[..n], ns[n..2 * n], ns[2 * n..3 * n], ns[3 * n..]))
  {
    hide EncodeNums, EncodeVarint, ReadNums, ReadVarint, EntriesOf;
    var a, b, c, d := ns[..n], ns[n..2 * n], ns[2 * n..3 * n], ns[3 * n..];
    assert AllSafe(a) && AllSafe(b) && AllSafe(c) && AllSafe(d);
    assert [n] + a + b + c + d == [n] + ns;
    EncodeColumns(n, a, b, c, d);
    EncodeNumsAppend([n], ns);
    EncodeNumsOne(n);
    ConcatRight(EncodeVarint(n), EncodeNums(a), EncodeNums(b), EncodeNums(c), EncodeNums(d), rest);
    VarintRoundTrip(n, EncodeNums(a) + (EncodeNums(b) + (EncodeNums(c) + (EncodeNums(d) + rest))));
    NumsRoundTrip(a, EncodeNums(b) + (EncodeNums(c) + (EncodeNums(d) + rest)));
    NumsRoundTrip(b, EncodeNums(c) + (EncodeNums(d) + rest));
    NumsRoundTrip(c, EncodeNums(d) + rest);
    NumsRoundTrip(d, rest);
  }

  /** What a directory of any numbers says its entries are, column by column. */
  lemma EntriesAreTheColumns(n: nat, ns: seq<nat>, rest: Bytes, i: nat)
    requires |ns| == 4 * n && n <= MAX_DIRECTORY_ENTRIES && AllSafe(ns) && i < n
    ensures var r := DecodeDirectory(EncodeVarint(n) + EncodeNums(ns) + rest);
            && r.Success? && |r.value| == n
            && var es := r.value;
               && es[i].tileId == ns[i] + (if i == 0 then 0 else es[i - 1].tileId)
               && es[i].runLength == ns[n + i]
               && es[i].length == ns[2 * n + i]
               && es[i].offset == if ns[3 * n + i] == 0 && i > 0 then es[i - 1].offset + es[i - 1].length else ns[3 * n + i] as int - 1
  {
    ColumnsAreRead(n, ns, rest);
    hide DecodeDirectory, EncodeNums, EncodeVarint;
    var a, b, c, d := ns[..n], ns[n..2 * n], ns[2 * n..3 * n], ns[3 * n..];
    assert a[i] == ns[i] && b[i] == ns[n + i] && c[i] == ns[2 * n + i] && d[i] == ns[3 * n + i];
  }

  // ---- the writer and the reader -----------------------------------------------------------------

  lemma PushColumn(base: seq<nat>, column: seq<nat>, k: nat)
    requires k < |column|
    ensures EncodeNums(base + column[..k + 1]) == EncodeNums(base + column[..k]) + EncodeVarint(column[k])
  {
    EncodeNumsPush(base + column[..k], column[k]);
    assert base + column[..k + 1] == base + column[..k] + [column[k]];
  }

  lemma PushDelta(base: seq<nat>, es: seq<PmEntry>, k: nat)
    requires k < |es| && SortedById(es[..k]) && (k > 0 ==> es[k - 1].tileId <= es[k].tileId)
    ensures SortedById(es[..k + 1])
    ensures EncodeNums(base + Deltas(es[..k + 1])) == EncodeNums(base + Deltas(es[..k])) + EncodeVarint(DeltaAt(es[..k + 1], k))
  {
    hide EncodeNums, EncodeVarint;
    EncodeNumsPush(base + Deltas(es[..k]), DeltaAt(es[..k + 1], k));
    assert base + Deltas(es[..k + 1]) == base + Deltas(es[..k]) + [DeltaAt(es[..k + 1], k)];
  }

  // Each loop of `encodePmDirectory` and `decodePmDirectory` is a method of its own here; `base` is
  // what was written before it.

  method WriteDeltas(w: VarintWriter, entries: seq<PmEntry>, ghost base: seq<nat>) returns (sorted: bool)
    requires w.Contents() == EncodeNums(base)
    modifies w
    ensures sorted <==> SortedById(entries)
    ensures sorted ==> w.Contents() == EncodeNums(base + Deltas(entries))
  {
    hide EncodeNums, EncodeVarint, VarintWriter.Contents;
    var last := 0;
    assert base + Deltas(entries[..0]) == base;
    for k := 0 to |entries|
      invariant SortedById(entries[..k])
      invariant last == if k == 0 then 0 else entries[k - 1].tileId
      invariant w.Contents() == EncodeNums(base + Deltas(entries[..k]))
    {
      var e := entries[k];
      if e.tileId < last {
        return false;
      }
      PushDelta(base, entries, k);
      w.Push(e.tileId - last);
      last := e.tileId;
    }
    assert entries[..|entries|] == entries;
    return true;
  }

  method WriteRuns(w: VarintWriter, entries: seq<PmEntry>, ghost base: seq<nat>)
    requires w.Contents() == EncodeNums(base)
    modifies w
    ensures w.Contents() == EncodeNums(base + Runs(entries))
  {
    hide EncodeNums, EncodeVarint, VarintWriter.Contents;
    assert base + Runs(entries)[..0] == base;
    for k := 0 to |entries|
      invariant w.Contents() == EncodeNums(base + Runs(entries)[..k])
    {
      PushColumn(base, Runs(entries), k);
      w.Push(entries[k].runLength);
    }
    assert Runs(entries)[..|entries|] == Runs(entries);
  }

  method WriteLengths(w: VarintWriter, entries: seq<PmEntry>, ghost base: seq<nat>) returns (positive: bool)
    requires w.Contents() == EncodeNums(base)
    modifies w
    ensures positive <==> HaveLengths(entries)
    ensures positive ==> w.Contents() == EncodeNums(base + Lengths(entries))
  {
    hide EncodeNums, EncodeVarint, VarintWriter.Contents;
    assert base + Lengths(entries)[..0] == base;
    for k := 0 to |entries|
      invariant HaveLengths(entries[..k])
      invariant w.Contents() == EncodeNums(base + Lengths(entries)[..k])
    {
      if entries[k].length <= 0 {
        return false;
      }
      PushColumn(base, Lengths(entries), k);
      w.Push(entries[k].length);
    }
    assert entries[..|entries|] == entries;
    assert Lengths(entries)[..|entries|] == Lengths(entries);
    return true;
  }

  method WriteOffsets(w: VarintWriter, entries: seq<PmEntry>, ghost base: seq<nat>)
    requires w.Contents() == EncodeNums(base) && HaveOffsets(entries)
    modifies w
    ensures w.Contents() == EncodeNums(base + RawOffsets(entries))
  {
    hide EncodeNums, EncodeVarint, VarintWriter.Contents;
    assert base + RawOffsets(entries)[..0] == base;
    for k := 0 to |entries|
      invariant w.Contents() == EncodeNums(base + RawOffsets(entries)[..k])
    {
      var e := entries[k];
      PushColumn(base, RawOffsets(entries), k);
      w.Push(if k > 0 && e.offset == entries[k - 1].offset + entries[k - 1].length then 0 else e.offset + 1);
    }
    assert RawOffsets(entries)[..|entries|] == RawOffsets(entries);
  }

  method EncodePmDirectory(entries: seq<PmEntry>) returns (r: Result<Bytes>)
    requires HaveOffsets(entries)
    ensures r == EncodeDirectory(entries)
    ensures r.Success? <==>
              && entries != []
              && (forall i :: 0 < i < |entries| ==> entries[i - 1].tileId <= entries[i].tileId)
              && (forall i :: 0 <= i < |entries| ==> entries[i].length > 0)
  {
    hide EncodeNums, EncodeVarint, Deltas, Runs, Lengths, RawOffsets, VarintWriter.Contents;
    if |entries| == 0 {
      return Failure("a directory must have at least one entry");
    }
    var w := new VarintWriter();
    w.Push(|entries|);
    EncodeNumsOne(|entries|);
    ghost var base := [|entries|];
    var sorted := WriteDeltas(w, entries, base);
    if !sorted {
      return Failure("directory entries must be sorted by tile id");
    }
    base := base + Deltas(entries);
    WriteRuns(w, entries, base);
    base := base + Runs(entries);
    var positive := WriteLengths(w, entries, base);
    if !positive {
      return Failure("a directory entry has no length");
    }
    base := base + Lengths(entries);
    WriteOffsets(w, entries, base);
    var bytes := w.ToBytes();
    return Success(bytes);
  }

  /** `r`, with `ns` read before it. */
  function Resume(ns: seq<nat>, r: Result<(seq<nat>, Bytes)>): Result<(seq<nat>, Bytes)> {
    match r
    case Failure(e) => Failure(e)
    case Success((ms, rest)) => Success((ns + ms, rest))
  }

  lemma ResumeStep(ns: seq<nat>, n: nat, bs: Bytes)
    requires n > 0
    ensures Resume(ns, ReadNums(n, bs)) ==
            match ReadVarint(bs) {
              case Failure(e) => Failure(e)
              case Success((v, more)) => Resume(ns + [v], ReadNums(n - 1, more))
            }
  {
    hide ReadVarint;
    var r := ReadVarint(bs);
    if r.Success? {
      var others := ReadNums(n - 1, r.value.1);
      if others.Success? {
        assert ns + ([r.value.0] + others.value.0) == ns + [r.value.0] + others.value.0;
      }
    }
  }

  /** What a column reader promises: the numbers of the column, or the failure of reading them. */
  ghost predicate ColumnRead(n: nat, before: Bytes, after: Bytes, ns: seq<nat>, r: Result<bool>) {
    match ReadNums(n, before)
    case Failure(e) => r == Failure(e)
    case Success((ms, rest)) => r.Success? && ns == ms && after == rest
  }

  method ReadDeltas(r: VarintReader, entries: array<PmEntry>) returns (out: Result<bool>, ghost ns: seq<nat>)
    requires r.Valid()
    modifies r, entries
    ensures r.Valid() && ColumnRead(entries.Length, old(r.Left()), r.Left(), ns, out)
    ensures out.Success? ==> |ns| == entries.Length
    ensures out.Success? ==> forall i :: 0 <= i < |ns| ==> entries[i] == PmEntry(IdAt(ns, i), 0, 0, 0)
  {
    hide ReadNums, ReadVarint, IdAt, VarintReader.Left;
    var n, id := entries.Length, 0;
    ns := [];
    ResumeNothing(n, r.Left());
    for i := 0 to n
      invariant r.Valid() && |ns| == i && id == if i == 0 then 0 else IdAt(ns, i - 1)
      invariant ReadNums(n, old(r.Left())) == Resume(ns, ReadNums(n - i, r.Left()))
      invariant forall j :: 0 <= j < i ==> entries[j] == PmEntry(IdAt(ns, j), 0, 0, 0)
    {
      ResumeStep(ns, n - i, r.Left());
      var v := r.Next();
      if v.Failure? {
        return Failure(v.error), ns;
      }
      ghost var was := ns;
      ns := ns + [v.value];
      IdsOfLonger(was, v.value);
      id := id + v.value;
      entries[i] := PmEntry(id, 0, 0, 0);
    }
    NothingLeft(ns, r.Left());
    return Success(true), ns;
  }

  lemma ResumeNothing(n: nat, bs: Bytes)
    ensures Resume([], ReadNums(n, bs)) == ReadNums(n, bs)
  {
    hide ReadNums;
    if ReadNums(n, bs).Success? {
      assert [] + ReadNums(n, bs).value.0 == ReadNums(n, bs).value.0;
    }
  }

  lemma NothingLeft(ns: seq<nat>, bs: Bytes)
    ensures Resume(ns, ReadNums(0, bs)) == Success((ns, bs))
  {
    assert ns + [] == ns;
  }

  lemma IdsOfLonger(ns: seq<nat>, v: nat)
    ensures forall j :: 0 <= j < |ns| ==> IdAt(ns + [v], j) == IdAt(ns, j)
    ensures IdAt(ns + [v], |ns|) == (if ns == [] then 0 else IdAt(ns, |ns| - 1)) + v
  {
    forall j | 0 <= j < |ns|
      ensures IdAt(ns + [v], j) == IdAt(ns, j)
    {
      IdOfLonger(ns, v, j);
    }
  }

  lemma {:induction false} IdOfLonger(ns: seq<nat>, v: nat, j: nat)
    requires j < |ns|
    ensures IdAt(ns + [v], j) == IdAt(ns, j)
  {
    if j > 0 {
      IdOfLonger(ns, v, j - 1);
    }
  }

  lemma {:induction false} OffsetOfLonger(raws: seq<nat>, v: nat, lengths: seq<nat>, j: nat)
    requires j < |raws| < |lengths|
    ensures OffsetAt(raws + [v], lengths, j) == OffsetAt(raws, lengths, j)
  {
    if j > 0 {
      OffsetOfLonger(raws, v, lengths, j - 1);
    }
  }

  lemma OffsetsOfLonger(raws: seq<nat>, v: nat, lengths: seq<nat>)
    requires |raws| < |lengths|
    ensures forall j :: 0 <= j < |raws| ==> OffsetAt(raws + [v], lengths, j) == OffsetAt(raws, lengths, j)
    ensures var k := |raws|;
            OffsetAt(raws + [v], lengths, k) ==
            if v > 0 || k == 0 then v as int - 1 else OffsetAt(raws, lengths, k - 1) + lengths[k - 1]
  {
    forall j | 0 <= j < |raws|
      ensures OffsetAt(raws + [v], lengths, j) == OffsetAt(raws, lengths, j)
    {
      OffsetOfLonger(raws, v, lengths, j);
    }
    if |raws| > 0 {
      OffsetOfLonger(raws, v, lengths, |raws| - 1);
    }
  }

  method ReadRuns(r: VarintReader, entries: array<PmEntry>) returns (out: Result<bool>, ghost ns: seq<nat>)
    requires r.Valid()
    modifies r, entries
    ensures r.Valid() && ColumnRead(entries.Length, old(r.Left()), r.Left(), ns, out)
    ensures out.Success? ==> |ns| == entries.Length
    ensures out.Success? ==> forall i :: 0 <= i < |ns| ==> entries[i] == old(entries[i]).(runLength := ns[i])
  {
    hide ReadNums, ReadVarint, VarintReader.Left;
    var n := entries.Length;
    ns := [];
    ResumeNothing(n, r.Left());
    for i := 0 to n
      invariant r.Valid() && |ns| == i
      invariant ReadNums(n, old(r.Left())) == Resume(ns, ReadNums(n - i, r.Left()))
      invariant forall j :: 0 <= j < i ==> entries[j] == old(entries[j]).(runLength := ns[j])
      invariant forall j :: i <= j < n ==> entries[j] == old(entries[j])
    {
      ResumeStep(ns, n - i, r.Left());
      var v := r.Next();
      if v.Failure? {
        return Failure(v.error), ns;
      }
      ns := ns + [v.value];
      entries[i] := entries[i].(runLength := v.value);
    }
    NothingLeft(ns, r.Left());
    return Success(true), ns;
  }

  method ReadLengths(r: VarintReader, entries: array<PmEntry>) returns (out: Result<bool>, ghost ns: seq<nat>)
    requires r.Valid()
    modifies r, entries
    ensures r.Valid() && ColumnRead(entries.Length, old(r.Left()), r.Left(), ns, out)
    ensures out.Success? ==> |ns| == entries.Length
    ensures out.Success? ==> forall i :: 0 <= i < |ns| ==> entries[i] == old(entries[i]).(length := ns[i])
  {
    hide ReadNums, ReadVarint, VarintReader.Left;
    var n := entries.Length;
    ns := [];
    ResumeNothing(n, r.Left());
    for i := 0 to n
      invariant r.Valid() && |ns| == i
      invariant ReadNums(n, old(r.Left())) == Resume(ns, ReadNums(n - i, r.Left()))
      invariant forall j :: 0 <= j < i ==> entries[j] == old(entries[j]).(length := ns[j])
      invariant forall j :: i <= j < n ==> entries[j] == old(entries[j])
    {
      ResumeStep(ns, n - i, r.Left());
      var v := r.Next();
      if v.Failure? {
        return Failure(v.error), ns;
      }
      ns := ns + [v.value];
      entries[i] := entries[i].(length := v.value);
    }
    NothingLeft(ns, r.Left());
    return Success(true), ns;
  }

  method ReadOffsets(r: VarintReader, entries: array<PmEntry>, ghost lengths: seq<nat>)
    returns (out: Result<bool>, ghost ns: seq<nat>)
    requires r.Valid() && |lengths| == entries.Length
    requires forall i :: 0 <= i < |lengths| ==> entries[i].length == lengths[i]
    modifies r, entries
    ensures r.Valid() && ColumnRead(entries.Length, old(r.Left()), r.Left(), ns, out)
    ensures out.Success? ==> |ns| == entries.Length
    ensures out.Success? ==> forall i :: 0 <= i < |ns| ==>
                                           entries[i] == old(entries[i]).(offset := OffsetAt(ns, lengths, i))
  {
    hide ReadNums, ReadVarint, VarintReader.Left, OffsetAt;
    var n := entries.Length;
    ns := [];
    ResumeNothing(n, r.Left());
    for i := 0 to n
      invariant r.Valid() && |ns| == i
      invariant ReadNums(n, old(r.Left())) == Resume(ns, ReadNums(n - i, r.Left()))
      invariant forall j :: 0 <= j < i ==> entries[j] == old(entries[j]).(offset := OffsetAt(ns, lengths, j))
      invariant forall j :: i <= j < n ==> entries[j] == old(entries[j])
    {
      ResumeStep(ns, n - i, r.Left());
      var v := r.Next();
      if v.Failure? {
        return Failure(v.error), ns;
      }
      OffsetsOfLonger(ns, v.value, lengths);
      ns := ns + [v.value];
      if v.value == 0 && i > 0 {
        entries[i] := entries[i].(offset := entries[i - 1].offset + entries[i - 1].length);
      } else {
        entries[i] := entries[i].(offset := v.value as int - 1);
      }
    }
    NothingLeft(ns, r.Left());
    return Success(true), ns;
  }

  method DecodePmDirectory(bytes: Bytes) returns (out: Result<seq<PmEntry>>)
    ensures out == DecodeDirectory(bytes)
  {
    hide ReadNums, ReadVarint, VarintReader.Left, IdAt, OffsetAt;
    var r := new VarintReader(bytes);
    var count := r.Next();
    if count.Failure? {
      return Failure(count.error);
    }
    var n := count.value;
    if n > MAX_DIRECTORY_ENTRIES {
      return Failure("a directory says it has too many entries");
    }
    var entries := new PmEntry[n](_ => PmEntry(0, 0, 0, 0));
    var read, deltas := ReadDeltas(r, entries);
    if read.Failure? {
      return Failure(read.error);
    }
    ghost var runs, lengths, raws;
    read, runs := ReadRuns(r, entries);
    if read.Failure? {
      return Failure(read.error);
    }
    read, lengths := ReadLengths(r, entries);
    if read.Failure? {
      return Failure(read.error);
    }
    read, raws := ReadOffsets(r, entries, lengths);
    if read.Failure? {
      return Failure(read.error);
    }
    assert entries[..] == EntriesOf(deltas, runs, lengths, raws);
    return Success(entries[..]);
  }
}
