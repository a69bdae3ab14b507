/**
 * The first JPEG frame of a stream that comes in chunks (packages/camera-gateway/src/image.ts,
 * `firstJpegFrame`): however the stream is cut, and wherever a marker is cut in two.
 */
module Jpeg {
  import opened Wrappers

  type Byte = b: int | 0 <= b < 256

  const SOI: Byte := 0xd8
  const EOI: Byte := 0xd9

  datatype Outcome = Frame(bytes: seq<Byte>) | TooLarge | NotAnImage

  /** A marker: FF and its second byte. */
  predicate MarkerAt(s: seq<Byte>, second: Byte, i: int) {
    0 <= i && i + 1 < |s| && s[i] == 0xff && s[i + 1] == second
  }

  /** The first marker at or after a place. */
  ghost predicate IsFirst(s: seq<Byte>, second: Byte, from: nat, i: nat) {
    from <= i && MarkerAt(s, second, i) && forall j :: from <= j < i ==> !MarkerAt(s, second, j)
  }

  /** From the first start marker through the first end marker after it. */
  ghost predicate IsFrame(s: seq<Byte>, f: seq<Byte>) {
    exists i: nat, j: nat :: FrameAt(s, i, j) && f == s[i..j + 2]
  }

  ghost predicate FrameAt(s: seq<Byte>, i: nat, j: nat) {
    IsFirst(s, SOI, 0, i) && IsFirst(s, EOI, i + 2, j)
  }

  ghost predicate HasFrame(s: seq<Byte>) {
    exists i: nat, j: nat :: FrameAt(s, i, j)
  }

  function Concat(chunks: seq<seq<Byte>>): seq<Byte> {
    if chunks == [] then [] else Concat(chunks[..|chunks| - 1]) + chunks[|chunks| - 1]
  }

  lemma FirstIsOne(s: seq<Byte>, second: Byte, from: nat, i: nat, j: nat)
    requires IsFirst(s, second, from, i) && IsFirst(s, second, from, j)
    ensures i == j
  {
  }

  /** A stream has one first frame. */
  lemma FrameIsOne(s: seq<Byte>, f: seq<Byte>, g: seq<Byte>)
    requires IsFrame(s, f) && IsFrame(s, g)
    ensures f == g
  {
    var i: nat, j: nat :| FrameAt(s, i, j) && f == s[i..j + 2];
    var k: nat, l: nat :| FrameAt(s, k, l) && g == s[k..l + 2];
    FirstIsOne(s, SOI, 0, i, k);
    FirstIsOne(s, EOI, i + 2, j, l);
  }

  predicate IsPair(s: seq<Byte>, i: int, a: Byte, b: Byte) {
    0 <= i < |s| - 1 && s[i..i + 2] == [a, b]
  }

  lemma PairIsMarker(s: seq<Byte>, i: int)
    ensures IsPair(s, i, 0xff, 0xd8) <==> MarkerAt(s, SOI, i)
    ensures IsPair(s, i, 0xff, 0xd9) <==> MarkerAt(s, EOI, i)
  {
    if 0 <= i < |s| - 1 {
      assert s[i..i + 2] == [s[i], s[i + 1]];
    }
  }

  /** The bytes stand in the stream at a place, and no FF D8 before them. */
  ghost predicate ComesFirst(s: seq<Byte>, f: seq<Byte>, at: int) {
    0 <= at <= at + |f| <= |s| && s[at..at + |f|] == f && forall k :: 0 <= k < at ==> !IsPair(s, k, 0xff, 0xd8)
  }

  /** A frame byte by byte: FF D8 first, nowhere earlier in the stream; FF D9 last, and nowhere between. */
  lemma FrameBytes(s: seq<Byte>, f: seq<Byte>)
    requires IsFrame(s, f)
    ensures |f| >= 4 && IsPair(f, 0, 0xff, 0xd8) && IsPair(f, |f| - 2, 0xff, 0xd9)
    ensures forall k :: 2 <= k < |f| - 2 ==> !IsPair(f, k, 0xff, 0xd9)
    ensures exists at :: ComesFirst(s, f, at)
  {
    var i: nat, j: nat :| FrameAt(s, i, j) && f == s[i..j + 2];
    forall k | 2 <= k < |f| - 2 ensures !IsPair(f, k, 0xff, 0xd9) {
      assert !MarkerAt(s, EOI, i + k) && f[k] == s[i + k] && f[k + 1] == s[i + k + 1];
      assert f[k..k + 2] == [f[k], f[k + 1]];
    }
    forall k | 0 <= k < i ensures !IsPair(s, k, 0xff, 0xd8) { PairIsMarker(s, k); }
    assert f[0..2] == [f[0], f[1]] && f[|f| - 2..] == [f[|f| - 2], f[|f| - 1]];
    assert ComesFirst(s, f, i);
  }

  /** There is a frame exactly when an FF D9 comes after an FF D8 and its two bytes. */
  lemma HasFrameWhen(s: seq<Byte>)
    ensures HasFrame(s) <==> exists i, j :: i + 2 <= j && IsPair(s, i, 0xff, 0xd8) && IsPair(s, j, 0xff, 0xd9)
  {
    if i, j :| i + 2 <= j && IsPair(s, i, 0xff, 0xd8) && IsPair(s, j, 0xff, 0xd9) {
      PairIsMarker(s, i);
      PairIsMarker(s, j);
      var a := FirstUpTo(s, SOI, 0, i);
      var b := FirstUpTo(s, EOI, a + 2, j);
      assert FrameAt(s, a, b);
    }
    if i: nat, j: nat :| FrameAt(s, i, j) {
      PairIsMarker(s, i);
      PairIsMarker(s, j);
    }
  }

  lemma {:induction false} FirstUpTo(s: seq<Byte>, second: Byte, from: nat, i: nat) returns (first: nat)
    requires from <= i && MarkerAt(s, second, i)
    ensures first <= i && IsFirst(s, second, from, first)
    decreases i - from
  {
    if MarkerAt(s, second, from) {
      first := from;
    } else {
      first := FirstUpTo(s, second, from + 1, i);
    }
  }

  lemma FirstStays(s: seq<Byte>, t: seq<Byte>, second: Byte, from: nat, i: nat)
    requires IsFirst(s, second, from, i)
    ensures IsFirst(s + t, second, from, i)
  {
    forall j | from <= j < i ensures !MarkerAt(s + t, second, j) {
      assert !MarkerAt(s, second, j);
    }
  }

  /** What has come decides the frame: what comes later does not change it. */
  lemma FrameStays(s: seq<Byte>, t: seq<Byte>, f: seq<Byte>)
    requires IsFrame(s, f)
    ensures IsFrame(s + t, f)
  {
    var i: nat, j: nat :| FrameAt(s, i, j) && f == s[i..j + 2];
    FirstStays(s, t, SOI, 0, i);
    FirstStays(s, t, EOI, i + 2, j);
    assert (s + t)[i..j + 2] == s[i..j + 2];
    assert FrameAt(s + t, i, j);
  }

  lemma {:induction false} PrefixOfConcat(chunks: seq<seq<Byte>>, k: nat)
    requires k <= |chunks|
    ensures Concat(chunks[..k]) <= Concat(chunks)
  {
    if k < |chunks| {
      assert chunks[..|chunks| - 1][..k] == chunks[..k];
      PrefixOfConcat(chunks[..|chunks| - 1], k);
    } else {
      assert chunks[..k] == chunks;
    }
  }

  /** `indexOfMarker`. */
  method IndexOfMarker(buf: seq<Byte>, second: Byte, from: nat) returns (i: Option<nat>)
    ensures i.Some? ==> IsFirst(buf, second, from, i.value)
    ensures i.None? ==> forall j :: from <= j ==> !MarkerAt(buf, second, j)
  {
    var k := from;
    while k + 1 < |buf|
      invariant from <= k && forall j :: from <= j < k ==> !MarkerAt(buf, second, j)
    {
      if buf[k] == 0xff && buf[k + 1] == second {
        return Some(k);
      }
      k := k + 1;
    }
    return None;
  }

  /** `concat`: the chunks as one. */
  method Join(chunks: seq<seq<Byte>>) returns (out: seq<Byte>)
    ensures out == Concat(chunks)
  {
    if |chunks| == 1 {
      assert chunks[..0] == [];
      return chunks[0];
    }
    out := [];
    for i := 0 to |chunks|
      invariant out == Concat(chunks[..i])
    {
      assert chunks[..i + 1][..i] == chunks[..i];
      out := out + chunks[i];
    }
    assert chunks[..|chunks|] == chunks;
  }

  /** What is known of the bytes so far: no start marker, or the first one and no end marker after it. */
  ghost predicate Scanned(s: seq<Byte>, start: Option<nat>, scanFrom: nat) {
    match start
    case None => (forall j :: 0 <= j ==> !MarkerAt(s, SOI, j)) && (scanFrom == 0 || scanFrom < |s|)
    case Some(i) => IsFirst(s, SOI, 0, i) && (forall j :: i + 2 <= j ==> !MarkerAt(s, EOI, j)) && i + 2 <= scanFrom && (scanFrom == i + 2 || scanFrom < |s|)
  }

  /** There is no marker before the place to scan from. */
  ghost predicate Resumable(s: seq<Byte>, start: Option<nat>, scanFrom: nat) {
    match start
    case None => forall j :: 0 <= j < scanFrom ==> !MarkerAt(s, SOI, j)
    case Some(i) => IsFirst(s, SOI, 0, i) && i + 2 <= scanFrom && forall j :: i + 2 <= j < scanFrom ==> !MarkerAt(s, EOI, j)
  }

  /** Nothing is missed by going on from where the last scan ended: a marker cut in two starts at the last byte. */
  lemma ScanGoesOn(s: seq<Byte>, t: seq<Byte>, start: Option<nat>, scanFrom: nat)
    requires Scanned(s, start, scanFrom)
    ensures Resumable(s + t, start, scanFrom)
  {
    match start
    case None =>
      forall j | 0 <= j < scanFrom ensures !MarkerAt(s + t, SOI, j) { assert !MarkerAt(s, SOI, j); }
    case Some(i) =>
      FirstStays(s, t, SOI, 0, i);
      forall j | i + 2 <= j < scanFrom ensures !MarkerAt(s + t, EOI, j) { assert !MarkerAt(s, EOI, j); }
  }

  lemma ScannedHasNone(s: seq<Byte>, start: Option<nat>, scanFrom: nat)
    requires Scanned(s, start, scanFrom)
    ensures !HasFrame(s)
  {
    forall i: nat, j: nat
      ensures !FrameAt(s, i, j)
    {
      if start.Some? && IsFirst(s, SOI, 0, i) { FirstIsOne(s, SOI, 0, i, start.value); }
    }
  }

  /** Go on scanning what has come: the frame, or what is known without one. */
  method Rescan(buf: seq<Byte>, start0: Option<nat>, scanFrom0: nat) returns (frame: Option<seq<Byte>>, start: Option<nat>, scanFrom: nat)
    requires Resumable(buf, start0, scanFrom0)
    ensures frame.Some? ==> IsFrame(buf, frame.value)
    ensures frame.None? ==> Scanned(buf, start, scanFrom)
  {
    hide MarkerAt, IsFirst;
    start, scanFrom := start0, scanFrom0;
    if start.None? {
      var soi := IndexOfMarker(buf, SOI, scanFrom);
      if soi.None? {
        NoneFrom(buf, SOI, 0, scanFrom);
        return None, None, if |buf| >= 1 then |buf| - 1 else 0;
      }
      FirstFrom(buf, SOI, 0, scanFrom, soi.value);
      start := soi;
      scanFrom := soi.value + 2;
    }
    var eoi := IndexOfMarker(buf, EOI, scanFrom);
    if eoi.Some? {
      FirstFrom(buf, EOI, start.value + 2, scanFrom, eoi.value);
      FoundFrame(buf, start.value, eoi.value);
      return Some(buf[start.value..eoi.value + 2]), start, scanFrom;
    }
    NoneFrom(buf, EOI, start.value + 2, scanFrom);
    return None, start, if start.value + 2 > |buf| - 1 then start.value + 2 else |buf| - 1;
  }

  /**
   * The first frame, as soon as the chunks so far hold it; too large when they pass the limit before
   * they do; and not an image exactly when the whole stream is within the limit and holds none.
   */
  method FirstJpegFrame(body: seq<seq<Byte>>, maxBytes: int) returns (r: Outcome)
    ensures r.Frame? ==> IsFrame(Concat(body), r.bytes)
                         && exists k :: 0 <= k <= |body| && |Concat(body[..k])| <= maxBytes && IsFrame(Concat(body[..k]), r.bytes)
    ensures r.NotAnImage? ==> !HasFrame(Concat(body)) && (body != [] ==> |Concat(body)| <= maxBytes)
    ensures r.TooLarge? ==> |Concat(body)| > maxBytes && forall k :: 0 <= k <= |body| && |Concat(body[..k])| <= maxBytes ==> !HasFrame(Concat(body[..k]))
  {
    var chunks: seq<seq<Byte>>, total: nat, start: Option<nat>, scanFrom: nat := [], 0, None, 0;
    hide Scanned, Resumable, IsFrame, Concat, HasFrame;
    NothingYet();
    assert body[..0] == [];
    for k := 0 to |body|
      invariant Concat(chunks) == Concat(body[..k]) && total == |Concat(body[..k])|
      invariant k > 0 ==> total <= maxBytes
      invariant Scanned(Concat(body[..k]), start, scanFrom)
      invariant forall h :: 0 <= h <= k ==> !HasFrame(Concat(body[..h]))
    {
      ghost var before := Concat(body[..k]);
      OneChunkMore(body, k);
      OneMore(chunks, body[k]);
      chunks := chunks + [body[k]];
      total := total + |body[k]|;
      if total > maxBytes {
        LaterIsLonger(body, k + 1, maxBytes);
        assert body[..|body|] == body;
        return TooLarge;
      }
      var buf := Join(chunks);
      chunks := [buf];
      JustOne(buf);
      ScanGoesOn(before, body[k], start, scanFrom);
      var frame;
      frame, start, scanFrom := Rescan(buf, start, scanFrom);
      if frame.Some? {
        FrameOfWhole(body, k + 1, frame.value);
        return Frame(frame.value);
      }
      ScannedHasNone(buf, start, scanFrom);
    }
    assert body[..|body|] == body;
    return NotAnImage;
  }

  lemma FrameOfWhole(body: seq<seq<Byte>>, k: nat, f: seq<Byte>)
    requires k <= |body| && IsFrame(Concat(body[..k]), f)
    ensures IsFrame(Concat(body), f)
  {
    hide IsFrame, Concat;
    PrefixOfConcat(body, k);
    var now := Concat(body[..k]);
    FrameStays(now, Concat(body)[|now|..], f);
    assert now + Concat(body)[|now|..] == Concat(body);
  }

  lemma NothingYet()
    ensures Concat([]) == [] && Scanned([], None, 0) && !HasFrame([])
  {
  }

  lemma OneMore(chunks: seq<seq<Byte>>, chunk: seq<Byte>)
    ensures Concat(chunks + [chunk]) == Concat(chunks) + chunk
  {
    assert (chunks + [chunk])[..|chunks|] == chunks;
  }

  lemma OneChunkMore(body: seq<seq<Byte>>, k: nat)
    requires k < |body|
    ensures Concat(body[..k + 1]) == Concat(body[..k]) + body[k]
  {
    assert body[..k + 1][..k] == body[..k];
  }

  lemma JustOne(buf: seq<Byte>)
    ensures Concat([buf]) == buf
  {
    assert [buf][..0] == [];
    assert Concat([buf]) == [] + buf;
  }

  lemma LaterIsLonger(body: seq<seq<Byte>>, k: nat, maxBytes: int)
    requires k <= |body| && |Concat(body[..k])| > maxBytes
    ensures forall h :: k <= h <= |body| ==> |Concat(body[..h])| > maxBytes
  {
    forall h | k <= h <= |body| ensures |Concat(body[..h])| > maxBytes {
      PrefixOfConcat(body[..h], k);
      assert body[..h][..k] == body[..k];
    }
  }

  lemma FirstFrom(s: seq<Byte>, second: Byte, from: nat, later: nat, i: nat)
    requires from <= later && IsFirst(s, second, later, i) && forall j :: from <= j < later ==> !MarkerAt(s, second, j)
    ensures IsFirst(s, second, from, i) && i + 2 <= |s|
  {
  }

  lemma NoneFrom(s: seq<Byte>, second: Byte, from: nat, later: nat)
    requires (forall j :: from <= j < later ==> !MarkerAt(s, second, j)) && forall j :: later <= j ==> !MarkerAt(s, second, j)
    ensures forall j :: from <= j ==> !MarkerAt(s, second, j)
  {
  }

  lemma FoundFrame(s: seq<Byte>, i: nat, j: nat)
    requires IsFirst(s, SOI, 0, i) && IsFirst(s, EOI, i + 2, j)
    ensures j + 2 <= |s| && IsFrame(s, s[i..j + 2]) && HasFrame(s)
  {
    assert FrameAt(s, i, j);
  }
}
