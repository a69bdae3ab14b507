/**
 * Variable-length numbers: seven bits a byte, lowest first, the top bit set on all but the last
 * (packages/offline/src/pmtiles.ts, `VarintReader` and `VarintWriter`).
 */
module Varints {
  import opened Wrappers
  import opened Numbers

  type byte = b: int | 0 <= b < 256
  type Bytes = seq<byte>

  /** `Number.MAX_SAFE_INTEGER`. */
  const MAX_SAFE: nat := 0x1F_FFFF_FFFF_FFFF

  /** The bytes a directory number may take before the reader gives up. */
  const MAX_VARINT_BYTES: nat := 10

  function EncodeVarint(n: nat): (bs: Bytes)
    ensures |bs| > 0
  {
    if n < 128 then [n] else [n % 128 + 128] + EncodeVarint(n / 128)
  }

  /** One number from the front of `bs` and the bytes after it. */
  function ReadVarint(bs: Bytes): (r: Result<(nat, Bytes)>)
    ensures r.Success? ==> r.value.0 <= MAX_SAFE && |r.value.1| < |bs|
  {
    ReadVarintFrom(bs, 0, 1, 0)
  }

  function ReadVarintFrom(bs: Bytes, i: nat, mul: nat, acc: nat): (r: Result<(nat, Bytes)>)
    ensures r.Success? ==> r.value.0 <= MAX_SAFE && |r.value.1| < |bs|
    decreases |bs|
  {
    if i >= MAX_VARINT_BYTES then Failure("a directory number is too long")
    else if bs == [] then Failure("a directory ends inside a number")
    else
      var sum := acc + bs[0] % 128 * mul;
      if bs[0] >= 128 then ReadVarintFrom(bs[1..], i + 1, mul * 128, sum)
      else if sum > MAX_SAFE then Failure("a directory number is too large")
      else Success((sum, bs[1..]))
  }

  function Pow128(i: nat): (p: nat)
    ensures p > 0
  {
    if i == 0 then 1 else 128 * Pow128(i - 1)
  }

  lemma {:induction false} TenBytesAreTooMany(i: nat)
    requires i >= 8
    ensures Pow128(i) > MAX_SAFE
  {
    if i == 8 {
      assert Pow128(4) == 0x1000_0000;
    } else {
      TenBytesAreTooMany(i - 1);
    }
  }

  lemma MulSplit(q: nat, r: nat, m: nat)
    requires r < 128
    ensures (128 * q + r) * m == r * m + q * (128 * m)
    ensures r * m <= 127 * m
  {
    assert (127 - r) * m >= 0;
  }

  /** The lowest seven bits of `n`, and the rest of it read with the next multiplier. */
  lemma LowDigitFirst(n: nat, m: nat, acc: nat)
    requires acc < m
    ensures acc + n * m == (acc + n % 128 * m) + n / 128 * (128 * m)
    ensures acc + n % 128 * m < 128 * m
  {
    MulSplit(n / 128, n % 128, m);
  }

  /** One step of the reader over the first byte of a longer number. */
  lemma ReadStep(n: nat, rest: Bytes, i: nat, m: nat, acc: nat)
    requires i < MAX_VARINT_BYTES && n >= 128
    ensures ReadVarintFrom(EncodeVarint(n) + rest, i, m, acc)
         == ReadVarintFrom(EncodeVarint(n / 128) + rest, i + 1, m * 128, acc + n % 128 * m)
  {
    var bs := EncodeVarint(n) + rest;
    assert bs[0] == n % 128 + 128;
    assert bs[1..] == EncodeVarint(n / 128) + rest;
  }

  lemma ReadLast(n: nat, rest: Bytes, i: nat, m: nat, acc: nat)
    requires i < MAX_VARINT_BYTES && n < 128
    ensures ReadVarintFrom(EncodeVarint(n) + rest, i, m, acc)
         == if acc + n * m <= MAX_SAFE then Success((acc + n * m, rest)) else Failure("a directory number is too large")
  {
    assert (EncodeVarint(n) + rest)[1..] == rest;
  }

  lemma Pow128Step(i: nat)
    ensures Pow128(i + 1) == Pow128(i) * 128 == 128 * Pow128(i)
  {
  }

  lemma {:induction false} ReadBackFrom(n: nat, rest: Bytes, i: nat, acc: nat, total: nat)
    requires i <= MAX_VARINT_BYTES && acc < Pow128(i) && (i > 0 ==> n > 0)
    requires total == acc + n * Pow128(i)
    ensures var r := ReadVarintFrom(EncodeVarint(n) + rest, i, Pow128(i), acc);
            if total <= MAX_SAFE then r == Success((total, rest)) else r.Failure?
    decreases n
  {
    hide EncodeVarint, Pow128;
    var m := Pow128(i);
    if i == MAX_VARINT_BYTES {
      TenBytesAreTooMany(i);
      MulAtLeast(n, m);
    } else if n < 128 {
      hide ReadVarintFrom;
      ReadLast(n, rest, i, m, acc);
    } else {
      hide ReadVarintFrom;
      ReadStep(n, rest, i, m, acc);
      LowDigitFirst(n, m, acc);
      Pow128Step(i);
      ReadBackFrom(n / 128, rest, i + 1, acc + n % 128 * m, total);
    }
  }

  /**
   * Whatever bytes follow, a written number reads back as itself when it is a safe integer, and is
   * refused when it is not.
   */
  lemma VarintRoundTrip(n: nat, rest: Bytes)
    ensures var r := ReadVarint(EncodeVarint(n) + rest);
            if n <= MAX_SAFE then r == Success((n, rest)) else r.Failure?
  {
    assert Pow128(0) == 1;
    ReadBackFrom(n, rest, 0, 0, n);
  }

  /** A safe integer takes at most eight bytes. */
  lemma VarintSize(n: nat)
    requires n <= MAX_SAFE
    ensures |EncodeVarint(n)| <= 8
  {
    VarintSizeFrom(n, 7);
    assert Pow128(4) == 0x1000_0000;
    assert Pow128(8) == 0x1000_0000 * 0x1000_0000;
  }

  lemma {:induction false} VarintSizeFrom(n: nat, i: nat)
    requires n < Pow128(i + 1)
    ensures |EncodeVarint(n)| <= i + 1
  {
    if n >= 128 && i > 0 {
      VarintSizeFrom(n / 128, i - 1);
    }
  }

  /** The number that groups of seven bits make up, the lowest first. */
  function Digits(bs: Bytes): nat {
    if bs == [] then 0 else bs[0] % 128 + 128 * Digits(bs[1..])
  }

  /** The number in the first bytes of `bs` ends at place `k`: the only one of them below 128. */
  ghost predicate EndsAt(bs: Bytes, k: nat) {
    k < |bs| && bs[k] < 128 && forall j :: 0 <= j < k ==> bs[j] >= 128
  }

  /** A number is written in groups of seven bits, the lowest first and the highest not empty, each but the last marked. */
  lemma {:induction false} VarintIs(n: nat)
    ensures var bs := EncodeVarint(n);
            EndsAt(bs, |bs| - 1) && Digits(bs) == n && (|bs| > 1 ==> bs[|bs| - 1] > 0)
  {
    if n >= 128 {
      VarintIs(n / 128);
      assert EncodeVarint(n)[1..] == EncodeVarint(n / 128);
    }
  }

  lemma {:induction false} ReadsTheDigitsFrom(bs: Bytes, i: nat, mul: nat, acc: nat, k: nat)
    requires EndsAt(bs, k)
    ensures var n, r := acc + Digits(bs[..k + 1]) * mul, ReadVarintFrom(bs, i, mul, acc);
            if i + k >= 10 || n > MAX_SAFE then r.Failure? else r == Success((n, bs[k + 1..]))
    decreases k
  {
    if i < 10 {
      var d := bs[0] % 128;
      assert bs[..k + 1][1..] == bs[1..][..k] && bs[..k + 1][0] == bs[0];
      if k > 0 {
        ReadsTheDigitsFrom(bs[1..], i + 1, mul * 128, acc + d * mul, k - 1);
        assert bs[1..][k..] == bs[k + 1..];
        OneMoreDigit(d, Digits(bs[1..][..k]), mul);
      } else {
        assert bs[1..][..0] == [];
      }
    }
  }

  lemma OneMoreDigit(d: nat, rest: nat, mul: nat)
    ensures d * mul + rest * (mul * 128) == (d + 128 * rest) * mul
  {
  }

  lemma {:induction false} EndlessIsRefused(bs: Bytes, i: nat, mul: nat, acc: nat)
    requires forall j :: 0 <= j < |bs| ==> bs[j] >= 128
    ensures ReadVarintFrom(bs, i, mul, acc).Failure?
    decreases |bs|
  {
    if i < MAX_VARINT_BYTES && bs != [] {
      EndlessIsRefused(bs[1..], i + 1, mul * 128, acc + bs[0] % 128 * mul);
    }
  }

  /**
   * Of any bytes the number read is what the groups of seven bits up to the first byte below 128 make
   * up; there must be one among the first ten, and the number must be a safe integer.
   */
  lemma ReadsTheDigits(bs: Bytes)
    ensures forall k :: EndsAt(bs, k) ==>
              var n := Digits(bs[..k + 1]);
              if k >= 10 || n > MAX_SAFE then ReadVarint(bs).Failure? else ReadVarint(bs) == Success((n, bs[k + 1..]))
    ensures ReadVarint(bs).Success? ==> exists k :: EndsAt(bs, k)
  {
    forall k | EndsAt(bs, k)
      ensures var n := Digits(bs[..k + 1]);
              if k >= 10 || n > MAX_SAFE then ReadVarint(bs).Failure? else ReadVarint(bs) == Success((n, bs[k + 1..]))
    {
      ReadsTheDigitsFrom(bs, 0, 1, 0, k);
    }
    if forall j :: 0 <= j < |bs| ==> bs[j] >= 128 {
      EndlessIsRefused(bs, 0, 1, 0);
    } else {
      var k := FirstBelow(bs);
    }
  }

  lemma {:induction false} FirstBelow(bs: Bytes) returns (k: nat)
    requires exists j :: 0 <= j < |bs| && bs[j] < 128
    ensures EndsAt(bs, k)
  {
    k := 0;
    if bs[0] >= 128 {
      var j :| 0 <= j < |bs| && bs[j] < 128;
      assert bs[1..][j - 1] < 128;
      k := FirstBelow(bs[1..]);
      k := k + 1;
    }
  }

  // ---- sequences of numbers --------------------------------------------------------------------

  function EncodeNums(ns: seq<nat>): Bytes {
    if ns == [] then [] else EncodeVarint(ns[0]) + EncodeNums(ns[1..])
  }

  function ReadNums(n: nat, bs: Bytes): (r: Result<(seq<nat>, Bytes)>)
    ensures r.Success? ==> |r.value.0| == n
  {
    if n == 0 then Success(([], bs)) else
      var (first, more) :- ReadVarint(bs);
      var (others, rest) :- ReadNums(n - 1, more);
      Success(([first] + others, rest))
  }

  predicate AllSafe(ns: seq<nat>) {
    forall i :: 0 <= i < |ns| ==> ns[i] <= MAX_SAFE
  }

  lemma {:induction false} NumsRoundTrip(ns: seq<nat>, rest: Bytes)
    ensures var r := ReadNums(|ns|, EncodeNums(ns) + rest);
            if AllSafe(ns) then r == Success((ns, rest)) else r.Failure?
  {
    if ns == [] {
      assert EncodeNums(ns) + rest == rest;
    } else {
      var tail := EncodeNums(ns[1..]) + rest;
      assert EncodeNums(ns) + rest == EncodeVarint(ns[0]) + tail;
      VarintRoundTrip(ns[0], tail);
      NumsRoundTrip(ns[1..], rest);
      assert ns == [ns[0]] + ns[1..];
      assert AllSafe(ns) <==> ns[0] <= MAX_SAFE && AllSafe(ns[1..]) by {
        assert forall i :: 0 <= i < |ns| - 1 ==> ns[1..][i] == ns[i + 1];
      }
    }
  }

  lemma {:induction false} EncodeNumsAppend(a: seq<nat>, b: seq<nat>)
    ensures EncodeNums(a + b) == EncodeNums(a) + EncodeNums(b)
  {
    if a == [] {
      assert a + b == b;
    } else {
      EncodeNumsAppend(a[1..], b);
      assert (a + b)[1..] == a[1..] + b;
    }
  }

  lemma EncodeNumsOne(n: nat)
    ensures EncodeNums([n]) == EncodeVarint(n)
  {
  }

  lemma EncodeNumsPush(a: seq<nat>, n: nat)
    ensures EncodeNums(a + [n]) == EncodeNums(a) + EncodeVarint(n)
  {
    EncodeNumsAppend(a, [n]);
    assert EncodeNums([n]) == EncodeVarint(n);
  }

  lemma {:induction false} NumsSize(ns: seq<nat>)
    requires AllSafe(ns)
    ensures |ns| <= |EncodeNums(ns)| <= 8 * |ns|
  {
    if ns != [] {
      VarintSize(ns[0]);
      NumsSize(ns[1..]);
    }
  }

  // ---- the reader and the writer -----------------------------------------------------------------

  class VarintReader {
    const buf: Bytes
    var pos: nat

    predicate Valid()
      reads this
    {
      pos <= |buf|
    }

    function Left(): Bytes
      requires Valid()
      reads this
    {
      buf[pos..]
    }

    constructor (buf: Bytes)
      ensures Valid() && this.buf == buf && Left() == buf
    {
      this.buf := buf;
      pos := 0;
    }

    method Next() returns (r: Result<nat>)
      requires Valid()
      modifies this
      ensures Valid()
      ensures match ReadVarint(old(Left()))
              case Success((n, rest)) => r == Success(n) && Left() == rest
              case Failure(e) => r == Failure(e)
    {
      var result: nat, mul: nat := 0, 1;
      for i := 0 to MAX_VARINT_BYTES
        invariant Valid()
        invariant ReadVarint(old(Left())) == ReadVarintFrom(Left(), i, mul, result)
      {
        if pos >= |buf| {
          return Failure("a directory ends inside a number");
        }
        var b := buf[pos];
        assert Left()[0] == b && Left()[1..] == buf[pos + 1..];
        pos := pos + 1;
        result := result + b % 128 * mul;
        if b < 128 {
          if result > MAX_SAFE {
            return Failure("a directory number is too large");
          }
          return Success(result);
        }
        mul := mul * 128;
      }
      return Failure("a directory number is too long");
    }
  }

  function Concat(parts: seq<Bytes>): Bytes {
    if parts == [] then [] else Concat(parts[..|parts| - 1]) + parts[|parts| - 1]
  }

  /** `out.set(p, at)` on a typed array. */
  method SetBytes(out: array<byte>, p: Bytes, at: nat)
    requires at + |p| <= out.Length
    modifies out
    ensures out[..] == old(out[..at]) + p + old(out[at + |p|..])
  {
    for j := 0 to |p|
      invariant out[..] == old(out[..at]) + p[..j] + old(out[at + j..])
    {
      out[at + j] := p[j];
      assert p[..j + 1] == p[..j] + [p[j]];
    }
  }

  class VarintWriter {
    var chunks: Bytes
    var parts: seq<Bytes>

    function Contents(): Bytes
      reads this
    {
      Concat(parts) + chunks
    }

    constructor ()
      ensures Contents() == []
    {
      chunks, parts := [], [];
    }

    method Push(n: nat)
      modifies this
      ensures Contents() == old(Contents()) + EncodeVarint(n)
    {
      var v := n;
      while v >= 0x80
        invariant parts == old(parts)
        invariant Contents() + EncodeVarint(v) == old(Contents()) + EncodeVarint(n)
      {
        ghost var was := chunks;
        chunks := chunks + [v % 128 + 0x80];
        assert Concat(parts) + chunks + EncodeVarint(v / 128) == Concat(parts) + was + EncodeVarint(v);
        v := v / 128;
      }
      chunks := chunks + [v];
      if |chunks| > 65_536 {
        Flush();
      }
    }

    method Flush()
      modifies this
      ensures Contents() == old(Contents()) && chunks == []
    {
      parts := parts + [chunks];
      assert parts[..|parts| - 1] == old(parts);
      chunks := [];
    }

    /** Everything pushed, copied part by part into one buffer. */
    method ToBytes() returns (bs: Bytes)
      modifies this
      ensures bs == Contents() == old(Contents())
    {
      Flush();
      var ps, total := parts, 0;
      for i := 0 to |ps|
        invariant total == |Concat(ps[..i])|
      {
        total := total + |ps[i]|;
        assert ps[..i + 1][..i] == ps[..i];
      }
      assert ps[..|ps|] == ps;
      var out := new byte[total](_ => 0);
      var at := 0;
      for i := 0 to |ps|
        invariant parts == ps && chunks == []
        invariant at == |Concat(ps[..i])| <= total
        invariant out[..at] == Concat(ps[..i])
      {
        assert ps[..i + 1][..i] == ps[..i];
        ConcatGrows(ps, i + 1);
        SetBytes(out, ps[i], at);
        at := at + |ps[i]|;
      }
      return out[..];
    }
  }

  lemma {:induction false} ConcatGrows(parts: seq<Bytes>, i: nat)
    requires i <= |parts|
    ensures |Concat(parts[..i])| <= |Concat(parts)|
    decreases |parts| - i
  {
    if i == |parts| {
      assert parts[..i] == parts;
    } else {
      ConcatGrows(parts, i + 1);
      assert parts[..i + 1][..i] == parts[..i];
    }
  }
}
