/** Fixed-width integers as bytes, in both byte orders, and lists of such fields. */
module Bytes {
  import opened Words
  import RowMajor

  type Bytes = seq<u8>

  ghost function Range(k: nat): (n: nat)
    ensures n > 0
  {
    if k == 0 then 1 else 0x100 * Range(k - 1)
  }

  /** `n` in `k` bytes, least significant first. */
  function LittleEndian(n: nat, k: nat): (b: Bytes)
    ensures |b| == k
  {
    if k == 0 then [] else [n % 0x100] + LittleEndian(n / 0x100, k - 1)
  }

  function FromLittle(b: Bytes): nat {
    if b == [] then 0 else b[0] + 0x100 * FromLittle(b[1..])
  }

  lemma {:induction false} LittleRoundTrip(n: nat, k: nat)
    requires n < Range(k)
    ensures FromLittle(LittleEndian(n, k)) == n
    decreases k
  {
    if k > 0 {
      var b := LittleEndian(n, k);
      assert b[1..] == LittleEndian(n / 0x100, k - 1);
      LittleRoundTrip(n / 0x100, k - 1);
    }
  }

  /** `n` in `k` bytes, most significant first (network order). */
  function BigEndian(n: nat, k: nat): (b: Bytes)
    ensures |b| == k
  {
    if k == 0 then [] else BigEndian(n / 0x100, k - 1) + [n % 0x100]
  }

  function FromBig(b: Bytes): nat {
    if b == [] then 0 else 0x100 * FromBig(b[..|b| - 1]) + b[|b| - 1]
  }

  lemma {:induction false} BigRoundTrip(n: nat, k: nat)
    requires n < Range(k)
    ensures FromBig(BigEndian(n, k)) == n
    decreases k
  {
    if k > 0 {
      var b := BigEndian(n, k);
      assert b[..k - 1] == BigEndian(n / 0x100, k - 1);
      BigRoundTrip(n / 0x100, k - 1);
    }
  }

  /** Byte `i` of a number holds its bits from 8 * i on: from the front, or from the back in network
      order. */
  lemma {:induction false} ByteOfNumber(n: nat, k: nat, i: nat)
    requires i < k
    ensures LittleEndian(n, k)[i] == n / Range(i) % 0x100
    ensures BigEndian(n, k)[k - 1 - i] == n / Range(i) % 0x100
    decreases k
  {
    NextByte(n, k, i);
    if i == 0 {
      assert n / 1 == n;
    } else {
      ByteOfNumber(n / 0x100, k - 1, i - 1);
      DivTwice(n, Range(i - 1));
    }
  }

  lemma NextByte(n: nat, k: nat, i: nat)
    requires i < k
    ensures i == 0 ==> LittleEndian(n, k)[i] == BigEndian(n, k)[k - 1] == n % 0x100
    ensures i > 0 ==> LittleEndian(n, k)[i] == LittleEndian(n / 0x100, k - 1)[i - 1]
    ensures i > 0 ==> BigEndian(n, k)[k - 1 - i] == BigEndian(n / 0x100, k - 1)[k - 1 - i]
  {
  }

  lemma FourBytes(n: u32)
    ensures BigEndian(n, 4) == [n / 0x100_0000, n / 0x1_0000 % 0x100, n / 0x100 % 0x100, n % 0x100]
  {
    var b := BigEndian(n, 4);
    RangeSteps();
    ByteOfNumber(n, 4, 0);
    ByteOfNumber(n, 4, 1);
    ByteOfNumber(n, 4, 2);
    ByteOfNumber(n, 4, 3);
    assert b[0] == n / 0x100_0000 && b[1] == n / 0x1_0000 % 0x100 && b[2] == n / 0x100 % 0x100 && b[3] == n % 0x100;
  }

  lemma RangeSteps()
    ensures Range(0) == 1 && Range(1) == 0x100 && Range(2) == 0x1_0000 && Range(3) == 0x100_0000
  {
    assert Range(1) == 0x100;
    assert Range(2) == 0x1_0000;
  }

  lemma DivTwice(n: nat, m: nat)
    requires m > 0
    ensures n / 0x100 / m == n / (0x100 * m)
  {
    var a, r := n / 0x100, n % 0x100;
    var q, t := a / m, a % m;
    assert n == 0x100 * (q * m + t) + r;
    assert n == q * (0x100 * m) + (0x100 * t + r);
    RowMajor.QuotientUnique(n / (0x100 * m), n % (0x100 * m), q, 0x100 * t + r, 0x100 * m);
  }

  lemma RangeValues()
    ensures Range(2) == 0x1_0000 && Range(4) == 0x1_0000_0000 && Range(8) == 0x1_0000_0000_0000_0000
  {
    assert Range(1) == 0x100;
    assert Range(3) == 0x100_0000;
    assert Range(5) == 0x100_0000_0000 && Range(6) == 0x1_0000_0000_0000;
  }

  // ----- Records of little-endian fields ---------------------------------------------------

  function TotalSize(sizes: seq<nat>): nat {
    if sizes == [] then 0 else sizes[0] + TotalSize(sizes[1..])
  }

  function EncodeFields(vals: seq<nat>, sizes: seq<nat>): (b: Bytes)
    requires |vals| == |sizes|
    ensures |b| == TotalSize(sizes)
  {
    if sizes == [] then [] else LittleEndian(vals[0], sizes[0]) + EncodeFields(vals[1..], sizes[1..])
  }

  function DecodeFields(b: Bytes, sizes: seq<nat>): (vals: seq<nat>)
    requires |b| >= TotalSize(sizes)
    ensures |vals| == |sizes|
  {
    if sizes == [] then [] else [FromLittle(b[..sizes[0]])] + DecodeFields(b[sizes[0]..], sizes[1..])
  }

  lemma {:induction false} FieldsRoundTrip(vals: seq<nat>, sizes: seq<nat>, rest: Bytes)
    requires |vals| == |sizes| && forall i :: 0 <= i < |vals| ==> vals[i] < Range(sizes[i])
    ensures DecodeFields(EncodeFields(vals, sizes) + rest, sizes) == vals
    decreases |sizes|
  {
    if sizes != [] {
      var head, tail := LittleEndian(vals[0], sizes[0]), EncodeFields(vals[1..], sizes[1..]);
      var b := head + tail + rest;
      assert b[..sizes[0]] == head && b[sizes[0]..] == tail + rest;
      LittleRoundTrip(vals[0], sizes[0]);
      FieldsRoundTrip(vals[1..], sizes[1..], rest);
    }
  }

  // ----- Arrays of 32-bit samples ----------------------------------------------------------

  function ByteOf(v: u32, i: nat): u8
    requires i < 4
  {
    if i == 0 then v % 0x100 else if i == 1 then v / 0x100 % 0x100 else if i == 2 then v / 0x100 / 0x100 % 0x100
    else v / 0x100 / 0x100 / 0x100
  }

  /** Samples of four bytes each, least significant first. */
  function SampleBytes(s: seq<u32>): (b: Bytes)
    ensures |b| == 4 * |s|
    ensures forall k :: 0 <= k < |b| ==> b[k] == SampleByte(s, k)
  {
    seq(4 * |s|, k requires 0 <= k < 4 * |s| => SampleByte(s, k))
  }

  function SampleByte(s: seq<u32>, k: nat): u8
    requires k < 4 * |s|
  {
    RowMajor.RowColAreDivMod(k, 4);
    ByteOf(s[RowMajor.RowOf(k, 4)], RowMajor.ColOf(k, 4))
  }

  lemma SampleByteAt(s: seq<u32>, i: nat, j: nat)
    requires i < |s| && j < 4
    ensures SampleByte(s, 4 * i + j) == ByteOf(s[i], j)
  {
    RowMajor.RowColAreDivMod(4 * i + j, 4);
  }

  function SampleFrom(b0: u8, b1: u8, b2: u8, b3: u8): u32 {
    b0 + 0x100 * b1 + 0x1_0000 * b2 + 0x100_0000 * b3
  }

  function ParseSamples(b: Bytes): (s: seq<u32>)
    ensures |s| == |b| / 4
    ensures forall k :: 0 <= k < |s| ==> s[k] == SampleFrom(b[4 * k], b[4 * k + 1], b[4 * k + 2], b[4 * k + 3])
  {
    seq(|b| / 4, k requires 0 <= k < |b| / 4 => SampleFrom(b[4 * k], b[4 * k + 1], b[4 * k + 2], b[4 * k + 3]))
  }

  lemma SampleOfBytes(v: u32)
    ensures SampleFrom(ByteOf(v, 0), ByteOf(v, 1), ByteOf(v, 2), ByteOf(v, 3)) == v
  {
  }

  lemma BytesOfSample(s: seq<u32>, k: nat)
    requires k < |s|
    ensures var b := SampleBytes(s);
            && b[4 * k] == ByteOf(s[k], 0) && b[4 * k + 1] == ByteOf(s[k], 1)
            && b[4 * k + 2] == ByteOf(s[k], 2) && b[4 * k + 3] == ByteOf(s[k], 3)
  {
    SampleByteAt(s, k, 0);
    SampleByteAt(s, k, 1);
    SampleByteAt(s, k, 2);
    SampleByteAt(s, k, 3);
  }

  lemma SamplesRoundTrip(s: seq<u32>)
    ensures ParseSamples(SampleBytes(s)) == s
  {
    forall k | 0 <= k < |s| ensures ParseSamples(SampleBytes(s))[k] == s[k] {
      BytesOfSample(s, k);
      SampleOfBytes(s[k]);
    }
  }

  lemma SampleByteShifts(s: seq<u32>, i: nat, n: nat, k: nat)
    requires i + n <= |s| && k < 4 * n
    ensures SampleByte(s, 4 * i + k) == SampleByte(s[i..i + n], k)
  {
    var q, r := k / 4, k % 4;
    assert 4 * i + k == 4 * (i + q) + r && k == 4 * q + r;
    SampleByteAt(s, i + q, r);
    SampleByteAt(s[i..i + n], q, r);
  }

  /** Bytes of a run of samples are a run of the bytes. */
  lemma SampleBytesRun(s: seq<u32>, i: nat, n: nat)
    requires i + n <= |s|
    ensures SampleBytes(s)[4 * i..4 * i + 4 * n] == SampleBytes(s[i..i + n])
  {
    var whole, part := SampleBytes(s), SampleBytes(s[i..i + n]);
    forall k | 0 <= k < 4 * n ensures whole[4 * i + k] == part[k] {
      SampleByteShifts(s, i, n, k);
    }
  }

  /** A run of `b` is a run of `p + b`, further on. */
  lemma RunAfter(p: Bytes, b: Bytes, i: nat, n: nat, run: Bytes)
    requires i + n <= |b| && b[i..i + n] == run
    ensures (p + b)[|p| + i..|p| + i + n] == run
  {
  }
}
