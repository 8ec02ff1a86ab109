/** Tiles on the wire: header and two bands of samples, written by the collector and parsed by
    the mapper, and the mapping of tile coordinates back to the frame.  A sample is the bit
    pattern of a 32-bit float; multi-byte values are little endian. */
module TileWire {
  import opened Words
  import opened RowMajor
  import opened Bytes
  import opened Tiling

  /** Geometry in six 16-bit fields, then position, resolution and time as raw bit patterns. */
  datatype TileHeader = TileHeader(frameX: u16, frameY: u16, width: u16, height: u16, innerW: u16, innerH: u16,
                                   nadirLat: u32, nadirLon: u32, gsd: u32, timestamp: nat)

  datatype TileMessage = TileMessage(header: TileHeader, mwir: seq<u32>, lwir: seq<u32>)

  /** Outcome of parsing: no header, a pixel slice beyond the data (a panic), or a tile. */
  datatype Parsed = NotATile | OutOfBounds | Parsed(msg: TileMessage)

  /** A view of a tile within a dual-band frame. */
  datatype DualBandTile = DualBandTile(geo: OverlapTile, mwir: seq<u32>, lwir: seq<u32>, frameWidth: nat,
                                       nadirLat: u32, nadirLon: u32, gsd: u32, timestamp: nat) {
    ghost predicate Valid() {
      && Fits(Region(geo), frameWidth, |mwir|) && Fits(Region(geo), frameWidth, |lwir|)
      && timestamp < Range(8)
    }
  }

  const HEADER_SIZES: seq<nat> := [2, 2, 2, 2, 2, 2, 4, 4, 4, 8]
  const HEADER_SIZE: nat := 32

  lemma HeaderSizeIs32()
    ensures TotalSize(HEADER_SIZES) == HEADER_SIZE
  {
    var s := HEADER_SIZES;
    assert s[1..] == [2, 2, 2, 2, 2, 4, 4, 4, 8];
    assert s[1..][1..] == [2, 2, 2, 2, 4, 4, 4, 8];
    assert s[1..][1..][1..] == [2, 2, 2, 4, 4, 4, 8];
    assert s[1..][1..][1..][1..] == [2, 2, 4, 4, 4, 8];
    assert s[1..][1..][1..][1..][1..] == [2, 4, 4, 4, 8];
    assert s[1..][1..][1..][1..][1..][1..] == [4, 4, 4, 8];
    assert s[1..][1..][1..][1..][1..][1..][1..] == [4, 4, 8];
    assert s[1..][1..][1..][1..][1..][1..][1..][1..] == [4, 8];
    assert s[1..][1..][1..][1..][1..][1..][1..][1..][1..] == [8];
    assert s[1..][1..][1..][1..][1..][1..][1..][1..][1..][1..] == [];
  }

  /** The header of a tile; each geometry field is cut to 16 bits. */
  function HeaderOf(t: DualBandTile): TileHeader {
    TileHeader(t.geo.frameX % 0x1_0000, t.geo.frameY % 0x1_0000, t.geo.width % 0x1_0000, t.geo.height % 0x1_0000,
               t.geo.innerW % 0x1_0000, t.geo.innerH % 0x1_0000, t.nadirLat, t.nadirLon, t.gsd, t.timestamp)
  }

  function ToFields(h: TileHeader): (vals: seq<nat>)
    ensures |vals| == |HEADER_SIZES|
  {
    [h.frameX, h.frameY, h.width, h.height, h.innerW, h.innerH, h.nadirLat, h.nadirLon, h.gsd, h.timestamp]
  }

  /** The header read back from its ten fields, each within its width. */
  function FromFields(v: seq<nat>): TileHeader
    requires |v| == |HEADER_SIZES|
  {
    TileHeader(v[0] % 0x1_0000, v[1] % 0x1_0000, v[2] % 0x1_0000, v[3] % 0x1_0000, v[4] % 0x1_0000, v[5] % 0x1_0000,
               v[6] % U32_RANGE, v[7] % U32_RANGE, v[8] % U32_RANGE, v[9])
  }

  function HeaderBytes(h: TileHeader): (b: Bytes)
    ensures |b| == HEADER_SIZE
  {
    HeaderSizeIs32();
    EncodeFields(ToFields(h), HEADER_SIZES)
  }

  lemma HeaderRoundTrip(h: TileHeader, rest: Bytes)
    requires h.timestamp < Range(8)
    ensures |HeaderBytes(h) + rest| >= TotalSize(HEADER_SIZES)
    ensures FromFields(DecodeFields(HeaderBytes(h) + rest, HEADER_SIZES)) == h
  {
    RangeValues();
    HeaderSizeIs32();
    FieldsRoundTrip(ToFields(h), HEADER_SIZES, rest);
    FieldsOfHeader(h);
  }

  lemma FieldsOfHeader(h: TileHeader)
    ensures FromFields(ToFields(h)) == h
  {
  }

  lemma FieldsFront(v: nat, vals: seq<nat>, n: nat, sizes: seq<nat>, allVals: seq<nat>, allSizes: seq<nat>)
    requires |vals| == |sizes| && allVals == [v] + vals && allSizes == [n] + sizes
    ensures EncodeFields(allVals, allSizes) == LittleEndian(v, n) + EncodeFields(vals, sizes)
  {
    assert allVals[1..] == vals && allSizes[1..] == sizes;
  }

  lemma LastFields(lat: nat, lon: nat, gsd: nat, time: nat)
    ensures EncodeFields([lat, lon, gsd, time], [4, 4, 4, 8])
         == LittleEndian(lat, 4) + (LittleEndian(lon, 4) + (LittleEndian(gsd, 4) + LittleEndian(time, 8)))
  {
    FieldsFront(time, [], 8, [], [time], [8]);
    assert LittleEndian(time, 8) + [] == LittleEndian(time, 8);
    FieldsFront(gsd, [time], 4, [8], [gsd, time], [4, 8]);
    FieldsFront(lon, [gsd, time], 4, [4, 8], [lon, gsd, time], [4, 4, 8]);
    FieldsFront(lat, [lon, gsd, time], 4, [4, 4, 8], [lat, lon, gsd, time], [4, 4, 4, 8]);
  }

  /** Three fields of two bytes in front of others. */
  lemma ThreeFields(a: nat, b: nat, c: nat, vals: seq<nat>, sizes: seq<nat>)
    requires |vals| == |sizes|
    ensures EncodeFields([a, b, c] + vals, [2, 2, 2] + sizes)
         == LittleEndian(a, 2) + (LittleEndian(b, 2) + (LittleEndian(c, 2) + EncodeFields(vals, sizes)))
  {
    var v1, n1 := [c] + vals, [2] + sizes;
    var v2, n2 := [b] + v1, [2] + n1;
    var v3, n3 := [a] + v2, [2] + n2;
    FieldsFront(c, vals, 2, sizes, v1, n1);
    FieldsFront(b, v1, 2, n1, v2, n2);
    FieldsFront(a, v2, 2, n2, v3, n3);
    ThreeInFront(a, b, c, vals, v3);
    ThreeInFront(2, 2, 2, sizes, n3);
  }

  lemma ThreeInFront(a: nat, b: nat, c: nat, rest: seq<nat>, all: seq<nat>)
    requires all == [a] + ([b] + ([c] + rest))
    ensures all == [a, b, c] + rest
  {
  }

  /** The 32 bytes of a header: position and size of the tile in the frame, size of its inner region,
      latitude, longitude, resolution and time, each least significant byte first. */
  lemma HeaderLayout(t: DualBandTile)
    ensures HeaderBytes(HeaderOf(t)) ==
      LittleEndian(t.geo.frameX % 0x1_0000, 2) + (LittleEndian(t.geo.frameY % 0x1_0000, 2)
      + (LittleEndian(t.geo.width % 0x1_0000, 2)
      + (LittleEndian(t.geo.height % 0x1_0000, 2) + (LittleEndian(t.geo.innerW % 0x1_0000, 2)
      + (LittleEndian(t.geo.innerH % 0x1_0000, 2)
      + (LittleEndian(t.nadirLat, 4) + (LittleEndian(t.nadirLon, 4)
      + (LittleEndian(t.gsd, 4) + LittleEndian(t.timestamp, 8)))))))))
  {
    var h := HeaderOf(t);
    var last, lastSizes := [h.nadirLat, h.nadirLon, h.gsd, h.timestamp], [4, 4, 4, 8];
    var size, sizeSizes := [h.height, h.innerW, h.innerH] + last, [2, 2, 2] + lastSizes;
    LastFields(h.nadirLat, h.nadirLon, h.gsd, h.timestamp);
    ThreeFields(h.height, h.innerW, h.innerH, last, lastSizes);
    ThreeFields(h.frameX, h.frameY, h.width, size, sizeSizes);
    FieldsInGroups(h, size);
    assert HEADER_SIZES == [2, 2, 2] + sizeSizes;
  }

  lemma FieldsInGroups(h: TileHeader, size: seq<nat>)
    requires size == [h.height, h.innerW, h.innerH] + [h.nadirLat, h.nadirLon, h.gsd, h.timestamp]
    ensures ToFields(h) == [h.frameX, h.frameY, h.width] + size
  {
  }

  /** Header, then the samples of each band row by row. */
  function Encoded(t: DualBandTile): Bytes
    requires t.Valid()
  {
    HeaderBytes(HeaderOf(t)) + SampleBytes(Extracted(t.mwir, t.frameWidth, Region(t.geo)))
      + SampleBytes(Extracted(t.lwir, t.frameWidth, Region(t.geo)))
  }

  lemma EncodedSize(t: DualBandTile)
    requires t.Valid()
    ensures |Encoded(t)| == HEADER_SIZE + 8 * Area(t.geo.height, t.geo.width)
  {
  }

  /** Behind the header stand the samples of the first band, then those of the second, four bytes each,
      least significant first: sample `k` of the tile at byte `32 + 4 * k`, and as much further on as
      the first band takes. */
  lemma SampleLayout(t: DualBandTile, k: nat)
    requires t.Valid() && k < Area(t.geo.height, t.geo.width)
    ensures var b, n := Encoded(t), 4 * Area(t.geo.height, t.geo.width);
      && b[32 + 4 * k..32 + 4 * k + 4]
         == LittleEndian(Extracted(t.mwir, t.frameWidth, Region(t.geo))[k], 4)
      && b[32 + n + 4 * k..32 + n + 4 * k + 4]
         == LittleEndian(Extracted(t.lwir, t.frameWidth, Region(t.geo))[k], 4)
  {
    var m, l := Extracted(t.mwir, t.frameWidth, Region(t.geo)), Extracted(t.lwir, t.frameWidth, Region(t.geo));
    TwoBands(HeaderBytes(HeaderOf(t)), m, l, k);
  }

  lemma TwoBands(header: Bytes, m: seq<u32>, l: seq<u32>, k: nat)
    requires |header| == 32 && |m| == |l| && k < |m|
    ensures var b, n := header + SampleBytes(m) + SampleBytes(l), 4 * |m|;
      && b[32 + 4 * k..32 + 4 * k + 4] == LittleEndian(m[k], 4)
      && b[32 + n + 4 * k..32 + n + 4 * k + 4] == LittleEndian(l[k], 4)
  {
    SampleAtByte(header, m, SampleBytes(l), k);
    SampleAtByte(header + SampleBytes(m), l, [], k);
    assert header + SampleBytes(m) + SampleBytes(l) + [] == header + SampleBytes(m) + SampleBytes(l);
  }

  lemma SampleAtByte(before: Bytes, s: seq<u32>, behind: Bytes, k: nat)
    requires k < |s|
    ensures var at := |before| + 4 * k; (before + SampleBytes(s) + behind)[at..at + 4] == LittleEndian(s[k], 4)
  {
    SampleBytesRun(s, k, 1);
    OneSampleBytes(s[k]);
    assert s[k..k + 1] == [s[k]];
    RunAfter(before, SampleBytes(s), 4 * k, 4, LittleEndian(s[k], 4));
    RunBefore(before + SampleBytes(s), behind, |before| + 4 * k, 4);
  }

  lemma RunBefore(b: Bytes, behind: Bytes, i: nat, n: nat)
    requires i + n <= |b|
    ensures (b + behind)[i..i + n] == b[i..i + n]
  {
  }

  lemma OneSampleBytes(v: u32)
    ensures SampleBytes([v]) == LittleEndian(v, 4)
  {
    BytesOfSample([v], 0);
    ReverseBytes(v);
  }

  lemma ReverseBytes(n: u32)
    ensures LittleEndian(n, 4) == [ByteOf(n, 0), ByteOf(n, 1), ByteOf(n, 2), ByteOf(n, 3)]
  {
    assert LittleEndian(n / 0x100_0000, 1) == [n / 0x100_0000] + [];
    assert LittleEndian(n / 0x1_0000, 2) == [n / 0x1_0000 % 0x100] + LittleEndian(n / 0x100_0000, 1);
    assert LittleEndian(n / 0x100, 3) == [n / 0x100 % 0x100] + LittleEndian(n / 0x1_0000, 2);
  }

  /** `target` is the buffer up to `off` and the bytes of the band behind it. */
  ghost predicate IsTarget(target: Bytes, was: Bytes, off: nat, band: seq<u32>, fw: nat, geo: OverlapTile)
    requires Fits(Region(geo), fw, |band|)
  {
    off <= |was| && target == was[..off] + SampleBytes(Extracted(band, fw, Region(geo)))
  }

  /** Copies the rows of one band into the buffer from `off` on. */
  method WriteBand(band: seq<u32>, fw: nat, geo: OverlapTile, buf: array<u8>, off: nat) returns (end: nat)
    requires Fits(Region(geo), fw, |band|)
    requires off + 4 * Area(geo.height, geo.width) <= buf.Length
    modifies buf
    ensures end == off + 4 * Area(geo.height, geo.width)
    ensures buf[..] == old(buf[..])[..off] + SampleBytes(Extracted(band, fw, Region(geo))) + old(buf[..])[end..]
  {
    ghost var was := buf[..];
    ghost var target := was[..off] + SampleBytes(Extracted(band, fw, Region(geo)));
    assert |target| == off + 4 * Area(geo.height, geo.width);
    end := off;
    for row := 0 to geo.height
      invariant end == off + 4 * Area(row, geo.width) && FilledTo(buf[..], target, was, end)
    {
      end := WriteRow(band, fw, geo, row, buf, end, was, target, off);
    }
    FilledCompletely(buf[..], target, was);
  }

  /** Copies row `row` of a band into the buffer. */
  method WriteRow(band: seq<u32>, fw: nat, geo: OverlapTile, row: nat, buf: array<u8>, at: nat,
                  ghost was: Bytes, ghost target: Bytes, ghost off: nat) returns (end: nat)
    requires Fits(Region(geo), fw, |band|) && row < geo.height && IsTarget(target, was, off, band, fw, geo)
    requires at == off + 4 * Area(row, geo.width) && |target| <= buf.Length && FilledTo(buf[..], target, was, at)
    modifies buf
    ensures end == at + 4 * geo.width && FilledTo(buf[..], target, was, end)
  {
    var start := RowStart(geo.x, geo.y + row, fw);
    BandRow(band, fw, geo, row, start, was[..off], target);
    end := at + 4 * geo.width;
    PutRun(buf, SampleBytes(band[start..start + geo.width]), at, was, target);
  }

  /** The index of the sample in column `x` of row `y`. */
  method RowStart(x: nat, y: nat, width: nat) returns (start: nat)
    ensures start == Area(y, width) + x
  {
    AreaIsProduct(y, width);
    start := y * width + x;
  }

  method PutRun(buf: array<u8>, bytes: Bytes, at: nat, ghost was: Bytes, ghost target: Bytes)
    requires FilledTo(buf[..], target, was, at) && |target| <= buf.Length
    requires at + |bytes| <= |target| && target[at..at + |bytes|] == bytes
    modifies buf
    ensures FilledTo(buf[..], target, was, at + |bytes|)
  {
    FillRun(buf[..], target, was, at, bytes);
    CopyAll(bytes, buf, at);
  }

  /** Where the bytes of row `row` stand in the encoded band. */
  lemma BandRow(band: seq<u32>, fw: nat, geo: OverlapTile, row: nat, start: nat, before: Bytes, target: Bytes)
    requires Fits(Region(geo), fw, |band|) && row < geo.height && start == Area(geo.y + row, fw) + geo.x
    requires target == before + SampleBytes(Extracted(band, fw, Region(geo)))
    ensures start + geo.width <= |band|
    ensures var at, bytes := |before| + 4 * Area(row, geo.width), SampleBytes(band[start..start + geo.width]);
            at + |bytes| <= |target| && target[at..at + |bytes|] == bytes
  {
    ExtractedRow(band, fw, Region(geo), row);
    var data, i, run := Extracted(band, fw, Region(geo)), Area(row, geo.width), band[start..start + geo.width];
    SampleRun(data, before, i, run, |before| + 4 * i, target);
  }

  /** The bytes of one row, seen inside the bytes of the band. */
  lemma SampleRun(data: seq<u32>, before: Bytes, i: nat, row: seq<u32>, at: nat, target: Bytes)
    requires i + |row| <= |data| && data[i..i + |row|] == row
    requires at == |before| + 4 * i && target == before + SampleBytes(data)
    ensures at + |SampleBytes(row)| <= |target| && target[at..at + |SampleBytes(row)|] == SampleBytes(row)
  {
    SampleBytesRun(data, i, |row|);
    RunAfter(before, SampleBytes(data), 4 * i, 4 * |row|, SampleBytes(row));
  }

  lemma FilledCompletely(s: Bytes, all: Bytes, was: Bytes)
    requires FilledTo(s, all, was, |all|)
    ensures s == all + was[|all|..]
  {
    assert s == s[..|all|] + s[|all|..];
    assert all[..|all|] == all;
  }

  /** Serialises a tile into the front of the buffer. */
  method WriteTo(t: DualBandTile, buf: array<u8>) returns (off: nat)
    requires t.Valid() && HEADER_SIZE + 8 * Area(t.geo.height, t.geo.width) <= buf.Length
    modifies buf
    ensures off == |Encoded(t)| == HEADER_SIZE + 8 * Area(t.geo.height, t.geo.width)
    ensures buf[..] == Encoded(t) + old(buf[..])[off..]
  {
    ghost var was := buf[..];
    var hdr := HeaderBytes(HeaderOf(t));
    CopyAll(hdr, buf, 0);
    off := |hdr|;
    assert buf[..] == hdr + was[off..];
    off := AppendBand(t.mwir, t.frameWidth, t.geo, buf, off, was, hdr);
    off := AppendBand(t.lwir, t.frameWidth, t.geo, buf, off, was,
                      hdr + SampleBytes(Extracted(t.mwir, t.frameWidth, Region(t.geo))));
  }

  /** Writes a band behind what has been written so far. */
  method AppendBand(band: seq<u32>, fw: nat, geo: OverlapTile, buf: array<u8>, off: nat, ghost was: Bytes,
                    ghost prefix: Bytes) returns (end: nat)
    requires Fits(Region(geo), fw, |band|) && off == |prefix| && off + 4 * Area(geo.height, geo.width) <= buf.Length
    requires |was| == buf.Length && buf[..] == prefix + was[off..]
    modifies buf
    ensures end == off + 4 * Area(geo.height, geo.width)
    ensures buf[..] == prefix + SampleBytes(Extracted(band, fw, Region(geo))) + was[end..]
  {
    ghost var before := buf[..];
    end := WriteBand(band, fw, geo, buf, off);
    ExtendPrefix(was, prefix, before, SampleBytes(Extracted(band, fw, Region(geo))), buf[..]);
  }

  /** Writing a further run after a written prefix. */
  lemma ExtendPrefix(was: Bytes, prefix: Bytes, before: Bytes, run: Bytes, after: Bytes)
    requires |prefix| + |run| <= |was| && before == prefix + was[|prefix|..]
    requires after == before[..|prefix|] + run + before[|prefix| + |run|..]
    ensures after == prefix + run + was[|prefix| + |run|..]
  {
    assert before[..|prefix|] == prefix;
    assert before[|prefix| + |run|..] == was[|prefix| + |run|..];
  }

  /** Parses a tile from the front of a byte sequence. */
  function FromBytes(data: Bytes): Parsed {
    if |data| < HEADER_SIZE then NotATile
    else
      HeaderSizeIs32();
      ParseBands(FromFields(DecodeFields(data, HEADER_SIZES)), data[HEADER_SIZE..])
  }

  /** The two bands that follow the header. */
  function ParseBands(h: TileHeader, body: Bytes): Parsed {
    var px := 4 * Area(h.height, h.width);
    if |body| < px + px then OutOfBounds
    else Parsed(TileMessage(h, ParseSamples(body[..px]), ParseSamples(body[px..px + px])))
  }

  /** Width and height survive the cut to 16 bits. */
  predicate DimensionsFit(t: OverlapTile) {
    t.width < 0x1_0000 && t.height < 0x1_0000
  }

  /** Wire round trip: header and both bands come back, whatever follows in the buffer. */
  lemma TileRoundTrip(t: DualBandTile, rest: Bytes)
    requires t.Valid() && DimensionsFit(t.geo)
    ensures FromBytes(Encoded(t) + rest)
            == Parsed(TileMessage(HeaderOf(t), Extracted(t.mwir, t.frameWidth, Region(t.geo)),
                                  Extracted(t.lwir, t.frameWidth, Region(t.geo))))
  {
    ParseEncoded(HeaderOf(t), Extracted(t.mwir, t.frameWidth, Region(t.geo)),
                 Extracted(t.lwir, t.frameWidth, Region(t.geo)), rest);
  }

  lemma ParseEncoded(h: TileHeader, m: seq<u32>, l: seq<u32>, rest: Bytes)
    requires |m| == |l| == Area(h.height, h.width) && h.timestamp < Range(8)
    ensures FromBytes(HeaderBytes(h) + SampleBytes(m) + SampleBytes(l) + rest) == Parsed(TileMessage(h, m, l))
  {
    var body := SampleBytes(m) + SampleBytes(l) + rest;
    var data := HeaderBytes(h) + SampleBytes(m) + SampleBytes(l) + rest;
    assert data == HeaderBytes(h) + body && data[HEADER_SIZE..] == body;
    HeaderRoundTrip(h, body);
    BandsRoundTrip(h, m, l, rest);
  }

  lemma BandsRoundTrip(h: TileHeader, m: seq<u32>, l: seq<u32>, rest: Bytes)
    requires |m| == |l| == Area(h.height, h.width)
    ensures ParseBands(h, SampleBytes(m) + SampleBytes(l) + rest) == Parsed(TileMessage(h, m, l))
  {
    var mb, lb := SampleBytes(m), SampleBytes(l);
    assert (mb + lb + rest)[..|mb|] == mb && (mb + lb + rest)[|mb|..|mb| + |lb|] == lb;
    SamplesRoundTrip(m);
    SamplesRoundTrip(l);
  }

  /** Sample (`x`, `row`) of a parsed band is the frame's sample at that place of the tile. */
  lemma SampleFromFrame(band: seq<u32>, fw: nat, t: OverlapTile, x: nat, row: nat)
    requires Fits(Region(t), fw, |band|) && x < t.width && row < t.height
    ensures row * t.width + x < |Extracted(band, fw, Region(t))| && (t.y + row) * fw + t.x + x < |band|
    ensures Extracted(band, fw, Region(t))[row * t.width + x] == band[(t.y + row) * fw + t.x + x]
  {
    AreaIsProduct(row, t.width);
    AreaIsProduct(t.y + row, fw);
    SourceAt(Region(t), fw, |band|, row, x);
    TileRow(Region(t), fw, |band|, row);
  }

  // ----- Back to frame coordinates ---------------------------------------------------------

  /** The receiver's guess of the left border, from frame position and widths alone. */
  function OverlapAlong(frame: nat, width: nat, inner: nat): nat
    requires inner <= width
  {
    if frame >= width - inner then Min(width - inner, frame) else frame
  }

  function ToFrameCoords(h: TileHeader, x: nat, y: nat): Option<(nat, nat)>
    requires h.innerW <= h.width && h.innerH <= h.height
  {
    var ox, oy := OverlapAlong(h.frameX, h.width, h.innerW), OverlapAlong(h.frameY, h.height, h.innerH);
    if ox <= x < ox + h.innerW && oy <= y < oy + h.innerH then Some((h.frameX + (x - ox), h.frameY + (y - oy)))
    else None
  }

  /** A frame whose positions all fit 16 bits. */
  ghost predicate FrameFits(g: Grid) {
    g.w < 0x1_0000 && g.h < 0x1_0000
  }

  /** The receiver's offset is right along an axis: no border beyond the inner region, or an
      inner region that starts within one overlap of the edge. */
  predicate OffsetKnown(g: Grid, t: OverlapTile) {
    && (t.x + t.width == t.frameX + t.innerW || t.frameX <= g.ov)
    && (t.y + t.height == t.frameY + t.innerH || t.frameY <= g.ov)
  }

  lemma OffsetExactX(g: Grid, t: OverlapTile)
    requires WellCut(g, t)
    ensures OverlapAlong(t.frameX, t.width, t.innerW) == t.innerX <==>
            t.x + t.width == t.frameX + t.innerW || t.frameX <= g.ov
  {
  }

  lemma OffsetExactY(g: Grid, t: OverlapTile)
    requires WellCut(g, t)
    ensures OverlapAlong(t.frameY, t.height, t.innerH) == t.innerY <==>
            t.y + t.height == t.frameY + t.innerH || t.frameY <= g.ov
  {
  }

  /** Where a tile pixel really lies in the frame: nowhere if it is border. */
  function TruePosition(t: OverlapTile, x: nat, y: nat): Option<(nat, nat)> {
    if t.innerX <= x < t.innerX + t.innerW && t.innerY <= y < t.innerY + t.innerH then Some((t.x + x, t.y + y))
    else None
  }

  ghost predicate CoordsInvert(t: OverlapTile, h: TileHeader)
    requires h.innerW <= h.width && h.innerH <= h.height
  {
    forall x: nat, y: nat :: x < t.width && y < t.height ==> ToFrameCoords(h, x, y) == TruePosition(t, x, y)
  }

  /** The header agrees with the tile's geometry. */
  ghost predicate Describes(h: TileHeader, t: OverlapTile) {
    && h.frameX == t.frameX && h.frameY == t.frameY && h.width == t.width && h.height == t.height
    && h.innerW == t.innerW && h.innerH == t.innerH
  }

  lemma HeaderDescribes(g: Grid, t: DualBandTile)
    requires WellCut(g, t.geo) && FrameFits(g)
    ensures Describes(HeaderOf(t), t.geo)
  {
  }

  /** The receiver maps tile pixels back to the frame exactly when its offset is right. */
  lemma CoordsInvertExactly(g: Grid, t: OverlapTile, h: TileHeader)
    requires WellCut(g, t) && Describes(h, t)
    ensures CoordsInvert(t, h) <==> OffsetKnown(g, t)
  {
    OffsetExactX(g, t);
    OffsetExactY(g, t);
    if CoordsInvert(t, h) {
      assert ToFrameCoords(h, t.innerX, t.innerY) == TruePosition(t, t.innerX, t.innerY);
    }
  }

  /** The wildfire application's layout (tiles of 32, overlap 3): in every frame more than 64
      pixels wide the second tile is mapped back to the wrong place. */
  lemma ShippedOffsetMisplaces(w: nat, h: nat, hdr: TileHeader)
    requires 64 < w && 0 < h
    requires var g := Grid(w, h, 32, 3); 1 < |Layout(g)| ==> Describes(hdr, Layout(g)[1])
    ensures var g := Grid(w, h, 32, 3);
            1 < |Layout(g)| && WellCut(g, Layout(g)[1]) && !CoordsInvert(Layout(g)[1], hdr)
  {
    var g := Grid(w, h, 32, 3);
    TileOfPixel(w, 32, 32);
    TileOfPixel(h, 32, 0);
    LayoutAt(g, 1, 0);
    TilesAreWellCut(g, 1);
    CoordsInvertExactly(g, Layout(g)[1], hdr);
  }
}
