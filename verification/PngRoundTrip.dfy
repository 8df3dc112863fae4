/** Printing an image as PNG with any filter per row, any chunk split and any DEFLATE stream, and reading it back. */
module PngRoundTrip {
  import opened Bytes
  import opened DeflateBlocks
  import opened Png

  // ----- the encoder side of the filters -----

  function FilterByte(filter: byte, pixels: seq<byte>, k: nat, stride: nat, channels: nat): byte
    requires stride >= 1 && channels >= 1 && k < |pixels|
  {
    (pixels[k] as int - PredictAt(filter, pixels, k, stride, channels) as int) % 256
  }

  function FilteredRow(filter: byte, pixels: seq<byte>, row: nat, stride: nat, channels: nat): (r: seq<byte>)
    requires stride >= 1 && channels >= 1 && row * stride + stride <= |pixels|
    ensures |r| == stride + 1
  {
    [filter] + RowBytes(filter, pixels, row * stride, stride, channels)
  }

  function RowBytes(filter: byte, pixels: seq<byte>, base: nat, stride: nat, channels: nat): (r: seq<byte>)
    requires stride >= 1 && channels >= 1 && base + stride <= |pixels|
    ensures |r| == stride
    ensures forall i :: 0 <= i < stride ==> r[i] == FilterByte(filter, pixels, base + i, stride, channels)
  {
    seq<byte>(stride, i requires 0 <= i < stride => FilterByte(filter, pixels, base + i, stride, channels))
  }

  /** Each row after its own filter byte. */
  function Filtered(pixels: seq<byte>, filters: seq<byte>, stride: nat, channels: nat): (r: seq<byte>)
    requires stride >= 1 && channels >= 1 && stride * |filters| <= |pixels|
    ensures |r| == |filters| * (stride + 1)
  {
    if filters == [] then []
    else
      var row := |filters| - 1;
      RowFits(row, |filters|, stride);
      Filtered(pixels, filters[..row], stride, channels) + FilteredRow(filters[row], pixels, row, stride, channels)
  }

  lemma {:induction false} FilteredAt(pixels: seq<byte>, filters: seq<byte>, stride: nat, channels: nat, row: nat,
                                      i: nat)
    requires stride >= 1 && channels >= 1 && stride * |filters| <= |pixels| && row < |filters| && i < stride
    ensures row * stride + i < |pixels|
    ensures row * (stride + 1) + 1 + i < |Filtered(pixels, filters, stride, channels)|
    ensures Filtered(pixels, filters, stride, channels)[row * (stride + 1)] == filters[row]
    ensures Filtered(pixels, filters, stride, channels)[row * (stride + 1) + 1 + i] ==
            FilterByte(filters[row], pixels, row * stride + i, stride, channels)
    decreases |filters|
  {
    hide FilterByte;
    var last := |filters| - 1;
    RowFits(row, |filters|, stride);
    RowFits(last, |filters|, stride);
    RowFits(row, |filters|, stride + 1);
    if row < last {
      FilteredAt(pixels, filters[..last], stride, channels, row, i);
    } else {
      assert FilteredRow(filters[row], pixels, row, stride, channels)[1 + i] ==
             FilterByte(filters[row], pixels, row * stride + i, stride, channels);
    }
  }

  lemma {:induction false} PredictFromPrefix(filter: byte, pixels: seq<byte>, k: nat, stride: nat, channels: nat)
    requires stride >= 1 && channels >= 1 && k <= |pixels|
    ensures PredictAt(filter, pixels[..k], k, stride, channels) == PredictAt(filter, pixels, k, stride, channels)
  {
    hide Predict;
    RowParts(k, stride);
  }

  lemma {:induction false} UndoFilter(x: byte, p: byte)
    ensures ((x as int - p as int) % 256 + p as int) % 256 == x
  {
    assert x >= p ==> (x as int - p as int) % 256 == x as int - p as int;
    assert x < p ==> (x as int - p as int) % 256 == x as int - p as int + 256;
  }

  lemma {:induction false} RowBelow(k: nat, stride: nat, rows: nat)
    requires stride >= 1 && k < stride * rows
    ensures k == (k / stride) * stride + k % stride && k / stride < rows
  {
    if k / stride >= rows {
      MulStep(rows, k / stride + 1, stride);
    }
  }

  lemma {:induction false} RawAt(raw: seq<byte>, pixels: seq<byte>, filters: seq<byte>, stride: nat, channels: nat,
                                 k: nat)
    requires stride >= 1 && channels >= 1 && |pixels| == stride * |filters| && k < |pixels|
    requires Filtered(pixels, filters, stride, channels) <= raw
    ensures var row := k / stride;
            && row < |filters| && 0 <= row * (stride + 1) < |raw| && raw[row * (stride + 1)] == filters[row]
            && k + row + 1 < |raw| && raw[k + row + 1] == FilterByte(filters[row], pixels, k, stride, channels)
  {
    hide FilterByte, Filtered;
    var row, i := k / stride, k % stride;
    RowBelow(k, stride, |filters|);
    RowFacts(k, |pixels|, row, i, stride);
    FilteredAt(pixels, filters, stride, channels, row, i);
  }

  lemma {:induction false} NextPixel(raw: seq<byte>, pixels: seq<byte>, filters: seq<byte>, stride: nat, channels: nat,
                                     k: nat)
    requires stride >= 1 && channels >= 1 && |pixels| == stride * |filters| && k < |pixels|
    requires forall y :: 0 <= y < |filters| ==> filters[y] <= 4
    requires Filtered(pixels, filters, stride, channels) <= raw
    requires |raw| >= |pixels| + (|pixels| - 1) / stride + 1
    ensures DefilterFrom(raw, stride, channels, |pixels|, pixels[..k]) ==
            DefilterFrom(raw, stride, channels, |pixels|, pixels[..k + 1])
  {
    hide PredictAt, Filtered;
    var row := k / stride;
    RawAt(raw, pixels, filters, stride, channels, k);
    PredictFromPrefix(filters[row], pixels, k, stride, channels);
    UndoFilter(pixels[k], PredictAt(filters[row], pixels, k, stride, channels));
    assert pixels[..k + 1] == pixels[..k] + [pixels[k]];
  }

  /** Row filters are inverted whatever filter each row chose. */
  lemma {:induction false} DefilterInverts(raw: seq<byte>, pixels: seq<byte>, filters: seq<byte>, stride: nat,
                                           channels: nat, k: nat)
    requires stride >= 1 && channels >= 1 && filters != [] && |pixels| == stride * |filters| && k <= |pixels|
    requires forall y :: 0 <= y < |filters| ==> filters[y] <= 4
    requires Filtered(pixels, filters, stride, channels) <= raw
    requires |pixels| > 0 && |raw| >= |pixels| + (|pixels| - 1) / stride + 1
    ensures DefilterFrom(raw, stride, channels, |pixels|, pixels[..k]) == Ok(pixels)
    decreases |pixels| - k
  {
    if k == |pixels| {
      assert pixels[..k] == pixels;
    } else {
      hide DefilterFrom, Filtered;
      NextPixel(raw, pixels, filters, stride, channels, k);
      DefilterInverts(raw, pixels, filters, stride, channels, k + 1);
    }
  }

  lemma {:induction false} UnfilterInverts(raw: seq<byte>, h: Png.Header, channels: nat, pixels: seq<byte>,
                                           filters: seq<byte>)
    requires channels >= 1 && |filters| == h.height && |pixels| == h.width * channels * h.height
    requires forall y :: 0 <= y < |filters| ==> filters[y] <= 4
    requires h.width * channels >= 1
    requires Filtered(pixels, filters, h.width * channels, channels) <= raw
    ensures UnfilterSpec(raw, h, channels) == Ok(pixels)
  {
    hide Filtered, DefilterFrom;
    var stride := h.width * channels;
    RowCount(stride, h.height);
    assert |filters| * (stride + 1) == (stride + 1) * h.height;
    DefilterInverts(raw, pixels, filters, stride, channels, 0);
    assert pixels[..0] == [];
  }

  // ----- chunks -----

  datatype Chunk = Chunk(kind: seq<byte>, payload: seq<byte>, crc: seq<byte>) {
    predicate Valid()
    {
      |kind| == 4 && |crc| == 4 && |payload| < 0x1_0000_0000
    }
  }

  /** Length, kind, payload, check value: the printer of a chunk. */
  function ChunkBytes(c: Chunk): (r: seq<byte>)
    requires c.Valid()
    ensures |r| == 12 + |c.payload|
  {
    Be32Bytes(|c.payload|) + c.kind + c.payload + c.crc
  }

  predicate AllValid(cs: seq<Chunk>)
  {
    forall i :: 0 <= i < |cs| ==> cs[i].Valid()
  }

  function ChunksBytes(cs: seq<Chunk>): seq<byte>
    requires AllValid(cs)
  {
    if cs == [] then [] else ChunkBytes(cs[0]) + ChunksBytes(cs[1..])
  }

  /** What the chunks of a file say, read in order up to the first IEND. */
  function CollectAll(cs: seq<Chunk>, acc: Scanned): Result<Scanned, PngError>
  {
    if cs == [] || cs[0].kind == IEND then Ok(acc)
    else
      var next := Collect(cs[0].kind, cs[0].payload, acc);
      if next.Err? then next else CollectAll(cs[1..], next.value)
  }

  lemma {:induction false} ChunkAt(bytes: seq<byte>, offset: nat, c: Chunk)
    requires c.Valid() && offset <= |bytes| && ChunkBytes(c) <= bytes[offset..]
    ensures var end := offset + 8 + |c.payload|;
            && end + 4 <= |bytes| && Be32(bytes[offset..]) == |c.payload|
            && bytes[offset + 4..offset + 8] == c.kind && bytes[offset + 8..end] == c.payload
  {
    hide Be32, Be32Bytes;
    var b, n := bytes[offset..], |c.payload|;
    var cb := ChunkBytes(c);
    assert b[..|cb|] == cb;
    assert b[..4] == cb[..4] == Be32Bytes(n);
    assert b == Be32Bytes(n) + b[4..];
    Be32RoundTrip(n, b[4..]);
    assert b[4..8] == cb[4..8] == c.kind;
    assert b[8..8 + n] == cb[8..8 + n] == c.payload;
    assert bytes[offset + 8..offset + 8 + n] == b[8..8 + n];
  }

  lemma {:induction false} ScanInverts(bytes: seq<byte>, offset: nat, cs: seq<Chunk>, acc: Scanned)
    requires AllValid(cs) && offset <= |bytes| && ChunksBytes(cs) <= bytes[offset..]
    requires exists i :: 0 <= i < |cs| && cs[i].kind == IEND
    ensures ScanFrom(bytes, offset, acc) == CollectAll(cs, acc)
    decreases |cs|
  {
    hide Collect, Be32, ChunkBytes;
    var c := cs[0];
    var b := bytes[offset..];
    assert ChunkBytes(c) <= b by {
      assert ChunksBytes(cs)[..|ChunkBytes(c)|] == ChunkBytes(c);
    }
    ChunkAt(bytes, offset, c);
    if c.kind != IEND && Collect(c.kind, c.payload, acc).Ok? {
      var next := offset + 12 + |c.payload|;
      var i :| 0 <= i < |cs| && cs[i].kind == IEND;
      assert cs[1..][i - 1] == cs[i];
      assert bytes[next..] == b[|ChunkBytes(c)|..];
      assert ChunksBytes(cs)[|ChunkBytes(c)|..] == ChunksBytes(cs[1..]);
      ScanInverts(bytes, next, cs[1..], Collect(c.kind, c.payload, acc).value);
    }
  }

  // ----- whole files -----

  function HeaderPayload(width: nat, height: nat, alpha: bool): (r: seq<byte>)
    requires width < 0x1_0000_0000 && height < 0x1_0000_0000
    ensures |r| == 13
  {
    Be32Bytes(width) + Be32Bytes(height) + [8, if alpha then 6 else 2, 0, 0, 0]
  }

  lemma {:induction false} HeaderInverts(width: nat, height: nat, alpha: bool)
    requires 1 <= width < 0x1_0000_0000 && 1 <= height < 0x1_0000_0000
    ensures ParseHeader(HeaderPayload(width, height, alpha)) == Ok(Ihdr(width, height, if alpha then 6 else 2))
  {
    hide Be32, Be32Bytes;
    var tail: seq<byte> := [8, if alpha then 6 else 2, 0, 0, 0];
    var b := HeaderPayload(width, height, alpha);
    assert b == Be32Bytes(width) + (Be32Bytes(height) + tail);
    assert b[4..] == Be32Bytes(height) + tail;
    Be32RoundTrip(width, Be32Bytes(height) + tail);
    Be32RoundTrip(height, tail);
  }

  /** The concatenated payloads of the IDAT chunks. */
  function Payloads(cs: seq<Chunk>): seq<byte>
  {
    if cs == [] then [] else (if cs[0].kind == IDAT then cs[0].payload else []) + Payloads(cs[1..])
  }

  lemma {:induction false} CollectBody(cs: seq<Chunk>, end: Chunk, acc: Scanned)
    requires forall i :: 0 <= i < |cs| ==> cs[i].kind != IEND && cs[i].kind != IHDR
    requires end.kind == IEND
    ensures CollectAll(cs + [end], acc) == Ok(acc.(idat := acc.idat + Payloads(cs)))
    decreases |cs|
  {
    var all := cs + [end];
    if cs == [] {
      assert all[0] == end;
      assert acc.idat + [] == acc.idat;
    } else {
      assert all[0] == cs[0] && all[1..] == cs[1..] + [end];
      var next := Collect(cs[0].kind, cs[0].payload, acc).value;
      CollectBody(cs[1..], end, next);
      var part := if cs[0].kind == IDAT then cs[0].payload else [];
      assert next.idat == acc.idat + part;
      assert next.idat + Payloads(cs[1..]) == acc.idat + (part + Payloads(cs[1..]));
    }
  }

  /** A zlib stream: two good header bytes, then a DEFLATE stream of `raw`. */
  ghost predicate IsZlibOf(z: seq<byte>, raw: seq<byte>)
  {
    |z| >= 2 && ZlibCheck(z).None? && exists bs :: IsDeflateOf(z[2..], bs, raw)
  }

  /** A file: signature, IHDR, any other chunks with the IDAT payloads forming a zlib stream, IEND, anything. */
  ghost predicate IsPngOf(bytes: seq<byte>, head: Chunk, body: seq<Chunk>, end: Chunk, image: Image, filters: seq<byte>)
  {
    var channels := if image.alpha then 4 else 3;
    && 1 <= image.width < 0x1_0000_0000 && 1 <= image.height < 0x1_0000_0000
    && |image.data| == image.width * channels * image.height
    && |filters| == image.height && (forall y :: 0 <= y < |filters| ==> filters[y] <= 4)
    && AllValid([head] + body + [end])
    && head.kind == IHDR && head.payload == HeaderPayload(image.width, image.height, image.alpha)
    && (forall i :: 0 <= i < |body| ==> body[i].kind != IEND && body[i].kind != IHDR)
    && end.kind == IEND
    && image.width * channels >= 1
    && IsZlibOf(Payloads(body), Filtered(image.data, filters, image.width * channels, channels))
    && SIGNATURE + ChunksBytes([head] + body + [end]) <= bytes
  }

  lemma {:induction false} ZlibInverts(z: seq<byte>, raw: seq<byte>, max: nat)
    requires IsZlibOf(z, raw) && |raw| <= max
    ensures ZlibSpec(z, max) == Ok(raw)
  {
    var bs :| IsDeflateOf(z[2..], bs, raw);
    InflateReturnsExpansion(z[2..], bs, raw, max);
  }

  lemma {:induction false} ScanFile(bytes: seq<byte>, head: Chunk, body: seq<Chunk>, end: Chunk, image: Image,
                                    filters: seq<byte>)
    requires IsPngOf(bytes, head, body, end, image, filters)
    ensures |bytes| >= 8 && bytes[..8] == SIGNATURE
    ensures ScanFrom(bytes, 8, Scanned(None, [])) ==
            Ok(Scanned(Some(Ihdr(image.width, image.height, if image.alpha then 6 else 2)), Payloads(body)))
  {
    hide ChunkBytes, ScanFrom, Payloads, Filtered, HeaderPayload, ParseHeader, IsZlibOf;
    var cs := [head] + body + [end];
    assert cs[|cs| - 1] == end;
    assert ChunksBytes(cs) <= bytes[8..] by {
      assert bytes[..8 + |ChunksBytes(cs)|] == SIGNATURE + ChunksBytes(cs);
    }
    ScanInverts(bytes, 8, cs, Scanned(None, []));
    HeaderInverts(image.width, image.height, image.alpha);
    assert cs[0] == head && cs[1..] == body + [end];
    var h := Ihdr(image.width, image.height, if image.alpha then 6 else 2);
    CollectBody(body, end, Scanned(Some(h), []));
    assert [] + Payloads(body) == Payloads(body);
  }

  lemma {:induction false} SizeFacts(width: nat, height: nat, channels: nat)
    ensures width * height * channels == width * channels * height
    ensures height * (width * channels + 1) == width * channels * height + height
  {
    assert width * height * channels == width * (height * channels) == width * (channels * height) ==
           width * channels * height;
  }

  /** The round trip: every such file decodes to its own dimensions and pixels, when they fit the caller's limit. */
  lemma {:induction false} PngRoundTrips(bytes: seq<byte>, head: Chunk, body: seq<Chunk>, end: Chunk, image: Image,
                                         filters: seq<byte>, max: nat)
    requires IsPngOf(bytes, head, body, end, image, filters)
    ensures DecodeSpec(bytes, max) == if |image.data| <= max then Ok(image) else Err(OverLimit)
  {
    hide ScanFrom, ZlibSpec, UnfilterSpec, Filtered, ChunksBytes, HeaderPayload, IsZlibOf, Payloads;
    ScanFile(bytes, head, body, end, image, filters);
    var h := Ihdr(image.width, image.height, if image.alpha then 6 else 2);
    var channels := Channels(h);
    var raw := Filtered(image.data, filters, image.width * channels, channels);
    SizeFacts(image.width, image.height, channels);
    if |image.data| <= max {
      ZlibInverts(Payloads(body), raw, |image.data| + image.height * 2);
      UnfilterInverts(raw, h, channels, image.data, filters);
    }
  }

  // ----- the printers' zlib stream: stored blocks only -----

  /** Stored blocks of at most 65535 bytes; none at all for no data. */
  function StoredStream(data: seq<byte>): seq<byte>
    decreases |data|
  {
    if data == [] then []
    else if |data| <= 0xffff then [1] + StoredBytes(data)
    else [0] + StoredBytes(data[..0xffff]) + StoredStream(data[0xffff..])
  }

  function StoredBlocks(data: seq<byte>): (bs: seq<DeflateBlock>)
    requires data != []
    ensures bs != []
    decreases |data|
  {
    if |data| <= 0xffff then [StoredBlock([0, 0, 0, 0, 0], data)]
    else [StoredBlock([0, 0, 0, 0, 0], data[..0xffff])] + StoredBlocks(data[0xffff..])
  }

  method ZlibStored(data: seq<byte>, adler: seq<byte>) returns (out: seq<byte>)
    ensures out == [0x78, 0x01] + StoredStream(data) + adler
  {
    hide StoredBytes;
    out := [0x78, 0x01];
    var offset := 0;
    while offset < |data|
      invariant offset <= |data|
      invariant out + StoredStream(data[offset..]) == [0x78, 0x01] + StoredStream(data)
    {
      var len := if |data| - offset < 0xffff then |data| - offset else 0xffff;
      var last: byte := if offset + len == |data| then 1 else 0;
      ghost var before, rest := out, data[offset..];
      out := out + [last];
      out := out + StoredBytes(data[offset..offset + len]);
      offset := offset + len;
      assert data[offset..] == rest[len..] && data[offset - len..offset] == rest[..len];
      if last == 1 {
        assert rest[..len] == rest && out == before + ([1] + StoredBytes(rest));
      } else {
        assert out + StoredStream(rest[len..]) == before + ([0] + StoredBytes(rest[..len]) + StoredStream(rest[len..]));
      }
    }
    out := out + adler;
  }

  lemma {:induction false} FlagByte(last: bit)
    ensures Unpack([last]) == [last] + (LeBits(0, 2) + [0, 0, 0, 0, 0])
  {
    assert Unpack([last]) == LeBits(last, 8) + [];
    assert LeBits(last, 8) == [last] + LeBits(0, 7);
    assert LeBits(0, 7) == [0] + LeBits(0, 6);
    assert LeBits(0, 6) == [0] + LeBits(0, 5);
    assert LeBits(0, 5) == [0, 0, 0, 0, 0];
    assert LeBits(0, 2) == [0, 0];
  }

  /** One printed stored block: a flag byte, the two length fields, the data. */
  lemma {:induction false} StoredBlockBits(last: bit, data: seq<byte>, p: nat, out: seq<byte>)
    requires |data| <= 0xffff && p % 8 == 0
    ensures var b := StoredBlock([0, 0, 0, 0, 0], data);
            && BlockValid(b, p + 1, out) && BlockMeaning(b, p + 1, out) == out + data
            && [last] + BlockBits(b, p + 1, out) == Unpack([last] + StoredBytes(data))
  {
    hide Unpack, LeBits, StoredBytes;
    FlagByte(last);
    UnpackConcat([last], StoredBytes(data));
  }

  lemma {:induction false} StoredStreamIsDeflate(data: seq<byte>, p: nat, out: seq<byte>)
    requires data != [] && p % 8 == 0
    ensures StreamValid(StoredBlocks(data), p, out)
    ensures StreamBits(StoredBlocks(data), p, out) == Unpack(StoredStream(data))
    ensures StreamMeaning(StoredBlocks(data), p, out) == out + data
    decreases |data|
  {
    hide Unpack, BlockBits, BlockValid, BlockMeaning, StoredBytes;
    var bs := StoredBlocks(data);
    if |data| <= 0xffff {
      StoredBlockBits(1, data, p, out);
    } else {
      var d, rest := data[..0xffff], data[0xffff..];
      StoredBlockBits(0, d, p, out);
      var b := bs[0];
      assert bs[1..] == StoredBlocks(rest);
      var q := p + 1 + |BlockBits(b, p + 1, out)|;
      assert q == p + |Unpack([0] + StoredBytes(d))|;
      StoredStreamIsDeflate(rest, q, out + d);
      UnpackConcat([0] + StoredBytes(d), StoredStream(rest));
      assert out + d + rest == out + data by { assert d + rest == data; }
    }
  }

  /** What `zlib_stored` prints is a zlib stream of its input, whatever the trailing check value. */
  lemma {:induction false} StoredIsZlib(data: seq<byte>, adler: seq<byte>)
    requires data != []
    ensures IsZlibOf([0x78, 0x01] + StoredStream(data) + adler, data)
  {
    hide Unpack, StreamValid, StreamBits, StreamMeaning, StoredStream;
    var z := [0x78, 0x01] + StoredStream(data) + adler;
    assert z[2..] == StoredStream(data) + adler;
    StoredStreamIsDeflate(data, 0, []);
    UnpackConcat(StoredStream(data), adler);
    assert IsDeflateOf(z[2..], StoredBlocks(data), data);
  }

  /** The printer of the verification run and of the decoder's tests: three chunks, one of them IDAT. */
  lemma {:induction false} PrintedPngDecodes(image: Image, filters: seq<byte>, adler: seq<byte>, crcs: seq<seq<byte>>,
                                             max: nat)
    requires 1 <= image.width < 0x1_0000_0000 && 1 <= image.height < 0x1_0000_0000
    requires var channels := if image.alpha then 4 else 3;
             |image.data| == image.width * channels * image.height && image.width * channels >= 1
    requires |filters| == image.height && forall y :: 0 <= y < |filters| ==> filters[y] <= 4
    requires |crcs| == 3 && |crcs[0]| == |crcs[1]| == |crcs[2]| == 4
    requires |ImageZlib(image, filters, adler)| < 0x1_0000_0000
    ensures DecodeSpec(PrintPng(image, filters, adler, crcs), max) ==
            if |image.data| <= max then Ok(image) else Err(OverLimit)
  {
    hide Filtered, StoredStream, DecodeSpec, ChunkBytes, HeaderPayload, IsZlibOf;
    var channels := if image.alpha then 4 else 3;
    var raw := Filtered(image.data, filters, image.width * channels, channels);
    var z := ImageZlib(image, filters, adler);
    StoredIsZlib(raw, adler) by {
      assert |filters| * (image.width * channels + 1) >= 1;
    }
    var head := Chunk(IHDR, HeaderPayload(image.width, image.height, image.alpha), crcs[0]);
    var idat, end := Chunk(IDAT, z, crcs[1]), Chunk(IEND, [], crcs[2]);
    assert [head] + [idat] + [end] == [head, idat, end];
    assert Payloads([idat]) == z by {
      assert [idat][1..] == [];
      assert z + [] == z;
    }
    assert IsPngOf(PrintPng(image, filters, adler, crcs), head, [idat], end, image, filters);
    PngRoundTrips(PrintPng(image, filters, adler, crcs), head, [idat], end, image, filters, max);
  }

  function ImageZlib(image: Image, filters: seq<byte>, adler: seq<byte>): seq<byte>
    requires var channels := if image.alpha then 4 else 3;
             |image.data| == image.width * channels * image.height && image.width * channels >= 1
    requires |filters| == image.height
  {
    var channels := if image.alpha then 4 else 3;
    [0x78, 0x01] + StoredStream(Filtered(image.data, filters, image.width * channels, channels)) + adler
  }

  function PrintPng(image: Image, filters: seq<byte>, adler: seq<byte>, crcs: seq<seq<byte>>): seq<byte>
    requires image.width < 0x1_0000_0000 && image.height < 0x1_0000_0000
    requires var channels := if image.alpha then 4 else 3;
             |image.data| == image.width * channels * image.height && image.width * channels >= 1
    requires |filters| == image.height
    requires |crcs| == 3 && |crcs[0]| == |crcs[1]| == |crcs[2]| == 4
    requires |ImageZlib(image, filters, adler)| < 0x1_0000_0000
  {
    hide Filtered, StoredStream, ImageZlib;
    SIGNATURE + ChunksBytes([
                              Chunk(IHDR, HeaderPayload(image.width, image.height, image.alpha), crcs[0]),
                              Chunk(IDAT, ImageZlib(image, filters, adler), crcs[1]),
                              Chunk(IEND, [], crcs[2])])
  }
}
