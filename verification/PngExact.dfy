/** Which byte strings the PNG reader accepts, and as which image: both directions. */
module PngExact {
  import opened Bytes
  import opened Inflate
  import opened DeflateBlocks
  import opened Png
  import opened PngRoundTrip

  // ----- row filters -----

  /** Byte `k` of the pixels is what its row's filter gives from the bytes before it. */
  ghost predicate PixelFrom(raw: seq<byte>, stride: nat, channels: nat, pixels: seq<byte>, k: nat)
    requires stride >= 1 && channels >= 1 && k < |pixels|
  {
    var row := k / stride;
    && 0 <= row * (stride + 1) < |raw| && raw[row * (stride + 1)] <= 4
    && k + row + 1 < |raw|
    && pixels[k] == (raw[k + row + 1] + PredictAt(raw[row * (stride + 1)], pixels[..k], k, stride, channels)) % 256
  }

  /** One step of the reader appends a byte that every longer image keeps. */
  lemma {:induction false} DefilterNext(raw: seq<byte>, stride: nat, channels: nat, n: nat, out: seq<byte>)
    returns (next: seq<byte>)
    requires stride >= 1 && channels >= 1 && |out| < n && |raw| >= n + (n - 1) / stride + 1
    requires DefilterFrom(raw, stride, channels, n, out).Ok?
    ensures |next| == |out| + 1 && out <= next
    ensures DefilterFrom(raw, stride, channels, n, next) == DefilterFrom(raw, stride, channels, n, out)
    ensures forall pixels :: next <= pixels ==> PixelFrom(raw, stride, channels, pixels, |out|)
  {
    hide PredictAt;
    var k, row := |out|, |out| / stride;
    RowWithin(k, n, stride, |raw|);
    var filter := raw[row * (stride + 1)];
    next := out + [(raw[k + row + 1] + PredictAt(filter, out, k, stride, channels)) % 256];
    forall pixels | next <= pixels
      ensures PixelFrom(raw, stride, channels, pixels, k)
    {
      assert pixels[..k] == next[..k] == out && pixels[k] == next[k];
    }
  }

  lemma {:induction false} DefilterSound(raw: seq<byte>, stride: nat, channels: nat, n: nat, out: seq<byte>)
    requires stride >= 1 && channels >= 1 && |out| <= n
    requires n > 0 ==> |raw| >= n + (n - 1) / stride + 1
    requires DefilterFrom(raw, stride, channels, n, out).Ok?
    ensures var pixels := DefilterFrom(raw, stride, channels, n, out).value;
            out <= pixels && forall k :: |out| <= k < n ==> PixelFrom(raw, stride, channels, pixels, k)
    decreases n - |out|
  {
    if |out| < n {
      hide DefilterFrom, PixelFrom;
      var next := DefilterNext(raw, stride, channels, n, out);
      DefilterSound(raw, stride, channels, n, next);
    }
  }

  lemma {:induction false} RedoFilter(r: byte, p: byte)
    ensures ((r as int + p as int) % 256 - p as int) % 256 == r
  {
    assert r as int + p as int < 256 ==> (r as int + p as int) % 256 == r as int + p as int;
    assert r as int + p as int >= 256 ==> (r as int + p as int) % 256 == r as int + p as int - 256;
  }

  lemma {:induction false} PixelIsFiltered(raw: seq<byte>, stride: nat, channels: nat, pixels: seq<byte>, row: nat,
                                           i: nat)
    requires stride >= 1 && channels >= 1 && i < stride && row * stride + i < |pixels|
    requires PixelFrom(raw, stride, channels, pixels, row * stride + i)
    ensures 0 <= row * (stride + 1) && row * (stride + 1) + 1 + i < |raw| && raw[row * (stride + 1)] <= 4
    ensures raw[row * (stride + 1) + 1 + i] ==
            FilterByte(raw[row * (stride + 1)], pixels, row * stride + i, stride, channels)
  {
    hide PredictAt;
    var k := row * stride + i;
    RowFacts(k, |pixels|, row, i, stride);
    var filter := raw[row * (stride + 1)];
    PredictFromPrefix(filter, pixels, k, stride, channels);
    RedoFilter(raw[k + row + 1], PredictAt(filter, pixels, k, stride, channels));
  }

  /** The filter bytes of the rows. */
  function RowFilters(raw: seq<byte>, stride: nat, height: nat): (r: seq<byte>)
    requires forall y :: 0 <= y < height ==> RowInside(raw, stride, y)
    ensures |r| == height
    ensures forall y :: 0 <= y < height ==> RowInside(raw, stride, y) && r[y] == raw[y * (stride + 1)]
  {
    seq<byte>(height, y requires 0 <= y < height => assert RowInside(raw, stride, y); raw[y * (stride + 1)])
  }

  predicate RowInside(raw: seq<byte>, stride: nat, y: int)
  {
    0 <= y * (stride + 1) < |raw|
  }

  lemma {:induction false} FilteredSnoc(pixels: seq<byte>, filters: seq<byte>, stride: nat, channels: nat, row: nat)
    requires stride >= 1 && channels >= 1 && row < |filters| && stride * (row + 1) <= |pixels|
    ensures stride * row <= |pixels| && row * stride + stride <= |pixels|
    ensures Filtered(pixels, filters[..row + 1], stride, channels) ==
            Filtered(pixels, filters[..row], stride, channels)
            + FilteredRow(filters[row], pixels, row, stride, channels)
  {
    hide FilteredRow;
    RowFits(row, row + 1, stride);
    assert filters[..row + 1][..row] == filters[..row];
  }

  lemma {:induction false} SliceSplit(s: seq<byte>, a: nat, b: nat)
    requires a <= b <= |s|
    ensures s[..b] == s[..a] + s[a..b]
  {
  }

  /** Row by row, the filtered pixels are what the rows were read from. */
  lemma {:induction false} FilteredIsRaw(raw: seq<byte>, stride: nat, channels: nat, pixels: seq<byte>,
                                         filters: seq<byte>, m: nat)
    requires stride >= 1 && channels >= 1 && |pixels| == stride * |filters| && m <= |filters|
    requires |raw| >= |filters| * (stride + 1)
    requires forall y :: 0 <= y < |filters| ==> RowInside(raw, stride, y) && filters[y] == raw[y * (stride + 1)]
    requires forall k :: 0 <= k < |pixels| ==> PixelFrom(raw, stride, channels, pixels, k)
    ensures stride * m <= |pixels| && 0 <= m * (stride + 1) <= |raw|
    ensures Filtered(pixels, filters[..m], stride, channels) == raw[..m * (stride + 1)]
  {
    if m == 0 {
      assert stride * m == 0 && m * (stride + 1) == 0;
      assert raw[..0] == [] && filters[..0] == [];
    } else {
      hide FilterByte, PixelFrom, Filtered, FilteredRow;
      var row := m - 1;
      FilteredIsRaw(raw, stride, channels, pixels, filters, row);
      RowFits(row, |filters|, stride);
      RowFits(row, |filters|, stride + 1);
      FilteredSnoc(pixels, filters, stride, channels, row);
      RowIsRaw(raw, stride, channels, pixels, row);
      SliceSplit(raw, row * (stride + 1), m * (stride + 1));
    }
  }

  lemma {:induction false} RowIsRaw(raw: seq<byte>, stride: nat, channels: nat, pixels: seq<byte>, row: nat)
    requires stride >= 1 && channels >= 1 && row * stride + stride <= |pixels|
    requires 0 <= row * (stride + 1) && row * (stride + 1) + (stride + 1) <= |raw|
    requires forall k :: 0 <= k < |pixels| ==> PixelFrom(raw, stride, channels, pixels, k)
    ensures FilteredRow(raw[row * (stride + 1)], pixels, row, stride, channels) ==
            raw[row * (stride + 1)..row * (stride + 1) + (stride + 1)]
  {
    hide FilterByte, PixelFrom;
    var base := row * (stride + 1);
    var out := FilteredRow(raw[base], pixels, row, stride, channels);
    forall j | 0 <= j < stride + 1
      ensures out[j] == raw[base..base + (stride + 1)][j]
    {
      if j > 0 {
        PixelIsFiltered(raw, stride, channels, pixels, row, j - 1);
      }
    }
  }

  /** What the filter byte `f` and the data byte `x` say about byte `k` of the pixels, which stands at `i` in `row`:
      the data byte plus nothing, the byte one pixel back in the row, the byte above, half the sum of those two, or the
      Paeth choice among them and the byte above and one pixel back; outside the image a byte counts as zero. */
  predicate Undone(f: byte, x: byte, pixels: seq<byte>, k: nat, stride: nat, channels: nat, row: nat, i: nat)
    requires i <= k < |pixels| && (row > 0 ==> stride + i <= k)
  {
    var left: byte := if i >= channels then pixels[k - channels] else 0;
    var up: byte := if row > 0 then pixels[k - stride] else 0;
    var corner: byte := if i >= channels && row > 0 then pixels[k - stride - channels] else 0;
    && f <= 4
    && (f == 0 ==> pixels[k] == x)
    && (f == 1 ==> pixels[k] == (x + left) % 256)
    && (f == 2 ==> pixels[k] == (x + up) % 256)
    && (f == 3 ==> pixels[k] == (x + (left + up) / 2) % 256)
    && (f == 4 ==> pixels[k] == (x + Paeth(left, up, corner)) % 256)
  }

  lemma {:induction false} UndoneAt(f: byte, x: byte, pixels: seq<byte>, k: nat, stride: nat, channels: nat, row: nat,
                                    i: nat)
    requires i < stride && channels >= 1 && i <= k < |pixels| && k / stride == row && k % stride == i
    requires (row > 0 <==> k >= stride) && (row > 0 ==> stride + i <= k)
    requires f <= 4 && pixels[k] == (x + PredictAt(f, pixels[..k], k, stride, channels)) % 256
    ensures Undone(f, x, pixels, k, stride, channels, row, i)
  {
    hide Paeth;
    var out := pixels[..k];
    Neighbours(out, stride, channels, row, i);
    assert PredictAt(f, out, k, stride, channels) ==
           Predict(f, Left(out, k, stride, channels), Above(out, k, stride), AboveLeft(out, k, stride, channels));
    hide PredictAt, Left, Above, AboveLeft;
  }

  lemma {:induction false} PixelIsUndone(raw: seq<byte>, stride: nat, channels: nat, pixels: seq<byte>, row: nat,
                                         i: nat)
    requires stride >= 1 && channels >= 1 && i < stride && row * stride + i < |pixels|
    requires PixelFrom(raw, stride, channels, pixels, row * stride + i)
    ensures var k, at := row * stride + i, row * (stride + 1);
            && i <= k && (row > 0 ==> stride + i <= k) && 0 <= at && at + 1 + i < |raw|
            && Undone(raw[at], raw[at + 1 + i], pixels, k, stride, channels, row, i)
  {
    hide PredictAt, Undone;
    var k, at := row * stride + i, row * (stride + 1);
    RowFacts(k, |pixels|, row, i, stride);
    RowParts(k, stride);
    NonNegative(row, stride + 1);
    assert at + 1 + i == k + row + 1;
    UndoneAt(raw[at], raw[at + 1 + i], pixels, k, stride, channels, row, i);
  }

  /** Every byte of every accepted image is what the filter of its row makes of the data and the bytes before it. */
  lemma {:induction false} PixelLaw(raw: seq<byte>, h: Png.Header, channels: nat, row: nat, i: nat)
    requires channels >= 1 && UnfilterSpec(raw, h, channels).Ok? && row < h.height && i < h.width * channels
    ensures var pixels, stride := UnfilterSpec(raw, h, channels).value, h.width * channels;
            var k, at := row * stride + i, row * (stride + 1);
            && |pixels| == stride * h.height && i <= k < |pixels| && (row > 0 ==> stride + i <= k)
            && 0 <= at && at + 1 + i < |raw|
            && Undone(raw[at], raw[at + 1 + i], pixels, k, stride, channels, row, i)
  {
    hide DefilterFrom, PixelFrom, Undone;
    var stride := h.width * channels;
    RowCount(stride, h.height);
    DefilterSound(raw, stride, channels, stride * h.height, []);
    RowFits(row, h.height, stride);
    PixelIsUndone(raw, stride, channels, UnfilterSpec(raw, h, channels).value, row, i);
  }

  lemma {:induction false} DefilterFails(raw: seq<byte>, stride: nat, channels: nat, n: nat, out: seq<byte>)
    returns (k: nat)
    requires stride >= 1 && channels >= 1 && |out| <= n && (n > 0 ==> |raw| >= n + (n - 1) / stride + 1)
    requires DefilterFrom(raw, stride, channels, n, out).Err?
    ensures DefilterFrom(raw, stride, channels, n, out) == Err(UnknownFilter)
    ensures k < n && 0 <= k / stride * (stride + 1) < |raw| && raw[k / stride * (stride + 1)] > 4
    decreases n - |out|
  {
    hide PredictAt;
    k := |out|;
    RowWithin(k, n, stride, |raw|);
    var row := k / stride;
    var filter := raw[row * (stride + 1)];
    if filter <= 4 {
      k := DefilterFails(raw, stride, channels, n,
          out + [(raw[k + row + 1] + PredictAt(filter, out, k, stride, channels)) % 256]);
    }
  }

  /** Filtered data is refused if and only if it is too short or some row has an unknown filter. */
  lemma {:induction false} UnfilterRefuses(raw: seq<byte>, h: Png.Header, channels: nat)
    requires channels >= 1
    ensures var r, stride := UnfilterSpec(raw, h, channels), h.width * channels;
            && (r == Err(TooFewBytes) <==> |raw| < (stride + 1) * h.height)
            && (r == Err(UnknownFilter) <==>
                |raw| >= (stride + 1) * h.height
                && exists y :: 0 <= y < h.height && RowInside(raw, stride, y) && raw[y * (stride + 1)] > 4)
            && (r.Err? ==> r.error == TooFewBytes || r.error == UnknownFilter)
  {
    hide DefilterFrom, Undone;
    var r, stride := UnfilterSpec(raw, h, channels), h.width * channels;
    if |raw| >= (stride + 1) * h.height {
      RowCount(stride, h.height);
      var n := stride * h.height;
      if r.Err? {
        var k := DefilterFails(raw, stride, channels, n, []);
        DivMono(k, n - 1, stride);
        RowIndex(h.height - 1, stride - 1, stride);
        assert n - 1 == (h.height - 1) * stride + (stride - 1);
        assert RowInside(raw, stride, k / stride);
      } else {
        KnownFilters(raw, h, channels);
      }
    }
  }

  lemma {:induction false} FilterKnown(raw: seq<byte>, pixels: seq<byte>, stride: nat, channels: nat, y: nat)
    requires var k, at := y * stride + 0, y * (stride + 1);
             && 0 <= k < |pixels| && (y > 0 ==> stride <= k) && 0 <= at && at + 1 < |raw|
             && Undone(raw[at], raw[at + 1 + 0], pixels, k, stride, channels, y, 0)
    ensures raw[y * (stride + 1)] <= 4
  {
  }

  lemma {:induction false} Commutes(x: nat, y: nat)
    ensures x * y == y * x
  {
  }

  lemma {:induction false} KnownFilters(raw: seq<byte>, h: Png.Header, channels: nat)
    requires channels >= 1 && h.width * channels >= 1 && UnfilterSpec(raw, h, channels).Ok?
    ensures forall y :: 0 <= y < h.height ==>
              RowInside(raw, h.width * channels, y) && raw[y * (h.width * channels + 1)] <= 4
  {
    hide UnfilterSpec, Undone;
    forall y | 0 <= y < h.height
      ensures RowInside(raw, h.width * channels, y) && raw[y * (h.width * channels + 1)] <= 4
    {
      PixelLaw(raw, h, channels, y, 0);
      FilterKnown(raw, UnfilterSpec(raw, h, channels).value, h.width * channels, channels, y);
    }
  }

  /** The reader undoes some choice of filters: the one it read. */
  lemma {:induction false} UnfilterSound(raw: seq<byte>, h: Png.Header, channels: nat) returns (filters: seq<byte>)
    requires channels >= 1 && h.width * channels >= 1 && UnfilterSpec(raw, h, channels).Ok?
    ensures var pixels, stride := UnfilterSpec(raw, h, channels).value, h.width * channels;
            && |filters| == h.height && (forall y :: 0 <= y < |filters| ==> filters[y] <= 4)
            && |pixels| == stride * h.height && Filtered(pixels, filters, stride, channels) <= raw
  {
    hide Filtered, FilterByte, DefilterFrom, PixelFrom;
    var stride := h.width * channels;
    RowCount(stride, h.height);
    DefilterSound(raw, stride, channels, stride * h.height, []);
    KnownFilters(raw, h, channels);
    var pixels := UnfilterSpec(raw, h, channels).value;
    filters := RowFilters(raw, stride, h.height);
    Commutes(h.height, stride + 1);
    hide UnfilterSpec;
    FilteredIsRaw(raw, stride, channels, pixels, filters, h.height);
    assert filters[..h.height] == filters;
  }

  // ----- chunks -----

  /** The file ends with its IEND chunk and anything after it, or without one when no chunk header is left. */
  predicate Ends(cs: seq<Chunk>, tail: seq<byte>)
  {
    && (forall i :: 0 <= i < |cs| - 1 ==> cs[i].kind != IEND)
    && (|tail| < 8 || (cs != [] && cs[|cs| - 1].kind == IEND))
  }

  lemma {:induction false} EndsCons(c: Chunk, cs: seq<Chunk>, tail: seq<byte>)
    requires Ends(cs, tail) && c.kind != IEND
    ensures Ends([c] + cs, tail)
  {
    var all := [c] + cs;
    assert forall i :: 1 <= i < |all| ==> all[i] == cs[i - 1];
  }

  /** The chunk that starts here, when it is whole. */
  lemma {:induction false} ChunkHere(bytes: seq<byte>, offset: nat) returns (c: Chunk)
    requires offset + 8 <= |bytes| && offset + 8 + Be32(bytes[offset..]) + 4 <= |bytes|
    ensures c.Valid() && |c.payload| == Be32(bytes[offset..])
    ensures c.kind == bytes[offset + 4..offset + 8] && c.payload == bytes[offset + 8..offset + 8 + |c.payload|]
    ensures bytes[offset..] == ChunkBytes(c) + bytes[offset + 12 + |c.payload|..]
  {
    var b := bytes[offset..];
    var n := Be32(b);
    Be32Back(b);
    hide Be32, Be32Bytes;
    c := Chunk(b[4..8], b[8..8 + n], b[8 + n..12 + n]);
    assert b[..12 + n] == b[..4] + b[4..8] + b[8..8 + n] + b[8 + n..12 + n];
    assert b == b[..12 + n] + b[12 + n..];
    assert b[12 + n..] == bytes[offset + 12 + n..];
    assert b[8..8 + n] == bytes[offset + 8..offset + 8 + n];
  }

  /** Every scan that succeeds has read a list of chunks. */
  lemma {:induction false} ScanSound(bytes: seq<byte>, offset: nat, acc: Scanned)
    returns (cs: seq<Chunk>, tail: seq<byte>)
    requires offset <= |bytes| && ScanFrom(bytes, offset, acc).Ok?
    ensures AllValid(cs) && bytes[offset..] == ChunksBytes(cs) + tail && Ends(cs, tail)
    ensures CollectAll(cs, acc) == ScanFrom(bytes, offset, acc)
    decreases |bytes| - offset
  {
    hide Collect, Be32, ChunkBytes;
    if offset + 8 > |bytes| {
      cs, tail := [], bytes[offset..];
      assert ChunksBytes(cs) + tail == tail;
    } else {
      var c := ChunkHere(bytes, offset);
      var next := offset + 12 + |c.payload|;
      if c.kind == IEND {
        cs, tail := [c], bytes[next..];
        assert cs[1..] == [];
        assert ChunksBytes(cs) == ChunkBytes(c) + [] == ChunkBytes(c);
      } else {
        var more, end := ScanSound(bytes, next, Collect(c.kind, c.payload, acc).value);
        cs, tail := [c] + more, end;
        assert cs[0] == c && cs[1..] == more;
        EndsCons(c, more, end);
        assert ChunksBytes(cs) + tail == ChunkBytes(c) + (ChunksBytes(more) + end);
      }
    }
  }

  /** And every such list is scanned, with an IEND chunk or without. */
  lemma {:induction false} ScanReads(bytes: seq<byte>, offset: nat, cs: seq<Chunk>, tail: seq<byte>, acc: Scanned)
    requires AllValid(cs) && offset <= |bytes| && bytes[offset..] == ChunksBytes(cs) + tail && Ends(cs, tail)
    ensures ScanFrom(bytes, offset, acc) == CollectAll(cs, acc)
    decreases |cs|
  {
    hide Collect, Be32, ChunkBytes;
    if cs == [] {
      assert bytes[offset..] == tail;
    } else {
      var c := cs[0];
      var b := bytes[offset..];
      assert b == ChunkBytes(c) + (ChunksBytes(cs[1..]) + tail);
      ChunkAt(bytes, offset, c);
      if c.kind != IEND && Collect(c.kind, c.payload, acc).Ok? {
        var next := offset + 12 + |c.payload|;
        assert bytes[next..] == b[|ChunkBytes(c)|..] == ChunksBytes(cs[1..]) + tail;
        assert |cs| == 1 ==> |tail| < 8;
        assert forall i :: 0 <= i < |cs[1..]| ==> cs[1..][i] == cs[i + 1];
        assert Ends(cs[1..], tail);
        ScanReads(bytes, next, cs[1..], tail, Collect(c.kind, c.payload, acc).value);
      }
    }
  }

  // ----- the header and the image data -----

  function Ascii(s: string): seq<int>
  {
    seq(|s|, i requires 0 <= i < |s| => s[i] as int)
  }

  /** The chunk names and the signature are the ones of sections 5.2 and 5.6 of the W3C PNG specification. */
  lemma {:induction false} ChunkNames()
    ensures Ascii("IHDR") == IHDR && Ascii("IDAT") == IDAT && Ascii("IEND") == IEND
    ensures SIGNATURE == [137] + Ascii("PNG\r\n") + [26] + Ascii("\n")
  {
  }

  /** A header is accepted if and only if it is a printed one: sizes of at least one, eight bits, colour type 2 or 6, no
      interlace; the two bytes between and anything after are not read. */
  lemma {:induction false} HeaderExact(b: seq<byte>, w: nat, h: nat, c: byte)
    requires 1 <= w < 0x1_0000_0000 && 1 <= h < 0x1_0000_0000
    ensures ParseHeader(b) == Ok(Ihdr(w, h, c)) <==>
            && (c == 2 || c == 6)
            && exists x: byte, y: byte, rest: seq<byte> :: b == Be32Bytes(w) + Be32Bytes(h) + [8, c, x, y, 0] + rest
  {
    hide Be32, Be32Bytes;
    if ParseHeader(b) == Ok(Ihdr(w, h, c)) {
      Be32Back(b);
      Be32Back(b[4..]);
      var x, y, rest := b[10], b[11], b[13..];
      assert b == b[..4] + b[4..8] + b[8..13] + rest && b[4..8] == b[4..][..4];
      assert b[8..13] == [8, c, x, y, 0];
    }
    if exists x: byte, y: byte, rest: seq<byte> :: b == Be32Bytes(w) + Be32Bytes(h) + [8, c, x, y, 0] + rest {
      var x: byte, y: byte, rest: seq<byte> :| b == Be32Bytes(w) + Be32Bytes(h) + [8, c, x, y, 0] + rest;
      var tail: seq<byte> := [8, c, x, y, 0] + rest;
      assert b == Be32Bytes(w) + (Be32Bytes(h) + tail) && b[4..] == Be32Bytes(h) + tail && b[8..] == tail;
      Be32RoundTrip(w, Be32Bytes(h) + tail);
      Be32RoundTrip(h, tail);
      assert b[8] == tail[0] && b[9] == tail[1] && b[12] == tail[4];
    }
  }

  /** A refused header has the defect that the error names. */
  lemma {:induction false} HeaderRefuses(b: seq<byte>)
    ensures match ParseHeader(b)
            case Ok(_) => true
            case Err(ShortHeader) => |b| < 13
            case Err(ZeroSized) => |b| >= 13 && (b[..4] == [0, 0, 0, 0] || b[4..8] == [0, 0, 0, 0])
            case Err(DepthNotEight) => |b| >= 13 && b[8] != 8
            case Err(Interlaced) => |b| >= 13 && b[12] != 0
            case Err(NotTruecolour) => |b| >= 13 && b[9] !in [2, 6]
            case Err(_) => false
  {
    if |b| >= 13 {
      assert Be32(b) == 0 ==> b[..4] == [0, 0, 0, 0];
      assert Be32(b[4..]) == 0 ==> b[4..8] == [0, 0, 0, 0];
    }
  }

  /** The two header bytes of section 2.2 of RFC 1950: method 8 under a window size, a level, no preset dictionary, and
      check bits that make the two bytes a multiple of 31. */
  predicate ZlibHeader(first: int, second: int, window: int, level: int, check: int, m: int)
  {
    && 0 <= window < 16 && 0 <= level < 4 && 0 <= check < 32
    && first == 16 * window + 8 && second == 64 * level + check && 256 * first + second == 31 * m
  }

  /** A zlib header is accepted if and only if it is a printed one. */
  lemma {:induction false} ZlibHeaderExact(z: seq<byte>)
    requires |z| >= 2
    ensures ZlibCheck(z).None? <==> exists window, level, check, m :: ZlibHeader(z[0], z[1], window, level, check, m)
  {
    var first: int, second: int := z[0], z[1];
    hide ZlibHeader;
    if ZlibCheck(z).None? {
      PrintedHeader(first, second);
    }
    if window, level, check, m :| ZlibHeader(first, second, window, level, check, m) {
      ReadHeader(first, second, window, level, check, m);
    }
  }

  lemma {:induction false} PrintedHeader(first: nat, second: nat)
    requires first < 256 && second < 256
    requires first % 16 == 8 && second / 32 % 2 == 0 && (first * 256 + second) % 31 == 0
    ensures ZlibHeader(first, second, first / 16, second / 64, second % 64, (256 * first + second) / 31)
  {
    assert second % 64 < 32 by { assert second == 64 * (second / 32 / 2) + second % 32; }
  }

  lemma {:induction false} ReadHeader(first: nat, second: nat, window: nat, level: nat, check: nat, m: int)
    requires ZlibHeader(first, second, window, level, check, m)
    ensures first % 16 == 8 && second / 32 % 2 == 0 && (first * 256 + second) % 31 == 0
  {
    assert second / 32 == 2 * level;
    NoRemainder(256 * first + second, m);
  }

  lemma {:induction false} NoRemainder(x: nat, m: int)
    requires x == 31 * m
    ensures x % 31 == 0
  {
  }

  predicate HeadersParse(cs: seq<Chunk>)
  {
    forall i :: 0 <= i < |cs| && cs[i].kind == IHDR ==> ParseHeader(cs[i].payload).Ok?
  }

  /** The header that counts is the last one. */
  ghost predicate HeaderIs(cs: seq<Chunk>, h: Png.Header)
  {
    exists k :: LastHeader(cs, k) && ParseHeader(cs[k].payload) == Ok(h)
  }

  predicate LastHeader(cs: seq<Chunk>, k: int)
  {
    0 <= k < |cs| && cs[k].kind == IHDR && forall i :: k < i < |cs| ==> cs[i].kind != IHDR
  }

  function Found(cs: seq<Chunk>, before: Option<Png.Header>): Option<Png.Header>
    requires HeadersParse(cs)
  {
    if cs == [] then before
    else
      assert HeadersParse(cs[1..]) by { assert forall i :: 0 <= i < |cs[1..]| ==> cs[1..][i] == cs[i + 1]; }
      Found(cs[1..], if cs[0].kind == IHDR then Some(ParseHeader(cs[0].payload).value) else before)
  }

  lemma {:induction false} HeadersCons(cs: seq<Chunk>)
    requires cs != []
    ensures HeadersParse(cs) <==> (cs[0].kind == IHDR ==> ParseHeader(cs[0].payload).Ok?) && HeadersParse(cs[1..])
  {
    hide ParseHeader;
    assert forall i :: 0 <= i < |cs[1..]| ==> cs[1..][i] == cs[i + 1];
    assert forall i :: 1 <= i < |cs| ==> cs[i] == cs[1..][i - 1];
  }

  lemma {:induction false} CollectExact(cs: seq<Chunk>, acc: Scanned)
    requires forall i :: 0 <= i < |cs| - 1 ==> cs[i].kind != IEND
    ensures CollectAll(cs, acc).Ok? <==> HeadersParse(cs)
    ensures HeadersParse(cs) ==> CollectAll(cs, acc) == Ok(Scanned(Found(cs, acc.header), acc.idat + Payloads(cs)))
    decreases |cs|
  {
    hide ParseHeader, HeadersParse;
    if cs == [] {
      assert acc.idat + [] == acc.idat;
      NoHeaders(cs);
    } else if cs[0].kind == IEND {
      assert |cs| == 1 && cs[1..] == [];
      HeadersCons(cs);
      NoHeaders(cs[1..]);
      assert Payloads(cs) == [] + [];
      assert acc.idat + [] == acc.idat;
    } else {
      HeadersCons(cs);
      assert forall i :: 0 <= i < |cs[1..]| ==> cs[1..][i] == cs[i + 1];
      var next := Collect(cs[0].kind, cs[0].payload, acc);
      if next.Ok? {
        CollectExact(cs[1..], next.value);
        var part := if cs[0].kind == IDAT then cs[0].payload else [];
        assert next.value.idat == acc.idat + part;
        assert next.value.idat + Payloads(cs[1..]) == acc.idat + (part + Payloads(cs[1..]));
      }
    }
  }

  lemma {:induction false} NoHeaders(cs: seq<Chunk>)
    requires cs == []
    ensures HeadersParse(cs)
  {
  }

  lemma {:induction false} FoundExact(cs: seq<Chunk>, before: Option<Png.Header>, h: Png.Header)
    requires HeadersParse(cs)
    ensures Found(cs, before) == Some(h) <==>
            HeaderIs(cs, h) || (before == Some(h) && forall i :: 0 <= i < |cs| ==> cs[i].kind != IHDR)
    decreases |cs|
  {
    hide ParseHeader;
    if cs != [] {
      var rest := cs[1..];
      assert forall i :: 0 <= i < |rest| ==> rest[i] == cs[i + 1];
      assert HeadersParse(rest);
      var now := if cs[0].kind == IHDR then Some(ParseHeader(cs[0].payload).value) else before;
      FoundExact(rest, now, h);
      if k :| LastHeader(rest, k) && ParseHeader(rest[k].payload) == Ok(h) {
        assert LastHeader(cs, k + 1) && ParseHeader(cs[k + 1].payload) == Ok(h);
      }
      if k :| LastHeader(cs, k) && ParseHeader(cs[k].payload) == Ok(h) {
        if k > 0 {
          assert LastHeader(rest, k - 1) && ParseHeader(rest[k - 1].payload) == Ok(h);
        }
      }
      if now == Some(h) && forall i :: 0 <= i < |rest| ==> rest[i].kind != IHDR {
        if cs[0].kind == IHDR {
          assert LastHeader(cs, 0) && ParseHeader(cs[0].payload) == Ok(h);
        }
      }
    }
  }

  // ----- whole files -----

  /** How a file says an image: its chunks, what follows them, the DEFLATE blocks of the image data, the filtered
      bytes they stand for, and the filter of each row. */
  datatype Reading = Reading(chunks: seq<Chunk>, tail: seq<byte>, blocks: seq<DeflateBlock>, raw: seq<byte>,
      filters: seq<byte>)

  ghost predicate IsFile(bytes: seq<byte>, cs: seq<Chunk>, tail: seq<byte>)
  {
    AllValid(cs) && bytes == SIGNATURE + ChunksBytes(cs) + tail && Ends(cs, tail) && HeadersParse(cs)
  }

  /** The image data is a zlib stream, within the limit, that starts with the filtered pixels. */
  ghost predicate CarriesPixels(z: seq<byte>, r: Reading, image: Image)
  {
    var channels := if image.alpha then 4 else 3;
    var stride := image.width * channels;
    && |image.data| == stride * image.height && stride >= 1
    && ZlibCheck(z).None? && |z| >= 2 && IsDeflateOf(z[2..], r.blocks, r.raw)
    && StreamWithinLimit(r.blocks, 0, [], |image.data| + image.height * 2)
    && |r.filters| == image.height && (forall y :: 0 <= y < |r.filters| ==> r.filters[y] <= 4)
    && Filtered(image.data, r.filters, stride, channels) <= r.raw
  }

  function HeaderOf(image: Image): Ihdr
  {
    Ihdr(image.width, image.height, if image.alpha then 6 else 2)
  }

  ghost predicate Says(bytes: seq<byte>, r: Reading, image: Image)
  {
    && image.width >= 1 && image.height >= 1
    && IsFile(bytes, r.chunks, r.tail) && HeaderIs(r.chunks, HeaderOf(image))
    && CarriesPixels(Payloads(r.chunks), r, image)
  }

  lemma {:induction false} ZlibExact(z: seq<byte>, raw: seq<byte>, max: nat)
    ensures ZlibSpec(z, max) == Ok(raw) <==>
            && ZlibCheck(z).None? && |z| >= 2
            && exists bs :: IsDeflateOf(z[2..], bs, raw) && StreamWithinLimit(bs, 0, [], max)
  {
    hide IsDeflateOf, StreamWithinLimit, InflateSpec;
    if ZlibCheck(z).None? {
      InflateExact(z[2..], raw, max);
    }
  }

  lemma {:induction false} ScanExact(bytes: seq<byte>, h: Png.Header, idat: seq<byte>)
    requires |bytes| >= 8 && bytes[..8] == SIGNATURE
    ensures ScanFrom(bytes, 8, Scanned(None, [])) == Ok(Scanned(Some(h), idat)) <==>
            exists cs, tail :: IsFile(bytes, cs, tail) && HeaderIs(cs, h) && Payloads(cs) == idat
  {
    hide ScanFrom, ChunksBytes, Payloads, HeaderIs, Found, HeadersParse, CollectAll;
    var start := Scanned(None, []);
    assert bytes == SIGNATURE + bytes[8..];
    if ScanFrom(bytes, 8, start) == Ok(Scanned(Some(h), idat)) {
      var cs, tail := ScanSound(bytes, 8, start);
      CollectExact(cs, start);
      FoundExact(cs, None, h);
      assert [] + Payloads(cs) == Payloads(cs);
      assert SIGNATURE + (ChunksBytes(cs) + tail) == SIGNATURE + ChunksBytes(cs) + tail;
      assert IsFile(bytes, cs, tail);
    }
    if cs, tail :| IsFile(bytes, cs, tail) && HeaderIs(cs, h) && Payloads(cs) == idat {
      assert bytes[8..] == ChunksBytes(cs) + tail;
      ScanReads(bytes, 8, cs, tail, start);
      CollectExact(cs, start);
      FoundExact(cs, None, h);
      assert [] + Payloads(cs) == Payloads(cs);
    }
  }

  lemma {:induction false} FinishExact(h: Png.Header, idat: seq<byte>, image: Image, max: nat)
    requires h.colour == 2 || h.colour == 6
    ensures FinishSpec(h, idat, max) == Ok(image) <==>
            h == HeaderOf(image) && |image.data| <= max && exists r: Reading :: CarriesPixels(idat, r, image)
  {
    hide ZlibSpec, UnfilterSpec, Filtered, StreamBits, StreamMeaning, StreamValid, StreamWithinLimit, ZlibCheck, Unpack;
    var channels := Channels(h);
    SizeFacts(h.width, h.height, channels);
    var stride := h.width * channels;
    assert stride >= 1;
    if FinishSpec(h, idat, max) == Ok(image) {
      var size := h.width * h.height * channels;
      var raw := ZlibSpec(idat, size + h.height * 2).value;
      ZlibExact(idat, raw, size + h.height * 2);
      var bs :| IsDeflateOf(idat[2..], bs, raw) && StreamWithinLimit(bs, 0, [], size + h.height * 2);
      var filters := UnfilterSound(raw, h, channels);
      var r := Reading([], [], bs, raw, filters);
      assert CarriesPixels(idat, r, image);
    }
    if h == HeaderOf(image) && |image.data| <= max {
      if r: Reading :| CarriesPixels(idat, r, image) {
        ZlibExact(idat, r.raw, |image.data| + image.height * 2);
        UnfilterInverts(r.raw, h, channels, image.data, r.filters);
      }
    }
  }

  lemma {:induction false} ColourOfHeader(cs: seq<Chunk>, h: Png.Header)
    requires HeaderIs(cs, h)
    ensures h.colour == 2 || h.colour == 6
  {
  }

  /** The reader accepts a byte string as an image if and only if some reading of it says that image and the pixels
      fit the limit. */
  lemma {:induction false} DecodeExact(bytes: seq<byte>, image: Image, max: nat)
    ensures DecodeSpec(bytes, max) == Ok(image) <==> |image.data| <= max && exists r :: Says(bytes, r, image)
  {
    hide ScanFrom, FinishSpec, IsFile, HeaderIs, CarriesPixels, Payloads;
    if DecodeSpec(bytes, max) == Ok(image) {
      var scan := ScanFrom(bytes, 8, Scanned(None, [])).value;
      var h := scan.header.value;
      ScanExact(bytes, h, scan.idat);
      var cs, tail :| IsFile(bytes, cs, tail) && HeaderIs(cs, h) && Payloads(cs) == scan.idat;
      ColourOfHeader(cs, h);
      FinishExact(h, scan.idat, image, max);
      var r: Reading :| CarriesPixels(scan.idat, r, image);
      var whole := r.(chunks := cs, tail := tail);
      SameReading(scan.idat, r, whole, image);
      assert Says(bytes, whole, image);
    }
    if |image.data| <= max {
      if r :| Says(bytes, r, image) {
        SignatureOf(bytes, r.chunks, r.tail);
        var h: Png.Header := HeaderOf(image);
        ScanExact(bytes, h, Payloads(r.chunks));
        ColourOfHeader(r.chunks, h);
        FinishExact(h, Payloads(r.chunks), image, max);
      }
    }
  }

  lemma {:induction false} SameReading(z: seq<byte>, r: Reading, s: Reading, image: Image)
    requires CarriesPixels(z, r, image) && s.blocks == r.blocks && s.raw == r.raw && s.filters == r.filters
    ensures CarriesPixels(z, s, image)
  {
  }

  lemma {:induction false} SignatureOf(bytes: seq<byte>, cs: seq<Chunk>, tail: seq<byte>)
    requires IsFile(bytes, cs, tail)
    ensures |bytes| >= 8 && bytes[..8] == SIGNATURE
  {
    assert bytes == SIGNATURE + (ChunksBytes(cs) + tail);
  }
}
