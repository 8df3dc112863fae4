/** The PNG reader: chunk scan, zlib wrapper and row filters (sections 9.2 and 9.4 of the W3C PNG specification). */
module Png {
  import opened Bytes
  import Huffman
  import opened Inflate
  import Decoder

  datatype PngError =
    | NotPng
    | TruncatedChunk
    | ShortHeader
    | ZeroSized
    | DepthNotEight
    | Interlaced
    | NotTruecolour
    | NoHeader
    | OverLimit
    | NoZlibStream
    | NotDeflate
    | BadHeaderCheck
    | PresetDictionary
    | Deflate(error: Huffman.Error)
    | TooFewBytes
    | UnknownFilter

  datatype Ihdr = Ihdr(width: nat, height: nat, colour: byte)
  type Header = h: Ihdr | h.width >= 1 && h.height >= 1 witness Ihdr(1, 1, 2)
  datatype Image = Image(width: nat, height: nat, alpha: bool, data: seq<byte>)

  const SIGNATURE: seq<byte> := [0x89, 0x50, 0x4E, 0x47, 0x0D, 0x0A, 0x1A, 0x0A]
  const IHDR: seq<byte> := [0x49, 0x48, 0x44, 0x52]
  const IDAT: seq<byte> := [0x49, 0x44, 0x41, 0x54]
  const IEND: seq<byte> := [0x49, 0x45, 0x4E, 0x44]

  function Channels(h: Header): (r: nat)
    ensures r == 3 || r == 4
  {
    if h.colour == 6 then 4 else 3
  }

  function ParseHeader(b: seq<byte>): Result<Header, PngError>
  {
    if |b| < 13 then Err(ShortHeader)
    else if Be32(b) == 0 || Be32(b[4..]) == 0 then Err(ZeroSized)
    else if b[8] != 8 then Err(DepthNotEight)
    else if b[12] != 0 then Err(Interlaced)
    else if b[9] != 2 && b[9] != 6 then Err(NotTruecolour)
    else Ok(Ihdr(Be32(b), Be32(b[4..]), b[9]))
  }

  // ----- chunks -----

  datatype Scanned = Scanned(header: Option<Header>, idat: seq<byte>)

  /** The effect of one chunk other than IEND on what has been collected. */
  function Collect(kind: seq<byte>, payload: seq<byte>, acc: Scanned): (r: Result<Scanned, PngError>)
  {
    if kind == IHDR then
      var h := ParseHeader(payload);
      if h.Ok? then Ok(acc.(header := Some(h.value))) else Err(h.error)
    else if kind == IDAT then Ok(acc.(idat := acc.idat + payload))
    else Ok(acc)
  }

  function ScanFrom(bytes: seq<byte>, offset: nat, acc: Scanned): Result<Scanned, PngError>
    requires offset <= |bytes|
    decreases |bytes| - offset
  {
    if offset + 8 > |bytes| then Ok(acc)
    else
      var end := offset + 8 + Be32(bytes[offset..]);
      if end + 4 > |bytes| then Err(TruncatedChunk)
      else
        var kind := bytes[offset + 4..offset + 8];
        if kind == IEND then Ok(acc)
        else
          var next := Collect(kind, bytes[offset + 8..end], acc);
          if next.Err? then next else ScanFrom(bytes, end + 4, next.value)
  }

  method Scan(bytes: seq<byte>) returns (r: Result<Scanned, PngError>)
    requires |bytes| >= 8
    ensures r == ScanFrom(bytes, 8, Scanned(None, []))
  {
    hide Be32, ParseHeader;
    var offset := 8;
    var header: Option<Header> := None;
    var idat: seq<byte> := [];
    while offset + 8 <= |bytes|
      invariant 8 <= offset <= |bytes|
      invariant ScanFrom(bytes, offset, Scanned(header, idat)) == ScanFrom(bytes, 8, Scanned(None, []))
    {
      var len := Be32(bytes[offset..]);
      var kind := bytes[offset + 4..offset + 8];
      var start := offset + 8;
      var end := start + len;
      if end + 4 > |bytes| {
        return Err(TruncatedChunk);
      }
      if kind == IHDR {
        var h := ParseHeader(bytes[start..end]);
        if h.Err? { return Err(h.error); }
        header := Some(h.value);
      } else if kind == IDAT {
        idat := idat + bytes[start..end];
      } else if kind == IEND {
        return Ok(Scanned(header, idat));
      }
      offset := end + 4;
    }
    r := Ok(Scanned(header, idat));
  }

  // ----- zlib (section 2.2 of RFC 1950) -----

  function ZlibCheck(bytes: seq<byte>): Option<PngError>
  {
    if |bytes| < 2 then Some(NoZlibStream)
    else if bytes[0] % 16 != 8 then Some(NotDeflate)
    else if (bytes[0] as int * 256 + bytes[1] as int) % 31 != 0 then Some(BadHeaderCheck)
    else if (bytes[1] / 32) % 2 != 0 then Some(PresetDictionary)
    else None
  }

  function ZlibSpec(bytes: seq<byte>, max: nat): Result<seq<byte>, PngError>
  {
    var c := ZlibCheck(bytes);
    if c.Some? then Err(c.value)
    else
      var r := InflateSpec(bytes[2..], max);
      if r.Ok? then Ok(r.value) else Err(Deflate(r.error))
  }

  method Zlib(bytes: seq<byte>, max: nat) returns (r: Result<seq<byte>, PngError>)
    ensures r == ZlibSpec(bytes, max)
  {
    hide InflateSpec;
    var c := ZlibCheck(bytes);
    if c.Some? {
      return Err(c.value);
    }
    var d := Decoder.InflateBytes(bytes[2..], max);
    r := if d.Ok? then Ok(d.value) else Err(Deflate(d.error));
  }

  // ----- row filters -----

  function Abs(x: int): nat
  {
    if x < 0 then -x else x
  }

  function Paeth(a: byte, b: byte, c: byte): (r: byte)
    ensures var p := a as int + b as int - c as int;
            Abs(p - r) <= Abs(p - a) && Abs(p - r) <= Abs(p - b) && Abs(p - r) <= Abs(p - c)
    ensures r == a || r == b || r == c
    ensures var p := a as int + b as int - c as int;
            && (Abs(p - r) == Abs(p - a) ==> r == a)
            && (Abs(p - r) == Abs(p - b) < Abs(p - a) ==> r == b)
  {
    var p: int := a as int + b as int - c as int;
    var pa, pb, pc := Abs(p - a), Abs(p - b), Abs(p - c);
    if pa <= pb && pa <= pc then a else if pb <= pc then b else c
  }

  /** What a filter predicts from the bytes to the left, above, and above left. */
  function Predict(filter: byte, a: byte, b: byte, c: byte): byte
  {
    match filter
    case 1 => a
    case 2 => b
    case 3 => (a as int + b as int) / 2
    case 4 => Paeth(a, b, c)
    case _ => 0
  }

  /** The byte one pixel to the left, in the same row. */
  function Left(out: seq<byte>, k: nat, stride: nat, channels: nat): byte
    requires stride >= 1 && channels >= 1 && k <= |out|
  {
    RowParts(k, stride);
    if k % stride >= channels then out[k - channels] else 0
  }

  function Above(out: seq<byte>, k: nat, stride: nat): byte
    requires stride >= 1 && k <= |out|
  {
    if k >= stride then out[k - stride] else 0
  }

  function AboveLeft(out: seq<byte>, k: nat, stride: nat, channels: nat): byte
    requires stride >= 1 && k <= |out|
  {
    RowParts(k, stride);
    if k % stride >= channels && k >= stride then out[k - stride - channels] else 0
  }

  lemma {:induction false} RowParts(k: nat, stride: nat)
    requires stride >= 1
    ensures k % stride <= k && (k >= stride ==> k % stride <= k - stride)
  {
    var row := k / stride;
    assert k == row * stride + k % stride;
    assert row == 0 ==> row * stride == 0;
    assert row >= 1 ==> row * stride >= stride;
  }

  /** The prediction for byte `k` of the image from the bytes before it. */
  function PredictAt(filter: byte, out: seq<byte>, k: nat, stride: nat, channels: nat): byte
    requires stride >= 1 && channels >= 1 && k <= |out|
  {
    Predict(filter, Left(out, k, stride, channels), Above(out, k, stride), AboveLeft(out, k, stride, channels))
  }

  /** Byte `k` of the image comes after `k / stride + 1` filter bytes. */
  function DefilterFrom(raw: seq<byte>, stride: nat, channels: nat, n: nat, out: seq<byte>)
    : (r: Result<seq<byte>, PngError>)
    requires stride >= 1 && channels >= 1 && |out| <= n
    requires n > 0 ==> |raw| >= n + (n - 1) / stride + 1
    ensures r.Ok? ==> |r.value| == n
    decreases n - |out|
  {
    var k := |out|;
    if k == n then Ok(out)
    else
      var row := k / stride;
      RowWithin(k, n, stride, |raw|);
      var filter := raw[row * (stride + 1)];
      if filter > 4 then Err(UnknownFilter)
      else
        var pixel := (raw[k + row + 1] + PredictAt(filter, out, k, stride, channels)) % 256;
        DefilterFrom(raw, stride, channels, n, out + [pixel])
  }

  lemma {:induction false} RowStart(k: nat, n: nat, stride: nat)
    requires stride >= 1 && k < n
    ensures (k / stride) * (stride + 1) <= k + k / stride
    ensures k / stride <= (n - 1) / stride
  {
    var row := k / stride;
    assert row * (stride + 1) == row * stride + row;
    assert row * stride <= k;
    DivMono(k, n - 1, stride);
  }

  /** Both indices of a pixel's row stay inside data that is long enough. */
  lemma {:induction false} RowWithin(k: nat, n: nat, stride: nat, size: nat)
    requires stride >= 1 && k < n && size >= n + (n - 1) / stride + 1
    ensures 0 <= (k / stride) * (stride + 1) < size && k + k / stride + 1 < size
  {
    RowStart(k, n, stride);
    NonNegative(k / stride, stride + 1);
  }

  lemma {:induction false} NonNegative(x: nat, y: nat)
    ensures x * y >= 0
  {
  }

  lemma {:induction false} DivMono(a: nat, b: nat, d: nat)
    requires d >= 1 && a <= b
    ensures a / d <= b / d
  {
    var x, y := a / d, b / d;
    NotMore(x, y, d, a, b);
  }

  lemma {:induction false} NotMore(x: nat, y: nat, d: nat, a: nat, b: nat)
    requires d >= 1 && a <= b && x * d <= a && b < y * d + d
    ensures x <= y
  {
    if x > y { MulStep(y, x, d); }
  }

  lemma {:induction false} RowIndex(row: nat, i: nat, stride: nat)
    requires i < stride
    ensures (row * stride + i) / stride == row && (row * stride + i) % stride == i
  {
    QuotientIs(row * stride + i, stride, row, i);
  }

  /** All rows but the filter bytes: the last row of `height` is `height - 1`. */
  lemma {:induction false} RowCount(stride: nat, height: nat)
    requires stride >= 1 && height >= 1
    ensures stride * height >= 1
    ensures stride * height + (stride * height - 1) / stride + 1 == (stride + 1) * height
  {
    assert stride * height == (height - 1) * stride + stride;
    RowIndex(height - 1, stride - 1, stride);
  }

  function UnfilterSpec(raw: seq<byte>, h: Header, channels: nat): (r: Result<seq<byte>, PngError>)
    requires channels >= 1
  {
    var stride := h.width * channels;
    if |raw| < (stride + 1) * h.height then Err(TooFewBytes)
    else
      RowCount(stride, h.height);
      DefilterFrom(raw, stride, channels, stride * h.height, [])
  }

  /** The neighbours of the next byte, by its row and its place in the row. */
  lemma {:induction false} Neighbours(out: seq<byte>, stride: nat, channels: nat, row: nat, i: nat)
    requires i < stride && channels >= 1 && |out| / stride == row && |out| % stride == i
    requires i <= |out| && (row > 0 <==> |out| >= stride) && (row > 0 ==> i <= |out| - stride)
    ensures Left(out, |out|, stride, channels) == if i >= channels then out[|out| - channels] else 0
    ensures Above(out, |out|, stride) == if row > 0 then out[|out| - stride] else 0
    ensures AboveLeft(out, |out|, stride, channels) ==
            if i >= channels && row > 0 then out[|out| - stride - channels] else 0
  {
  }

  lemma {:induction false} DefilterStep(raw: seq<byte>, stride: nat, channels: nat, n: nat, out: seq<byte>, row: nat,
                                        i: nat)
    requires i < stride && channels >= 1 && |out| == row * stride + i < n
    requires |raw| >= n + (n - 1) / stride + 1
    ensures row * (stride + 1) < |raw| && row * (stride + 1) + 1 + i == |out| + row + 1 < |raw|
    ensures i <= |out| && (row > 0 <==> |out| >= stride) && (row > 0 ==> i <= |out| - stride)
    ensures var filter := raw[row * (stride + 1)];
            DefilterFrom(raw, stride, channels, n, out) ==
            if filter > 4 then Err(UnknownFilter)
            else
              var a := if i >= channels then out[|out| - channels] else 0;
              var b := if row > 0 then out[|out| - stride] else 0;
              var c := if i >= channels && row > 0 then out[|out| - stride - channels] else 0;
              DefilterFrom(raw, stride, channels, n,
                           out + [(raw[row * (stride + 1) + 1 + i] + Predict(filter, a, b, c)) % 256])
  {
    hide Predict;
    RowFacts(|out|, n, row, i, stride);
    RowWithin(|out|, n, stride, |raw|);
    Neighbours(out, stride, channels, row, i);
    hide Left, Above, AboveLeft;
  }

  lemma {:induction false} RowFacts(k: nat, n: nat, row: nat, i: nat, stride: nat)
    requires i < stride && k == row * stride + i < n
    ensures k / stride == row && k % stride == i && row <= (n - 1) / stride
    ensures row * (stride + 1) + i == k + row
    ensures row > 0 <==> k >= stride
    ensures row > 0 ==> i <= k - stride
  {
    RowIndex(row, i, stride);
    RowStart(k, n, stride);
    RowParts(k, stride);
    assert row == 0 ==> row * stride == 0;
    assert row >= 1 ==> row * stride >= stride;
    assert row * (stride + 1) == row * stride + row;
  }

  method UnfilterRow(raw: seq<byte>, out: array<byte>, row: nat, stride: nat, channels: nat)
    returns (r: Result<(), PngError>)
    requires stride >= 1 && channels >= 1 && row * stride + stride <= out.Length
    requires |raw| >= out.Length + (out.Length - 1) / stride + 1
    modifies out
    ensures r.Err? ==> DefilterFrom(raw, stride, channels, out.Length, old(out[..row * stride])) == Err(r.error)
    ensures r.Ok? ==> DefilterFrom(raw, stride, channels, out.Length, old(out[..row * stride])) ==
                      DefilterFrom(raw, stride, channels, out.Length, out[..row * stride + stride])
  {
    hide DefilterFrom, Predict;
    ghost var n := out.Length;
    var base := row * stride;
    ghost var spec := DefilterFrom(raw, stride, channels, n, out[..base]);
    for i := 0 to stride
      invariant DefilterFrom(raw, stride, channels, n, out[..base + i]) == spec
    {
      var k := base + i;
      ghost var prefix := out[..k];
      DefilterStep(raw, stride, channels, n, prefix, row, i);
      var filter := raw[row * (stride + 1)];
      var a := if i >= channels then out[k - channels] else 0;
      var b := if row > 0 then out[k - stride] else 0;
      var c := if i >= channels && row > 0 then out[k - stride - channels] else 0;
      if filter > 4 {
        return Err(UnknownFilter);
      }
      out[k] := (raw[row * (stride + 1) + 1 + i] + Predict(filter, a, b, c)) % 256;
      assert out[..k + 1] == prefix + [out[k]];
    }
    r := Ok(());
  }

  method Unfilter(raw: seq<byte>, h: Header, channels: nat) returns (r: Result<seq<byte>, PngError>)
    requires channels >= 1
    ensures r == UnfilterSpec(raw, h, channels)
  {
    hide DefilterFrom;
    var stride := h.width * channels;
    var expected := (stride + 1) * h.height;
    if |raw| < expected {
      return Err(TooFewBytes);
    }
    RowCount(stride, h.height);
    var out := new byte[stride * h.height](_ => 0);
    ghost var n, spec := out.Length, DefilterFrom(raw, stride, channels, out.Length, []);
    assert out[..0] == [];
    for row := 0 to h.height
      invariant row * stride <= n
      invariant DefilterFrom(raw, stride, channels, n, out[..row * stride]) == spec
    {
      RowFits(row, h.height, stride);
      var done := UnfilterRow(raw, out, row, stride, channels);
      if done.Err? { return Err(done.error); }
    }
    assert out[..h.height * stride] == out[..];
    Finished(raw, stride, channels, n, out[..]);
    r := Ok(out[..]);
  }

  lemma {:induction false} Finished(raw: seq<byte>, stride: nat, channels: nat, n: nat, out: seq<byte>)
    requires stride >= 1 && channels >= 1 && |out| == n > 0 && |raw| >= n + (n - 1) / stride + 1
    ensures DefilterFrom(raw, stride, channels, n, out) == Ok(out)
  {
  }

  lemma {:induction false} RowFits(row: nat, height: nat, stride: nat)
    requires row < height
    ensures row * stride + stride == (row + 1) * stride <= stride * height
  {
    var d := height - (row + 1);
    assert d * stride >= 0;
    assert stride * height == (row + 1) * stride + d * stride;
  }

  // ----- decode -----

  function DecodeSpec(bytes: seq<byte>, max: nat): Result<Image, PngError>
  {
    if |bytes| < 8 || bytes[..8] != SIGNATURE then Err(NotPng)
    else
      var scan := ScanFrom(bytes, 8, Scanned(None, []));
      if scan.Err? then Err(scan.error)
      else if scan.value.header.None? then Err(NoHeader)
      else FinishSpec(scan.value.header.value, scan.value.idat, max)
  }

  function FinishSpec(h: Header, idat: seq<byte>, max: nat): Result<Image, PngError>
  {
    var channels := Channels(h);
    var size := h.width * h.height * channels;
    if size > max then Err(OverLimit)
    else
      var raw := ZlibSpec(idat, size + h.height * 2);
      if raw.Err? then Err(raw.error)
      else
        var data := UnfilterSpec(raw.value, h, channels);
        if data.Err? then Err(data.error) else Ok(Image(h.width, h.height, channels == 4, data.value))
  }

  method DecodePng(bytes: seq<byte>, max: nat) returns (r: Result<Image, PngError>)
    ensures r == DecodeSpec(bytes, max)
  {
    hide ScanFrom, ZlibSpec, UnfilterSpec;
    if |bytes| < 8 || bytes[..8] != SIGNATURE {
      return Err(NotPng);
    }
    var scan := Scan(bytes);
    if scan.Err? { return Err(scan.error); }
    if scan.value.header.None? {
      return Err(NoHeader);
    }
    var h := scan.value.header.value;
    var channels := Channels(h);
    var size := h.width * h.height * channels;
    if size > max {
      return Err(OverLimit);
    }
    var raw := Zlib(scan.value.idat, size + h.height * 2);
    if raw.Err? { return Err(raw.error); }
    var data := Unfilter(raw.value, h, channels);
    if data.Err? { return Err(data.error); }
    r := Ok(Image(h.width, h.height, channels == 4, data.value));
  }
}
