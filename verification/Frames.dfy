/** The framed stream: one length-prefixed frame after another, over a reader that may return less than asked. */
module Frames {
  import opened Bytes

  const MAX_FRAME: nat := 64 * 1024 * 1024
  const BLOB_CHUNK: nat := 8 * 1024 * 1024
  const KIND_CBOR: byte := 1
  const KIND_BLOB: byte := 2

  datatype FrameError = UnexpectedEof | TooLarge | MalformedCbor | UnknownKind
  datatype Frame = Cbor(payload: seq<byte>) | Blob(payload: seq<byte>)

  // ----- what one read returns -----

  datatype Parsed = End | Failed(error: FrameError) | Next(frame: Frame, rest: seq<byte>)

  /** One frame off the front of the bytes; `cbor` says which payloads the CBOR reader accepts. */
  function ParseFrame(cbor: seq<byte> -> bool, data: seq<byte>): Parsed
  {
    if data == [] then End
    else if |data| < 5 then Failed(UnexpectedEof)
    else
      var len := Be32(data);
      if len > MAX_FRAME then Failed(TooLarge)
      else if |data| < 5 + len then Failed(UnexpectedEof)
      else
        var payload, rest := data[5..5 + len], data[5 + len..];
        if data[4] == KIND_CBOR then (if cbor(payload) then Next(Cbor(payload), rest) else Failed(MalformedCbor))
        else if data[4] == KIND_BLOB then Next(Blob(payload), rest)
        else Failed(UnknownKind)
  }

  /** A byte source. `pace` is how much each coming read returns at most; zero stands for an interruption. */
  class Reader {
    var data: seq<byte>
    var pace: seq<nat>

    constructor (data: seq<byte>, pace: seq<nat>)
      ensures this.data == data && this.pace == pace
    {
      this.data := data;
      this.pace := pace;
    }

    /** At least one byte unless the source is empty, nothing is asked for, or the call is interrupted. */
    method Read(want: nat) returns (interrupted: bool, got: seq<byte>)
      modifies this
      ensures old(data) == got + data && |got| <= want && |pace| <= |old(pace)|
      ensures interrupted ==> got == [] && |pace| < |old(pace)|
      ensures !interrupted && got == [] ==> want == 0 || old(data) == []
    {
      var most := if pace == [] then want else pace[0];
      interrupted := pace != [] && most == 0;
      if pace != [] { pace := pace[1..]; }
      var n := if most < want then most else want;
      if n > |data| { n := |data|; }
      got := data[..n];
      data := data[n..];
    }
  }

  /** Fills a buffer of `n` bytes over as many reads as it takes. */
  method ReadExactOrEof(r: Reader, n: nat) returns (res: Result<Option<seq<byte>>, FrameError>)
    modifies r
    ensures |old(r.data)| >= n ==> res == Ok(Some(old(r.data)[..n])) && r.data == old(r.data)[n..]
    ensures 0 < |old(r.data)| < n ==> res == Err(UnexpectedEof)
    ensures old(r.data) == [] && n > 0 ==> res == Ok(None)
  {
    var buffer: seq<byte> := [];
    ghost var all := r.data;
    while |buffer| < n
      invariant |buffer| <= n && buffer + r.data == all
      decreases n - |buffer|, |r.pace|
    {
      var interrupted, got := r.Read(n - |buffer|);
      if !interrupted && got == [] {
        assert buffer == all;
        return if |buffer| == 0 then Ok(None) else Err(UnexpectedEof);
      }
      buffer := buffer + got;
    }
    assert |buffer| == n;
    assert all[..n] == buffer;
    assert all[n..] == r.data;
    res := Ok(Some(buffer));
  }

  /** The standard exact read: end of file anywhere is an error. */
  method ReadExact(r: Reader, n: nat) returns (res: Result<seq<byte>, FrameError>)
    modifies r
    ensures |old(r.data)| >= n ==> res == Ok(old(r.data)[..n]) && r.data == old(r.data)[n..]
    ensures |old(r.data)| < n ==> res == Err(UnexpectedEof)
  {
    var got := ReadExactOrEof(r, n);
    match got {
      case Ok(Some(b)) => res := Ok(b);
      case _ => res := Err(UnexpectedEof);
    }
  }

  /** However the bytes arrive, one read returns what the front of the stream says. */
  method ReadFrame(cbor: seq<byte> -> bool, r: Reader) returns (res: Result<Option<Frame>, FrameError>)
    modifies r
    ensures match ParseFrame(cbor, old(r.data))
            case End => res == Ok(None)
            case Failed(e) => res == Err(e)
            case Next(f, rest) => res == Ok(Some(f)) && r.data == rest
  {
    ghost var all := r.data;
    var header := ReadExactOrEof(r, 5);
    if header.Err? { return Err(header.error); }
    if header.value.None? { return Ok(None); }
    var h := header.value.value;
    assert Be32(h) == Be32(all);
    var len := Be32(h);
    if len > MAX_FRAME {
      return Err(TooLarge);
    }
    var payload := ReadExact(r, len);
    if payload.Err? { return Err(payload.error); }
    assert payload.value == all[5..5 + len] && r.data == all[5 + len..];
    if h[4] == KIND_CBOR {
      res := if cbor(payload.value) then Ok(Some(Cbor(payload.value))) else Err(MalformedCbor);
    } else if h[4] == KIND_BLOB {
      res := Ok(Some(Blob(payload.value)));
    } else {
      res := Err(UnknownKind);
    }
  }

  // ----- writing -----

  function KindOf(f: Frame): byte
  {
    if f.Cbor? then KIND_CBOR else KIND_BLOB
  }

  function Encode(f: Frame): (r: seq<byte>)
    requires |f.payload| <= MAX_FRAME
    ensures |r| == 5 + |f.payload|
  {
    Be32Bytes(|f.payload|) + [KindOf(f)] + f.payload
  }

  method WriteRaw(out: seq<byte>, f: Frame) returns (r: Result<seq<byte>, FrameError>)
    ensures r == if |f.payload| <= MAX_FRAME then Ok(out + Encode(f)) else Err(TooLarge)
  {
    if |f.payload| >= 0x1_0000_0000 {
      return Err(TooLarge);
    }
    var len := |f.payload|;
    if len > MAX_FRAME {
      return Err(TooLarge);
    }
    var header := Be32Bytes(len) + [KindOf(f)];
    r := Ok(out + header + f.payload);
    assert out + header + f.payload == out + Encode(f);
  }

  /** The frames that a blob is split into: none for an empty one. */
  function Chunks(bytes: seq<byte>): (r: seq<Frame>)
    ensures forall i :: 0 <= i < |r| ==> r[i].Blob? && 0 < |r[i].payload| <= BLOB_CHUNK
    decreases |bytes|
  {
    if bytes == [] then []
    else if |bytes| <= BLOB_CHUNK then [Blob(bytes)]
    else [Blob(bytes[..BLOB_CHUNK])] + Chunks(bytes[BLOB_CHUNK..])
  }

  predicate AllFit(fs: seq<Frame>)
  {
    forall i :: 0 <= i < |fs| ==> |fs[i].payload| <= MAX_FRAME
  }

  function EncodeAll(fs: seq<Frame>): seq<byte>
    requires AllFit(fs)
  {
    if fs == [] then [] else Encode(fs[0]) + EncodeAll(fs[1..])
  }

  method WriteBlob(start: seq<byte>, bytes: seq<byte>) returns (out: seq<byte>)
    ensures out == start + EncodeAll(Chunks(bytes))
  {
    hide Encode;
    out := start;
    var offset := 0;
    assert bytes[0..] == bytes;
    while offset < |bytes|
      invariant offset <= |bytes|
      invariant out + EncodeAll(Chunks(bytes[offset..])) == start + EncodeAll(Chunks(bytes))
    {
      ghost var rest := bytes[offset..];
      var end := if |bytes| - offset < BLOB_CHUNK then |bytes| else offset + BLOB_CHUNK;
      ChunksStep(rest, end - offset);
      assert bytes[offset..end] == rest[..end - offset] && bytes[end..] == rest[end - offset..];
      var written := WriteRaw(out, Blob(bytes[offset..end]));
      assert out + (Encode(Blob(rest[..end - offset])) + EncodeAll(Chunks(bytes[end..]))) ==
             (out + Encode(Blob(rest[..end - offset]))) + EncodeAll(Chunks(bytes[end..]));
      out := written.value;
      offset := end;
    }
    assert bytes[offset..] == [];
  }

  lemma {:induction false} ChunksStep(bytes: seq<byte>, n: nat)
    requires bytes != [] && n == if |bytes| < BLOB_CHUNK then |bytes| else BLOB_CHUNK
    ensures EncodeAll(Chunks(bytes)) == Encode(Blob(bytes[..n])) + EncodeAll(Chunks(bytes[n..]))
  {
    hide Encode;
    if |bytes| <= BLOB_CHUNK {
      assert bytes[..n] == bytes && bytes[n..] == [];
      assert Chunks(bytes)[1..] == [];
    } else {
      assert Chunks(bytes)[1..] == Chunks(bytes[n..]);
    }
  }

  // ----- round trips -----

  /** All frames up to the end or the first failure. */
  function ReadAll(cbor: seq<byte> -> bool, data: seq<byte>): (seq<Frame>, Option<FrameError>)
    decreases |data|
  {
    match ParseFrame(cbor, data)
    case End => ([], None)
    case Failed(e) => ([], Some(e))
    case Next(f, rest) =>
      var more := ReadAll(cbor, rest);
      ([f] + more.0, more.1)
  }

  /** Frames read one after another until the peer closes or something is wrong, however the bytes arrive. */
  method ReadStream(cbor: seq<byte> -> bool, r: Reader) returns (frames: seq<Frame>, error: Option<FrameError>)
    modifies r
    ensures (frames, error) == ReadAll(cbor, old(r.data))
  {
    ghost var all := r.data;
    frames, error := [], None;
    while true
      invariant frames + ReadAll(cbor, r.data).0 == ReadAll(cbor, all).0
      invariant ReadAll(cbor, r.data).1 == ReadAll(cbor, all).1
      decreases |r.data|
    {
      ghost var now := r.data;
      var res := ReadFrame(cbor, r);
      if res.Err? {
        assert frames + [] == frames;
        return frames, Some(res.error);
      }
      if res.value.None? {
        assert frames + [] == frames;
        return frames, None;
      }
      var f := res.value.value;
      assert frames + ReadAll(cbor, now).0 == (frames + [f]) + ReadAll(cbor, r.data).0;
      frames := frames + [f];
    }
  }

  lemma {:induction false} ParseInverts(cbor: seq<byte> -> bool, f: Frame, tail: seq<byte>)
    requires |f.payload| <= MAX_FRAME && (f.Cbor? ==> cbor(f.payload))
    ensures ParseFrame(cbor, Encode(f) + tail) == Next(f, tail)
  {
    hide Be32, Be32Bytes;
    var data, n := Encode(f) + tail, |f.payload|;
    assert data == Be32Bytes(n) + ([KindOf(f)] + f.payload + tail);
    Be32RoundTrip(n, [KindOf(f)] + f.payload + tail);
    assert data[4] == KindOf(f);
    assert data[5..5 + n] == f.payload && data[5 + n..] == tail;
  }

  /** The numbers on the wire: four big-endian bytes of length, the kind, the payload; at most 64 MiB in a frame and
      8 MiB in a chunk of a blob. */
  lemma {:induction false} WireFormat(f: Frame)
    requires |f.payload| <= MAX_FRAME
    ensures Encode(f)[..4] == Be32Bytes(|f.payload|) && Encode(f)[4] == (if f.Cbor? then 1 else 2)
    ensures Encode(f)[5..] == f.payload && MAX_FRAME == 0x400_0000 && BLOB_CHUNK == 0x80_0000
  {
    hide Be32Bytes;
  }

  /** A read returns a frame if and only if the stream starts with that frame as it is written. */
  lemma {:induction false} NextExact(cbor: seq<byte> -> bool, data: seq<byte>, f: Frame, rest: seq<byte>)
    ensures ParseFrame(cbor, data) == Next(f, rest) <==>
            |f.payload| <= MAX_FRAME && (f.Cbor? ==> cbor(f.payload)) && data == Encode(f) + rest
  {
    hide Be32, Be32Bytes;
    if ParseFrame(cbor, data) == Next(f, rest) {
      var n := |f.payload|;
      Be32Back(data);
      assert data == data[..4] + [data[4]] + data[5..5 + n] + data[5 + n..];
    }
    if |f.payload| <= MAX_FRAME && (f.Cbor? ==> cbor(f.payload)) && data == Encode(f) + rest {
      ParseInverts(cbor, f, rest);
    }
  }

  /** When a read fails, and how: a length past the limit is refused before the payload is looked at. */
  lemma {:induction false} FailsExact(cbor: seq<byte> -> bool, data: seq<byte>)
    ensures ParseFrame(cbor, data) == End <==> data == []
    ensures ParseFrame(cbor, data) == Failed(TooLarge) <==> |data| >= 5 && Be32(data) > 64 * 1024 * 1024
    ensures ParseFrame(cbor, data) == Failed(UnexpectedEof) <==>
            data != [] && (|data| < 5 || (Be32(data) <= 64 * 1024 * 1024 && |data| - 5 < Be32(data)))
    ensures ParseFrame(cbor, data) == Failed(UnknownKind) <==>
            |data| >= 5 && Be32(data) <= 64 * 1024 * 1024 && |data| - 5 >= Be32(data) && data[4] !in [1, 2]
    ensures ParseFrame(cbor, data) == Failed(MalformedCbor) <==>
            && |data| >= 5 && Be32(data) <= 64 * 1024 * 1024 && |data| - 5 >= Be32(data)
            && data[4] == 1 && !cbor(data[5..5 + Be32(data)])
  {
    hide Be32;
  }

  /** Reading gives back the frames written, then whatever follows them. */
  lemma {:induction false} ReadBack(cbor: seq<byte> -> bool, fs: seq<Frame>, tail: seq<byte>)
    requires AllFit(fs) && forall i :: 0 <= i < |fs| && fs[i].Cbor? ==> cbor(fs[i].payload)
    ensures ReadAll(cbor, EncodeAll(fs) + tail) == (fs + ReadAll(cbor, tail).0, ReadAll(cbor, tail).1)
    decreases |fs|
  {
    hide ParseFrame, Encode;
    if fs == [] {
      assert EncodeAll(fs) + tail == tail;
      assert fs + ReadAll(cbor, tail).0 == ReadAll(cbor, tail).0;
    } else {
      var rest := EncodeAll(fs[1..]) + tail;
      assert EncodeAll(fs) + tail == Encode(fs[0]) + rest;
      ParseInverts(cbor, fs[0], rest);
      ReadBack(cbor, fs[1..], tail);
      assert [fs[0]] + (fs[1..] + ReadAll(cbor, tail).0) == fs + ReadAll(cbor, tail).0;
    }
  }

  /** A stream of frames reads back exactly, and then ends cleanly. */
  lemma {:induction false} StreamRoundTrip(cbor: seq<byte> -> bool, fs: seq<Frame>)
    requires AllFit(fs) && forall i :: 0 <= i < |fs| && fs[i].Cbor? ==> cbor(fs[i].payload)
    ensures ReadAll(cbor, EncodeAll(fs)) == (fs, None)
  {
    ReadBack(cbor, fs, []);
    assert EncodeAll(fs) + [] == EncodeAll(fs) && fs + [] == fs;
  }

  /** A stream cut anywhere inside a frame is an error after the whole frames before it. */
  lemma {:induction false} CutIsAnError(cbor: seq<byte> -> bool, fs: seq<Frame>, f: Frame, cut: nat)
    requires AllFit(fs) && forall i :: 0 <= i < |fs| && fs[i].Cbor? ==> cbor(fs[i].payload)
    requires |f.payload| <= MAX_FRAME && 0 < cut < |Encode(f)|
    ensures ReadAll(cbor, EncodeAll(fs) + Encode(f)[..cut]) == (fs, Some(UnexpectedEof))
  {
    hide Be32, Be32Bytes;
    var tail, n := Encode(f)[..cut], |f.payload|;
    if cut >= 5 {
      assert tail == Be32Bytes(n) + tail[4..];
      Be32RoundTrip(n, tail[4..]);
    }
    ReadBack(cbor, fs, tail);
    assert fs + [] == fs;
  }

  // ----- blobs and the loop that collects them -----

  function Payload(fs: seq<Frame>): seq<byte>
  {
    if fs == [] then [] else fs[0].payload + Payload(fs[1..])
  }

  lemma {:induction false} ChunksCarryAll(bytes: seq<byte>)
    ensures Payload(Chunks(bytes)) == bytes && AllFit(Chunks(bytes))
    ensures forall i :: 0 <= i < |Chunks(bytes)| - 1 ==> |Chunks(bytes)[i].payload| == BLOB_CHUNK
    decreases |bytes|
  {
    if bytes == [] {
    } else if |bytes| <= BLOB_CHUNK {
      assert Chunks(bytes)[1..] == [];
      assert bytes + [] == bytes;
    } else {
      var rest := bytes[BLOB_CHUNK..];
      ChunksCarryAll(rest);
      assert Chunks(bytes)[1..] == Chunks(rest);
      assert bytes[..BLOB_CHUNK] + rest == bytes;
    }
  }

  datatype AttachError = Interrupted | TooMuch | Disconnected

  /** What the declared-length loop takes from the frames that arrive: the payload and how many frames. */
  function Collect(frames: seq<Frame>, len: nat, have: seq<byte>, taken: nat): Result<(seq<byte>, nat), AttachError>
    requires taken <= |frames|
    decreases |frames| - taken
  {
    if |have| >= len then Ok((have, taken))
    else if taken == |frames| then Err(Disconnected)
    else if frames[taken].Cbor? then Err(Interrupted)
    else
      var more := have + frames[taken].payload;
      if |more| > len then Err(TooMuch) else Collect(frames, len, more, taken + 1)
  }

  method CollectAttachment(frames: seq<Frame>, len: nat) returns (r: Result<(seq<byte>, nat), AttachError>)
    ensures r == Collect(frames, len, [], 0)
  {
    var payload: seq<byte> := [];
    var taken := 0;
    while |payload| < len
      invariant taken <= |frames|
      invariant Collect(frames, len, payload, taken) == Collect(frames, len, [], 0)
      decreases |frames| - taken
    {
      if taken == |frames| {
        return Err(Disconnected);
      }
      if frames[taken].Cbor? {
        return Err(Interrupted);
      }
      payload := payload + frames[taken].payload;
      taken := taken + 1;
      if |payload| > len {
        return Err(TooMuch);
      }
    }
    r := Ok((payload, taken));
  }

  lemma {:induction false} CollectTakes(frames: seq<Frame>, k: nat, bytes: seq<byte>, have: seq<byte>, rest: seq<Frame>)
    requires k <= |frames| && frames[k..] == Chunks(bytes) + rest
    ensures Collect(frames, |have| + |bytes|, have, k) == Ok((have + bytes, k + |Chunks(bytes)|))
    decreases |bytes|
  {
    if bytes == [] {
      assert have + [] == have;
    } else {
      var cs := Chunks(bytes);
      var n := if |bytes| <= BLOB_CHUNK then |bytes| else BLOB_CHUNK;
      assert bytes[..n] + bytes[n..] == bytes;
      assert frames[k] == frames[k..][0] == cs[0] == Blob(bytes[..n]);
      if |bytes| <= BLOB_CHUNK {
        assert cs[1..] == Chunks(bytes[n..]);
      } else {
        assert cs[1..] == Chunks(bytes[n..]);
      }
      assert frames[k + 1..] == frames[k..][1..] == Chunks(bytes[n..]) + rest;
      CollectTakes(frames, k + 1, bytes[n..], have + bytes[..n], rest);
      assert have + bytes[..n] + bytes[n..] == have + bytes;
    }
  }

  /** The loop with the declared length takes exactly the frames `write_blob` wrote, none for an empty blob. */
  lemma {:induction false} CollectMatchesBlob(bytes: seq<byte>, rest: seq<Frame>)
    ensures Collect(Chunks(bytes) + rest, |bytes|, [], 0) == Ok((bytes, |Chunks(bytes)|))
  {
    var frames := Chunks(bytes) + rest;
    assert frames[0..] == frames;
    CollectTakes(frames, 0, bytes, [], rest);
    assert [] + bytes == bytes;
  }

  lemma {:induction false} PayloadSnoc(fs: seq<Frame>, f: Frame)
    ensures Payload(fs + [f]) == Payload(fs) + f.payload
  {
    if fs == [] {
      assert [f][1..] == [] && [f][0] == f;
      assert f.payload + [] == f.payload;
    } else {
      assert (fs + [f])[1..] == fs[1..] + [f];
      PayloadSnoc(fs[1..], f);
    }
  }

  /** The first `m` frames are blobs and bring less than the declared length. */
  ghost predicate StillShort(frames: seq<Frame>, len: nat, m: int)
  {
    0 <= m <= |frames| && (forall i :: 0 <= i < m ==> frames[i].Blob?) && |Payload(frames[..m])| < len
  }

  /** How the loop ends when `n` frames were taken: with exactly the declared length, at the end of the channel,
      before a
      request, or past the declared length. */
  ghost predicate EndsAfter(frames: seq<Frame>, len: nat, n: int, r: Result<(seq<byte>, nat), AttachError>)
  {
    && 0 <= n <= |frames| && (forall m :: 0 <= m < n ==> StillShort(frames, len, m))
    && (forall i :: 0 <= i < n ==> frames[i].Blob?)
    && var payload := Payload(frames[..n]);
       match r
       case Ok(got) => got == (payload, n) && |payload| == len
       case Err(Disconnected) => n == |frames| && |payload| < len
       case Err(Interrupted) => n < |frames| && frames[n].Cbor? && |payload| < len
       case Err(TooMuch) => |payload| > len
  }

  lemma {:induction false} CollectFrom(frames: seq<Frame>, len: nat, taken: nat) returns (n: nat)
    requires taken <= |frames| && |Payload(frames[..taken])| <= len
    requires forall m :: 0 <= m < taken ==> StillShort(frames, len, m)
    requires forall i :: 0 <= i < taken ==> frames[i].Blob?
    ensures EndsAfter(frames, len, n, Collect(frames, len, Payload(frames[..taken]), taken))
    decreases |frames| - taken
  {
    hide Payload;
    n := taken;
    if |Payload(frames[..taken])| < len && taken < |frames| && frames[taken].Blob? {
      assert frames[..taken + 1] == frames[..taken] + [frames[taken]];
      PayloadSnoc(frames[..taken], frames[taken]);
      assert StillShort(frames, len, taken);
      n := taken + 1;
      if |Payload(frames[..taken + 1])| <= len {
        n := CollectFrom(frames, len, taken + 1);
      }
    }
  }

  /** What the declared-length loop returns on every list of frames. */
  lemma {:induction false} CollectExact(frames: seq<Frame>, len: nat) returns (n: nat)
    ensures EndsAfter(frames, len, n, Collect(frames, len, [], 0))
  {
    assert frames[..0] == [];
    n := CollectFrom(frames, len, 0);
  }
}
