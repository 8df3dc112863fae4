/** The DEFLATE decoder of the attachment sandbox, and what it computes as functions. */
module Inflate {
  import opened Bytes
  import opened Huffman

  // ----- the tables of section 3.2.5 of RFC 1951 -----

  const LENGTH_BASE: seq<nat> := [
    3, 4, 5, 6, 7, 8, 9, 10, 11, 13, 15, 17, 19, 23, 27, 31, 35, 43, 51, 59, 67, 83, 99, 115,
    131, 163, 195, 227, 258]
  const LENGTH_EXTRA: seq<nat> := [
    0, 0, 0, 0, 0, 0, 0, 0, 1, 1, 1, 1, 2, 2, 2, 2, 3, 3, 3, 3, 4, 4, 4, 4, 5, 5, 5, 5, 0]
  const DISTANCE_BASE: seq<nat> := [
    1, 2, 3, 4, 5, 7, 9, 13, 17, 25, 33, 49, 65, 97, 129, 193, 257, 385, 513, 769, 1025, 1537,
    2049, 3073, 4097, 6145, 8193, 12289, 16385, 24577]
  const DISTANCE_EXTRA: seq<nat> := [
    0, 0, 0, 0, 1, 1, 2, 2, 3, 3, 4, 4, 5, 5, 6, 6, 7, 7, 8, 8, 9, 9, 10, 10, 11, 11, 12, 12,
    13, 13]
  const ORDER: seq<nat> := [16, 17, 18, 0, 8, 7, 9, 6, 10, 5, 11, 4, 12, 3, 13, 2, 14, 1, 15]

  // ----- what each reader computes -----

  function ReadLe(s: seq<bit>, p: nat, n: nat): (r: Read<nat>)
    ensures r.Got? ==> r.next == p + n <= |s| && r.value < Pow2(n)
  {
    if p + n <= |s| then Got(LeValue(s[p..p + n]), p + n) else Fail(StreamEnded)
  }

  /** `n` bytes copied from `d` back, one at a time, so that a copy may overlap itself. */
  function CopyBack(out: seq<byte>, d: nat, n: nat): (r: seq<byte>)
    requires 1 <= d <= |out|
    ensures |r| == |out| + n && out <= r
    decreases n
  {
    if n == 0 then out else CopyBack(out + [out[|out| - d]], d, n - 1)
  }

  function Block(lit: Lengths, dist: Lengths, s: seq<bit>, p: nat, out: seq<byte>, max: nat): (r: Read<seq<byte>>)
    requires p <= |s|
    ensures r.Got? ==> p < r.next <= |s| && |out| <= |r.value| <= max
    decreases |s| - p
  {
    if |out| > max then Fail(OutputLimit)
    else
      var sym := DecodeAt(lit, s, p);
      if sym.Fail? then Fail(sym.error)
      else if sym.value <= 255 then Block(lit, dist, s, sym.next, out + [sym.value], max)
      else if sym.value == 256 then Got(out, sym.next)
      else if sym.value > 285 then Fail(BadLiteralSymbol)
      else
        var copy := Reference(dist, s, sym.next, sym.value - 257, |out|);
        if copy.Fail? then Fail(copy.error)
        else Block(lit, dist, s, copy.next, CopyBack(out, copy.value.1, copy.value.0), max)
  }

  /** A distance symbol with its extra bits, refused when it reaches before the output's start. */
  function DistanceAt(dist: Lengths, s: seq<bit>, p: nat, size: nat): (r: Read<nat>)
    ensures r.Got? ==> p < r.next <= |s| && 1 <= r.value <= size
  {
    var ds := DecodeAt(dist, s, p);
    if ds.Fail? then Fail(ds.error)
    else if ds.value >= 30 then Fail(BadDistanceSymbol)
    else
      var dx := ReadLe(s, ds.next, DISTANCE_EXTRA[ds.value]);
      if dx.Fail? then Fail(dx.error)
      else if DISTANCE_BASE[ds.value] + dx.value > size then Fail(ReferenceBeforeStart)
      else DistanceRow(ds.value); Got(DISTANCE_BASE[ds.value] + dx.value, dx.next)
  }

  lemma {:induction false} DistanceRow(i: nat)
    requires i < 30
    ensures DISTANCE_BASE[i] >= 1
  {
  }

  /** The rest of a match after its length symbol: its length and its distance. */
  function Reference(dist: Lengths, s: seq<bit>, p: nat, index: nat, size: nat): (r: Read<(nat, nat)>)
    requires index <= 28
    ensures r.Got? ==> p < r.next <= |s| && 1 <= r.value.1 <= size
  {
    var lx := ReadLe(s, p, LENGTH_EXTRA[index]);
    if lx.Fail? then Fail(lx.error)
    else
      var d := DistanceAt(dist, s, lx.next, size);
      if d.Fail? then Fail(d.error) else Got((LENGTH_BASE[index] + lx.value, d.value), d.next)
  }

  function Repeat<T>(x: T, n: nat): (r: seq<T>)
    ensures |r| == n && forall i :: 0 <= i < n ==> r[i] == x
  {
    seq(n, _ => x)
  }

  function FixedLiterals(): (r: Lengths)
    ensures |r| == 288
  {
    Repeat<nat>(8, 144) + (Repeat<nat>(9, 112) + (Repeat<nat>(7, 24) + Repeat<nat>(8, 8)))
  }

  function FixedDistances(): (r: Lengths)
    ensures |r| == 30
  {
    Repeat<nat>(5, 30)
  }

  /** The code lengths of the code length code: three bits each, in `ORDER`. */
  function CodeLengths(s: seq<bit>, p: nat, k: nat, n: nat, ls: seq<nat>): (r: Read<Lengths>)
    requires k <= n <= 19 && |ls| == 19 && forall i :: 0 <= i < 19 ==> ls[i] <= 7
    requires p <= |s|
    ensures r.Got? ==> p <= r.next <= |s| && |r.value| == 19
    decreases n - k
  {
    if k == n then Got(ls, p)
    else
      var v := ReadLe(s, p, 3);
      if v.Fail? then Fail(v.error)
      else
        assert Pow2(3) == 8;
        CodeLengths(s, v.next, k + 1, n, ls[ORDER[k] := v.value])
  }

  /** The run-length coded list of `total` code lengths, from those already read. */
  function RunLengths(cl: Lengths, s: seq<bit>, p: nat, ls: Lengths, total: nat): (r: Read<Lengths>)
    requires p <= |s|
    ensures r.Got? ==> p <= r.next <= |s| && |r.value| == total
    decreases |s| - p
  {
    if |ls| >= total then (if |ls| > total then Fail(CodeLengthOverrun) else Got(ls, p))
    else
      var sym := DecodeAt(cl, s, p);
      if sym.Fail? then Fail(sym.error)
      else if sym.value <= 15 then RunLengths(cl, s, sym.next, ls + [sym.value], total)
      else if sym.value == 16 && ls == [] then Fail(NothingToRepeat)
      else if sym.value > 18 then Fail(BadCodeLengthSymbol)
      else
        var x := ReadLe(s, sym.next, if sym.value == 16 then 2 else if sym.value == 17 then 3 else 7);
        if x.Fail? then Fail(x.error)
        else if sym.value == 16 then
          if |ls| + 3 + x.value > total then Fail(CodeLengthOverrun)
          else RunLengths(cl, s, x.next, ls + Repeat(ls[|ls| - 1], 3 + x.value), total)
        else RunLengths(cl, s, x.next, ls + Repeat(0, (if sym.value == 17 then 3 else 11) + x.value), total)
  }

  /** The tables of a dynamic block: literal/length lengths and distance lengths. */
  function Tables(s: seq<bit>, p: nat): (r: Read<(Lengths, Lengths)>)
    requires p <= |s|
    ensures r.Got? ==> p <= r.next <= |s|
  {
    var a := ReadLe(s, p, 5);
    if a.Fail? then Fail(a.error) else
    var b := ReadLe(s, a.next, 5);
    if b.Fail? then Fail(b.error) else
    var c := ReadLe(s, b.next, 4);
    if c.Fail? then Fail(c.error) else
    assert Pow2(4) == 16;
    var cl := CodeLengths(s, c.next, 0, c.value + 4, Repeat<nat>(0, 19));
    if cl.Fail? then Fail(cl.error) else
    var hlit, hdist := a.value + 257, b.value + 1;
    var ls := RunLengths(cl.value, s, cl.next, [], hlit + hdist);
    if ls.Fail? then Fail(ls.error) else
    Got((ls.value[..hlit], ls.value[hlit..]), ls.next)
  }

  function U16(bytes: seq<byte>, i: nat): (r: nat)
    requires i + 2 <= |bytes|
    ensures r <= 0xffff
  {
    bytes[i] as int + 256 * bytes[i + 1] as int
  }

  /** A stored block: its bytes, found at the next byte boundary. */
  function Stored(bytes: seq<byte>, p: nat): (r: Read<seq<byte>>)
    requires p <= 8 * |bytes|
    ensures r.Got? ==> p <= r.next <= 8 * |bytes| && p + 8 * |r.value| <= r.next
  {
    var start := (p + 7) / 8;
    if start + 4 > |bytes| then Fail(TruncatedStored)
    else if U16(bytes, start) != 0xffff - U16(bytes, start + 2) then Fail(StoredLengthCheck)
    else
      var to := start + 4 + U16(bytes, start);
      if to > |bytes| then Fail(TruncatedStored) else Got(bytes[start + 4..to], 8 * to)
  }

  function Larger(a: nat, b: nat): nat
  {
    if a > b then a else b
  }

  /** One block after its final-block bit: the output so far extended by the block. */
  function OneBlock(bytes: seq<byte>, p: nat, out: seq<byte>, max: nat): (r: Read<seq<byte>>)
    requires p <= 8 * |bytes|
    ensures r.Got? ==> p + 2 <= r.next <= 8 * |bytes|
    ensures r.Got? ==> 8 * |r.value| + p <= 8 * Larger(|out|, max) + r.next
  {
    var s := Unpack(bytes);
    var kind := ReadLe(s, p, 2);
    if kind.Fail? then Fail(kind.error)
    else if kind.value == 0 then
      var st := Stored(bytes, kind.next);
      if st.Fail? then Fail(st.error) else Got(out + st.value, st.next)
    else if kind.value == 1 then Block(FixedLiterals(), FixedDistances(), s, kind.next, out, max)
    else if kind.value == 2 then
      var t := Tables(s, kind.next);
      if t.Fail? then Fail(t.error) else Block(t.value.0, t.value.1, s, t.next, out, max)
    else Fail(ReservedBlockType)
  }

  function BlocksFrom(bytes: seq<byte>, p: nat, out: seq<byte>, max: nat): (r: Read<seq<byte>>)
    requires p <= 8 * |bytes|
    ensures r.Got? ==> p < r.next <= 8 * |bytes|
    ensures r.Got? ==> 8 * |r.value| + p <= 8 * Larger(|out|, max) + r.next
    decreases 8 * |bytes| - p
  {
    var s := Unpack(bytes);
    if p >= |s| then Fail(StreamEnded)
    else
      var b := OneBlock(bytes, p + 1, out, max);
      if b.Fail? then Fail(b.error)
      else if s[p] == 1 then b
      else BlocksFrom(bytes, b.next, b.value, max)
  }

  function InflateSpec(bytes: seq<byte>, max: nat): (r: Result<seq<byte>, Error>)
    ensures r.Ok? ==> |r.value| <= max + |bytes|
  {
    var r := BlocksFrom(bytes, 0, [], max);
    if r.Got? then Ok(r.value) else Err(r.error)
  }
}
