/** Whole DEFLATE streams: dynamic headers, stored blocks and the main inversion theorems. */
module DeflateBlocks {
  import opened Bytes
  import opened Huffman
  import opened Inflate
  import opened DeflateFormat

  // ----- dynamic block headers (section 3.2.7 of RFC 1951) -----

  datatype Op = Direct(n: nat) | CopyPrevious(x: nat) | Zeros(x: nat) | ManyZeros(x: nat)

  function OpSymbol(op: Op): nat
  {
    match op
    case Direct(n) => n
    case CopyPrevious(_) => 16
    case Zeros(_) => 17
    case ManyZeros(_) => 18
  }

  function OpWidth(op: Op): nat
  {
    match op
    case Direct(_) => 0
    case CopyPrevious(_) => 2
    case Zeros(_) => 3
    case ManyZeros(_) => 7
  }

  function OpExtra(op: Op): nat
  {
    if op.Direct? then 0 else op.x
  }

  predicate OpPrintable(cl: Lengths, op: Op, ls: Lengths)
  {
    && (op.Direct? ==> op.n <= 15)
    && (op.CopyPrevious? ==> ls != [])
    && OpExtra(op) < Pow2(OpWidth(op))
    && Codable(cl, OpSymbol(op))
  }

  function OpBits(cl: Lengths, op: Op): seq<bit>
    requires OpSymbol(op) < |cl|
  {
    CodeBits(cl, OpSymbol(op)) + LeBits(OpExtra(op), OpWidth(op))
  }

  function ApplyOp(op: Op, ls: Lengths): (r: Lengths)
    requires op.Direct? ==> op.n <= 15
    requires op.CopyPrevious? ==> ls != []
    ensures |r| > |ls|
  {
    match op
    case Direct(n) => ls + [n]
    case CopyPrevious(x) => ls + Repeat(ls[|ls| - 1], 3 + x)
    case Zeros(x) => ls + Repeat(0, 3 + x)
    case ManyZeros(x) => ls + Repeat(0, 11 + x)
  }

  predicate OpsPrintable(cl: Lengths, ops: seq<Op>, ls: Lengths)
  {
    ops == [] || (OpPrintable(cl, ops[0], ls) && OpsPrintable(cl, ops[1..], ApplyOp(ops[0], ls)))
  }

  function OpsExpand(cl: Lengths, ops: seq<Op>, ls: Lengths): (r: Lengths)
    requires OpsPrintable(cl, ops, ls)
    ensures |r| >= |ls| && (ops != [] ==> |r| > |ls|)
  {
    if ops == [] then ls else OpsExpand(cl, ops[1..], ApplyOp(ops[0], ls))
  }

  function OpsBits(cl: Lengths, ops: seq<Op>, ls: Lengths): seq<bit>
    requires OpsPrintable(cl, ops, ls)
  {
    if ops == [] then [] else OpBits(cl, ops[0]) + OpsBits(cl, ops[1..], ApplyOp(ops[0], ls))
  }

  lemma {:induction false} OpStep(cl: Lengths, s: seq<bit>, p: nat, op: Op, ls: Lengths, total: nat)
    requires p <= |s| && |ls| < total && OpPrintable(cl, op, ls) && |ApplyOp(op, ls)| <= total
    requires BitsAt(s, p, OpBits(cl, op))
    ensures var q := p + |OpBits(cl, op)|;
            q <= |s| && RunLengths(cl, s, p, ls, total) == RunLengths(cl, s, q, ApplyOp(op, ls), total)
  {
    hide DecodeAt, CodeBits, BitsAt, CodeOf, Pow2, LeBits, LeValue;
    InBounds(s, p, OpBits(cl, op));
    var sym := OpSymbol(op);
    BitsAtConcat(s, p, CodeBits(cl, sym), LeBits(OpExtra(op), OpWidth(op)));
    SymbolInverts(cl, s, p, sym);
    ReadLeInverts(s, p + |CodeBits(cl, sym)|, OpWidth(op), OpExtra(op));
  }

  lemma {:induction false} OpsDone(cl: Lengths, s: seq<bit>, p: nat, ls: Lengths)
    requires p <= |s| && OpsPrintable(cl, [], ls)
    ensures OpsExpand(cl, [], ls) == ls && OpsBits(cl, [], ls) == [] && RunLengths(cl, s, p, ls, |ls|) == Got(ls, p)
  {
  }

  lemma {:induction false} OpsStep(cl: Lengths, ops: seq<Op>, ls: Lengths)
    requires ops != [] && OpsPrintable(cl, ops, ls)
    ensures OpPrintable(cl, ops[0], ls) && OpsPrintable(cl, ops[1..], ApplyOp(ops[0], ls))
    ensures OpsBits(cl, ops, ls) == OpBits(cl, ops[0]) + OpsBits(cl, ops[1..], ApplyOp(ops[0], ls))
    ensures OpsExpand(cl, ops, ls) == OpsExpand(cl, ops[1..], ApplyOp(ops[0], ls))
  {
  }

  lemma {:induction false} RunLengthsInvert(cl: Lengths, s: seq<bit>, p: nat, ops: seq<Op>, ls: Lengths, total: nat)
    requires p <= |s| && OpsPrintable(cl, ops, ls) && |OpsExpand(cl, ops, ls)| == total
    requires BitsAt(s, p, OpsBits(cl, ops, ls))
    ensures RunLengths(cl, s, p, ls, total) == Got(OpsExpand(cl, ops, ls), p + |OpsBits(cl, ops, ls)|)
    decreases |ops|
  {
    hide DecodeAt, CodeBits, BitsAt, CodeOf, Pow2, OpBits, RunLengths, ApplyOp, OpsPrintable, OpsExpand, OpsBits;
    if ops == [] {
      OpsDone(cl, s, p, ls);
    } else {
      OpsStep(cl, ops, ls);
      var b, next := OpBits(cl, ops[0]), ApplyOp(ops[0], ls);
      BitsAtConcat(s, p, b, OpsBits(cl, ops[1..], next));
      OpStep(cl, s, p, ops[0], ls, total);
      RunLengthsInvert(cl, s, p + |b|, ops[1..], next, total);
    }
  }

  lemma {:induction false} OpSound(cl: Lengths, s: seq<bit>, p: nat, ls: Lengths, total: nat) returns (op: Op)
    requires p <= |s| && |ls| < total && RunLengths(cl, s, p, ls, total).Got?
    ensures OpPrintable(cl, op, ls) && BitsAt(s, p, OpBits(cl, op)) && |OpBits(cl, op)| > 0
    ensures var q := p + |OpBits(cl, op)|;
            q <= |s| && RunLengths(cl, s, p, ls, total) == RunLengths(cl, s, q, ApplyOp(op, ls), total)
  {
    hide DecodeAt, BitsAt, CodeOf, Pow2, LeValue, ReadLe, LeBits;
    var sym := DecodeAt(cl, s, p);
    SymbolSound(cl, s, p);
    if sym.value <= 15 {
      op := Direct(sym.value);
      assert LeBits(0, 0) == [] && Pow2(0) > 0;
      BitsAtConcat(s, p, CodeBits(cl, sym.value), []);
      EmptyBits(s, sym.next);
    } else {
      var n := if sym.value == 16 then 2 else if sym.value == 17 then 3 else 7;
      var x := ReadLe(s, sym.next, n);
      ReadLeSound(s, sym.next, n);
      op :=
        if sym.value == 16 then CopyPrevious(x.value)
        else if sym.value == 17 then Zeros(x.value)
        else ManyZeros(x.value);
      BitsAtConcat(s, p, CodeBits(cl, sym.value), LeBits(x.value, n));
    }
    InBounds(s, p, OpBits(cl, op));
  }

  lemma {:induction false} EmptyBits(s: seq<bit>, p: nat)
    requires p <= |s|
    ensures BitsAt(s, p, [])
  {
  }

  lemma {:induction false} OpsCons(cl: Lengths, op: Op, rest: seq<Op>, ls: Lengths)
    requires OpPrintable(cl, op, ls) && OpsPrintable(cl, rest, ApplyOp(op, ls))
    ensures OpsPrintable(cl, [op] + rest, ls)
    ensures OpsBits(cl, [op] + rest, ls) == OpBits(cl, op) + OpsBits(cl, rest, ApplyOp(op, ls))
    ensures OpsExpand(cl, [op] + rest, ls) == OpsExpand(cl, rest, ApplyOp(op, ls))
  {
    var ops := [op] + rest;
    assert ops[0] == op && ops[1..] == rest;
    OpsStep(cl, ops, ls);
  }

  lemma {:induction false} NoOps(cl: Lengths, s: seq<bit>, p: nat, ls: Lengths, total: nat)
    requires p <= |s| && |ls| >= total && RunLengths(cl, s, p, ls, total).Got?
    ensures RunLengths(cl, s, p, ls, total) == Got(ls, p)
    ensures OpsPrintable(cl, [], ls) && OpsBits(cl, [], ls) == [] && OpsExpand(cl, [], ls) == ls
  {
  }

  lemma {:induction false} RunLengthsSound(cl: Lengths, s: seq<bit>, p: nat, ls: Lengths, total: nat)
    returns (ops: seq<Op>)
    requires p <= |s| && RunLengths(cl, s, p, ls, total).Got?
    ensures OpsPrintable(cl, ops, ls) && BitsAt(s, p, OpsBits(cl, ops, ls))
    ensures RunLengths(cl, s, p, ls, total) == Got(OpsExpand(cl, ops, ls), p + |OpsBits(cl, ops, ls)|)
    decreases |s| - p
  {
    hide DecodeAt, BitsAt, CodeOf, Pow2, CodeBits, OpBits, RunLengths, OpsPrintable, OpsExpand, OpsBits, ApplyOp;
    if |ls| >= total {
      ops := [];
      NoOps(cl, s, p, ls, total);
      EmptyBits(s, p);
    } else {
      var op := OpSound(cl, s, p, ls, total);
      var b, next := OpBits(cl, op), ApplyOp(op, ls);
      var rest := RunLengthsSound(cl, s, p + |b|, next, total);
      ops := [op] + rest;
      OpsCons(cl, op, rest, ls);
      BitsAtConcat(s, p, b, OpsBits(cl, rest, next));
    }
  }

  /** The code length code lengths as printed: three bits each. */
  function TripleBits(cls: seq<nat>): seq<bit>
  {
    if cls == [] then [] else LeBits(cls[0], 3) + TripleBits(cls[1..])
  }

  function Scatter(cls: seq<nat>, k: nat, ls: seq<nat>): (r: Lengths)
    requires k + |cls| <= 19 && |ls| == 19
    requires forall i :: 0 <= i < 19 ==> ls[i] <= 7
    requires forall i :: 0 <= i < |cls| ==> cls[i] <= 7
    ensures |r| == 19
    decreases |cls|
  {
    if cls == [] then ls else Scatter(cls[1..], k + 1, ls[ORDER[k] := cls[0]])
  }

  lemma {:induction false} CodeLengthsInvert(s: seq<bit>, p: nat, cls: seq<nat>, k: nat, ls: seq<nat>)
    requires p <= |s| && k + |cls| <= 19 && |ls| == 19
    requires forall i :: 0 <= i < 19 ==> ls[i] <= 7
    requires forall i :: 0 <= i < |cls| ==> cls[i] <= 7
    requires BitsAt(s, p, TripleBits(cls))
    ensures CodeLengths(s, p, k, k + |cls|, ls) == Got(Scatter(cls, k, ls), p + |TripleBits(cls)|)
    decreases |cls|
  {
    hide BitsAt, LeBits, LeValue, ReadLe;
    if cls != [] {
      assert Pow2(3) == 8;
      BitsAtConcat(s, p, LeBits(cls[0], 3), TripleBits(cls[1..]));
      ReadLeInverts(s, p, 3, cls[0]);
      InBounds(s, p + 3, TripleBits(cls[1..]));
      CodeLengthsInvert(s, p + 3, cls[1..], k + 1, ls[ORDER[k] := cls[0]]);
    }
  }

  lemma {:induction false} TripleStep(v: nat, rest: seq<nat>, k: nat, ls: seq<nat>)
    requires k + 1 + |rest| <= 19 && |ls| == 19 && v <= 7
    requires forall i :: 0 <= i < 19 ==> ls[i] <= 7
    requires forall i :: 0 <= i < |rest| ==> rest[i] <= 7
    ensures TripleBits([v] + rest) == LeBits(v, 3) + TripleBits(rest)
    ensures forall i :: 0 <= i < |rest| + 1 ==> ([v] + rest)[i] <= 7
    ensures Scatter([v] + rest, k, ls) == Scatter(rest, k + 1, ls[ORDER[k] := v])
  {
    hide LeBits;
    assert ([v] + rest)[1..] == rest;
  }

  lemma {:induction false} CodeLengthsSound(s: seq<bit>, p: nat, k: nat, n: nat, ls: seq<nat>) returns (cls: seq<nat>)
    requires p <= |s| && k <= n <= 19 && |ls| == 19
    requires forall i :: 0 <= i < 19 ==> ls[i] <= 7
    requires CodeLengths(s, p, k, n, ls).Got?
    ensures |cls| == n - k && forall i :: 0 <= i < |cls| ==> cls[i] <= 7
    ensures BitsAt(s, p, TripleBits(cls))
    ensures CodeLengths(s, p, k, n, ls) == Got(Scatter(cls, k, ls), p + |TripleBits(cls)|)
    decreases n - k
  {
    hide BitsAt, LeBits, LeValue, ReadLe;
    if k == n {
      cls := [];
      EmptyBits(s, p);
    } else {
      assert Pow2(3) == 8;
      var v := ReadLe(s, p, 3);
      ReadLeSound(s, p, 3);
      var rest := CodeLengthsSound(s, v.next, k + 1, n, ls[ORDER[k] := v.value]);
      cls := [v.value] + rest;
      hide Scatter, TripleBits, Pow2;
      TripleStep(v.value, rest, k, ls);
      BitsAtConcat(s, p, LeBits(v.value, 3), TripleBits(rest));
    }
  }

  datatype Header = Header(hlit: nat, hdist: nat, cls: seq<nat>, ops: seq<Op>) {

    predicate Shape()
    {
      hlit < 32 && hdist < 32 && 4 <= |cls| <= 19 && forall i :: 0 <= i < |cls| ==> cls[i] <= 7
    }

    function CodeTable(): (r: Lengths)
      requires Shape()
      ensures |r| == 19
    {
      Scatter(cls, 0, Repeat<nat>(0, 19))
    }

    predicate Valid()
    {
      && Shape() && OpsPrintable(CodeTable(), ops, [])
      && |OpsExpand(CodeTable(), ops, [])| == hlit + 257 + (hdist + 1)
    }

    function Literals(): (r: Lengths)
      requires Valid()
      ensures |r| == hlit + 257
    {
      OpsExpand(CodeTable(), ops, [])[..hlit + 257]
    }

    function Distances(): (r: Lengths)
      requires Valid()
    {
      OpsExpand(CodeTable(), ops, [])[hlit + 257..]
    }

    function Bits(): seq<bit>
      requires Valid()
    {
      LeBits(hlit, 5) + (LeBits(hdist, 5) + (LeBits(|cls| - 4, 4) + (TripleBits(cls) + OpsBits(CodeTable(), ops, []))))
    }
  }

  lemma {:induction false} TablesInvert(s: seq<bit>, p: nat, h: Header)
    requires p <= |s| && h.Valid() && BitsAt(s, p, h.Bits())
    ensures Tables(s, p) == Got((h.Literals(), h.Distances()), p + |h.Bits()|)
  {
    hide BitsAt, LeBits, LeValue, ReadLe, CodeLengths, RunLengths;
    hide OpsBits, OpsExpand, OpsPrintable, TripleBits, Scatter;
    assert Pow2(4) == 16 && Pow2(5) == 32;
    var ob := OpsBits(h.CodeTable(), h.ops, []);
    BitsAtConcat(s, p, LeBits(h.hlit, 5), LeBits(h.hdist, 5) + (LeBits(|h.cls| - 4, 4) + (TripleBits(h.cls) + ob)));
    BitsAtConcat(s, p + 5, LeBits(h.hdist, 5), LeBits(|h.cls| - 4, 4) + (TripleBits(h.cls) + ob));
    BitsAtConcat(s, p + 10, LeBits(|h.cls| - 4, 4), TripleBits(h.cls) + ob);
    BitsAtConcat(s, p + 14, TripleBits(h.cls), ob);
    ReadLeInverts(s, p, 5, h.hlit);
    ReadLeInverts(s, p + 5, 5, h.hdist);
    ReadLeInverts(s, p + 10, 4, |h.cls| - 4);
    var q := p + 14 + |TripleBits(h.cls)|;
    InBounds(s, q, ob);
    CodeLengthsInvert(s, p + 14, h.cls, 0, Repeat<nat>(0, 19));
    RunLengthsInvert(h.CodeTable(), s, q, h.ops, [], h.hlit + 257 + (h.hdist + 1));
  }

  lemma {:induction false} TablesSound(s: seq<bit>, p: nat) returns (h: Header)
    requires p <= |s| && Tables(s, p).Got?
    ensures h.Valid() && BitsAt(s, p, h.Bits())
    ensures Tables(s, p) == Got((h.Literals(), h.Distances()), p + |h.Bits()|)
  {
    hide BitsAt, LeBits, LeValue, ReadLe, CodeLengths, RunLengths;
    hide OpsBits, OpsExpand, OpsPrintable, TripleBits, Scatter;
    assert Pow2(4) == 16 && Pow2(5) == 32;
    var a := ReadLe(s, p, 5);
    ReadLeSound(s, p, 5);
    var b := ReadLe(s, p + 5, 5);
    ReadLeSound(s, p + 5, 5);
    var c := ReadLe(s, p + 10, 4);
    ReadLeSound(s, p + 10, 4);
    var cls := CodeLengthsSound(s, p + 14, 0, c.value + 4, Repeat<nat>(0, 19));
    var cl := CodeLengths(s, p + 14, 0, c.value + 4, Repeat<nat>(0, 19));
    var ops := RunLengthsSound(cl.value, s, cl.next, [], a.value + 257 + (b.value + 1));
    h := Header(a.value, b.value, cls, ops);
    FiveInARow(s, p, LeBits(a.value, 5), LeBits(b.value, 5), LeBits(c.value, 4), TripleBits(cls),
        OpsBits(h.CodeTable(), ops, []));
  }

  lemma {:induction false} FiveInARow(s: seq<bit>, p: nat, a: seq<bit>, b: seq<bit>, c: seq<bit>, d: seq<bit>,
                                      e: seq<bit>)
    requires BitsAt(s, p, a) && BitsAt(s, p + |a|, b) && BitsAt(s, p + |a| + |b|, c)
    requires BitsAt(s, p + |a| + |b| + |c|, d) && BitsAt(s, p + |a| + |b| + |c| + |d|, e)
    ensures BitsAt(s, p, a + (b + (c + (d + e))))
  {
    hide BitsAt;
    BitsAtConcat(s, p + |a| + |b| + |c|, d, e);
    BitsAtConcat(s, p + |a| + |b|, c, d + e);
    BitsAtConcat(s, p + |a|, b, c + (d + e));
    BitsAtConcat(s, p, a, b + (c + (d + e)));
  }

  // ----- blocks -----

  datatype DeflateBlock =
    | StoredBlock(pad: seq<bit>, data: seq<byte>)
    | FixedBlock(tokens: seq<Token>)
    | DynamicBlock(header: Header, tokens: seq<Token>)

  /** The two length fields of a stored block, then its bytes. */
  function StoredBytes(data: seq<byte>): seq<byte>
    requires |data| <= 0xffff
  {
    var n := |data|;
    [n % 256, n / 256, (0xffff - n) % 256, (0xffff - n) / 256] + data
  }

  /** Bits skipped to reach a byte boundary from bit `p`. */
  function PadWidth(p: nat): nat
  {
    8 * ((p + 7) / 8) - p
  }

  function LitOf(b: DeflateBlock): (r: Lengths)
    requires !b.StoredBlock? && (b.DynamicBlock? ==> b.header.Valid())
    ensures |r| > 256
  {
    if b.FixedBlock? then FixedLiterals() else b.header.Literals()
  }

  function DistOf(b: DeflateBlock): (r: Lengths)
    requires !b.StoredBlock? && (b.DynamicBlock? ==> b.header.Valid())
  {
    if b.FixedBlock? then FixedDistances() else b.header.Distances()
  }

  /** The block may start at bit `p`, after its final-block bit, with `out` already produced. */
  predicate BlockValid(b: DeflateBlock, p: nat, out: seq<byte>)
  {
    if b.StoredBlock? then |b.data| <= 0xffff && |b.pad| == PadWidth(p + 2)
    else
      && (b.DynamicBlock? ==> b.header.Valid())
      && Codable(LitOf(b), 256)
      && AllPrintable(LitOf(b), DistOf(b), b.tokens, out)
  }

  function BlockMeaning(b: DeflateBlock, p: nat, out: seq<byte>): seq<byte>
    requires BlockValid(b, p, out)
  {
    if b.StoredBlock? then out + b.data else Expand(LitOf(b), DistOf(b), b.tokens, out)
  }

  function BlockBits(b: DeflateBlock, p: nat, out: seq<byte>): (r: seq<bit>)
    requires BlockValid(b, p, out)
  {
    match b
    case StoredBlock(pad, data) => LeBits(0, 2) + (pad + Unpack(StoredBytes(data)))
    case FixedBlock(ts) => LeBits(1, 2) + TokensBits(LitOf(b), DistOf(b), ts, out)
    case DynamicBlock(h, ts) => LeBits(2, 2) + (h.Bits() + TokensBits(LitOf(b), DistOf(b), ts, out))
  }

  /** Only compressed blocks consult the limit. */
  predicate WithinLimit(b: DeflateBlock, p: nat, out: seq<byte>, max: nat)
    requires BlockValid(b, p, out)
  {
    b.StoredBlock? || |BlockMeaning(b, p, out)| <= max
  }

  lemma {:induction false} StoredInverts(bytes: seq<byte>, p: nat, pad: seq<bit>, data: seq<byte>)
    requires p <= 8 * |bytes| && |data| <= 0xffff && |pad| == PadWidth(p)
    requires BitsAt(Unpack(bytes), p, pad + Unpack(StoredBytes(data)))
    ensures Stored(bytes, p) == Got(data, p + |pad + Unpack(StoredBytes(data))|)
  {
    hide Unpack;
    var start, all := (p + 7) / 8, StoredBytes(data);
    BitsAtConcat(Unpack(bytes), p, pad, Unpack(all));
    var to := start + |all|;
    UnpackSlice(bytes, start, to);
    UnpackInjective(bytes[start..to], all);
    assert bytes[start..to][..4] == all[..4];
    assert bytes[start + 4..to] == bytes[start..to][4..] == all[4..] == data;
    assert bytes[start] == all[0] && bytes[start + 1] == all[1] && bytes[start + 2] == all[2] &&
           bytes[start + 3] == all[3];
  }

  lemma {:induction false} StoredSound(bytes: seq<byte>, p: nat) returns (pad: seq<bit>)
    requires p <= 8 * |bytes| && Stored(bytes, p).Got?
    ensures var data := Stored(bytes, p).value;
            && |data| <= 0xffff && |pad| == PadWidth(p)
            && BitsAt(Unpack(bytes), p, pad + Unpack(StoredBytes(data)))
            && Stored(bytes, p).next == p + |pad + Unpack(StoredBytes(data))|
  {
    hide Unpack, Stored, StoredBytes, PadWidth;
    StoredSlice(bytes, p);
    var start := (p + 7) / 8;
    var data := Stored(bytes, p).value;
    var s, to := Unpack(bytes), start + 4 + |data|;
    pad := s[p..8 * start];
    UnpackSlice(bytes, start, to);
    BitsAtConcat(s, p, pad, Unpack(StoredBytes(data)));
  }

  lemma {:induction false} StoredSlice(bytes: seq<byte>, p: nat)
    requires p <= 8 * |bytes| && Stored(bytes, p).Got?
    ensures var data, start := Stored(bytes, p).value, (p + 7) / 8;
            && |data| <= 0xffff && start + 4 + |data| <= |bytes|
            && bytes[start..start + 4 + |data|] == StoredBytes(data)
            && Stored(bytes, p).next == 8 * (start + 4 + |data|) && PadWidth(p) == 8 * start - p
  {
    var start := (p + 7) / 8;
    var n := U16(bytes, start);
    assert Stored(bytes, p) == Got(bytes[start + 4..start + 4 + n], 8 * (start + 4 + n));
    U16Bytes(bytes, start);
    U16Bytes(bytes, start + 2);
    hide U16, Stored;
    assert bytes[start..start + 4 + n] == bytes[start..start + 4] + bytes[start + 4..start + 4 + n];
  }

  lemma {:induction false} U16Bytes(bytes: seq<byte>, i: nat)
    requires i + 2 <= |bytes|
    ensures U16(bytes, i) <= 0xffff && bytes[i] == U16(bytes, i) % 256 && bytes[i + 1] == U16(bytes, i) / 256
  {
  }

  lemma {:induction false} Kinds()
    ensures LeValue(LeBits(0, 2)) == 0 && LeValue(LeBits(1, 2)) == 1 && LeValue(LeBits(2, 2)) == 2 && Pow2(2) == 4
  {
    LeRoundTrip(0, 2);
    LeRoundTrip(1, 2);
    LeRoundTrip(2, 2);
  }

  lemma {:induction false} OneBlockInverts(bytes: seq<byte>, p: nat, b: DeflateBlock, out: seq<byte>, max: nat)
    requires p <= 8 * |bytes| && BlockValid(b, p, out) && BitsAt(Unpack(bytes), p, BlockBits(b, p, out))
    ensures OneBlock(bytes, p, out, max) ==
            if WithinLimit(b, p, out, max) then Got(BlockMeaning(b, p, out), p + |BlockBits(b, p, out)|)
            else Fail(OutputLimit)
  {
    hide Unpack, BitsAt, LeBits, LeValue, ReadLe, Block, Tables, TokensBits;
    hide Expand, AllPrintable, CodeOf, Stored, PadWidth, FixedLiterals, FixedDistances;
    hide Header.Valid, Header.Bits, Header.Literals, Header.Distances;
    Kinds();
    var s := Unpack(bytes);
    match b
    case StoredBlock(pad, data) =>
      BitsAtConcat(s, p, LeBits(0, 2), pad + Unpack(StoredBytes(data)));
      ReadLeInverts(s, p, 2, 0);
      InBounds(s, p + 2, pad + Unpack(StoredBytes(data)));
      StoredInverts(bytes, p + 2, pad, data);
    case FixedBlock(ts) =>
      var tb := TokensBits(LitOf(b), DistOf(b), ts, out);
      BitsAtConcat(s, p, LeBits(1, 2), tb);
      ReadLeInverts(s, p, 2, 1);
      InBounds(s, p + 2, tb);
      BlockInverts(LitOf(b), DistOf(b), s, p + 2, ts, out, max);
    case DynamicBlock(h, ts) =>
      var tb := TokensBits(LitOf(b), DistOf(b), ts, out);
      BitsAtConcat(s, p, LeBits(2, 2), h.Bits() + tb);
      BitsAtConcat(s, p + 2, h.Bits(), tb);
      ReadLeInverts(s, p, 2, 2);
      InBounds(s, p + 2 + |h.Bits()|, tb);
      TablesInvert(s, p + 2, h);
      BlockInverts(LitOf(b), DistOf(b), s, p + 2 + |h.Bits()|, ts, out, max);
  }

  ghost predicate Prints(b: DeflateBlock, bytes: seq<byte>, p: nat, out: seq<byte>, max: nat)
  {
    && p <= 8 * |bytes|
    && BlockValid(b, p, out) && BitsAt(Unpack(bytes), p, BlockBits(b, p, out)) && WithinLimit(b, p, out, max)
    && OneBlock(bytes, p, out, max) == Got(BlockMeaning(b, p, out), p + |BlockBits(b, p, out)|)
  }

  lemma {:induction false} StoredKindSound(bytes: seq<byte>, p: nat, out: seq<byte>, max: nat) returns (b: DeflateBlock)
    requires p <= 8 * |bytes| && OneBlock(bytes, p, out, max).Got? && ReadLe(Unpack(bytes), p, 2) == Got(0, p + 2)
    requires BitsAt(Unpack(bytes), p, LeBits(0, 2))
    ensures Prints(b, bytes, p, out, max)
  {
    hide Unpack, BitsAt, LeBits, LeValue, ReadLe, Block, Tables, TokensBits;
    hide Expand, AllPrintable, CodeOf, Stored, PadWidth, FixedLiterals, FixedDistances;
    var st := Stored(bytes, p + 2);
    var pad := StoredSound(bytes, p + 2);
    b := StoredBlock(pad, st.value);
    BitsAtConcat(Unpack(bytes), p, LeBits(0, 2), pad + Unpack(StoredBytes(st.value)));
  }

  lemma {:induction false} FixedKindSound(bytes: seq<byte>, p: nat, out: seq<byte>, max: nat) returns (b: DeflateBlock)
    requires p <= 8 * |bytes| && OneBlock(bytes, p, out, max).Got? && ReadLe(Unpack(bytes), p, 2) == Got(1, p + 2)
    requires BitsAt(Unpack(bytes), p, LeBits(1, 2))
    ensures Prints(b, bytes, p, out, max)
  {
    hide Unpack, BitsAt, LeBits, LeValue, ReadLe, Block, Tables, TokensBits;
    hide Expand, AllPrintable, CodeOf, Stored, PadWidth, FixedLiterals, FixedDistances;
    var ts := BlockSound(FixedLiterals(), FixedDistances(), Unpack(bytes), p + 2, out, max);
    b := FixedBlock(ts);
    BitsAtConcat(Unpack(bytes), p, LeBits(1, 2), TokensBits(LitOf(b), DistOf(b), ts, out));
  }

  lemma {:induction false} DynamicKindSound(bytes: seq<byte>, p: nat, out: seq<byte>, max: nat)
    returns (b: DeflateBlock)
    requires p <= 8 * |bytes| && OneBlock(bytes, p, out, max).Got? && ReadLe(Unpack(bytes), p, 2) == Got(2, p + 2)
    requires BitsAt(Unpack(bytes), p, LeBits(2, 2))
    ensures Prints(b, bytes, p, out, max)
  {
    hide Unpack, BitsAt, LeBits, LeValue, ReadLe, Block, Tables, TokensBits;
    hide Expand, AllPrintable, CodeOf, Stored, PadWidth, FixedLiterals, FixedDistances;
    hide Header.Valid, Header.Bits, Header.Literals, Header.Distances;
    var s := Unpack(bytes);
    var t := Tables(s, p + 2);
    var h := TablesSound(s, p + 2);
    var ts := BlockSound(t.value.0, t.value.1, s, t.next, out, max);
    b := DynamicBlock(h, ts);
    var tb := TokensBits(LitOf(b), DistOf(b), ts, out);
    BitsAtConcat(s, p + 2, h.Bits(), tb);
    BitsAtConcat(s, p, LeBits(2, 2), h.Bits() + tb);
  }

  /** Every accepted block is the printing of some stored, fixed or dynamic block. */
  lemma {:induction false} OneBlockSound(bytes: seq<byte>, p: nat, out: seq<byte>, max: nat) returns (b: DeflateBlock)
    requires p <= 8 * |bytes| && OneBlock(bytes, p, out, max).Got?
    ensures BlockValid(b, p, out) && BitsAt(Unpack(bytes), p, BlockBits(b, p, out)) && WithinLimit(b, p, out, max)
    ensures OneBlock(bytes, p, out, max) == Got(BlockMeaning(b, p, out), p + |BlockBits(b, p, out)|)
  {
    hide Unpack, BitsAt, LeBits, LeValue, ReadLe, Block, Tables;
    hide Stored, FixedLiterals, FixedDistances, BlockValid, BlockBits, BlockMeaning, WithinLimit;
    Kinds();
    var kind := ReadLe(Unpack(bytes), p, 2);
    ReadLeSound(Unpack(bytes), p, 2);
    if kind.value == 0 {
      b := StoredKindSound(bytes, p, out, max);
    } else if kind.value == 1 {
      b := FixedKindSound(bytes, p, out, max);
    } else {
      b := DynamicKindSound(bytes, p, out, max);
    }
  }

  // ----- streams -----

  /** Blocks printed in order from bit `p`; the final-block bit is set on the last one only. */
  predicate StreamValid(bs: seq<DeflateBlock>, p: nat, out: seq<byte>)
    decreases |bs|
  {
    && bs != []
    && BlockValid(bs[0], p + 1, out)
    && (|bs| > 1 ==>
          StreamValid(bs[1..], p + 1 + |BlockBits(bs[0], p + 1, out)|, BlockMeaning(bs[0], p + 1, out)))
  }

  function StreamBits(bs: seq<DeflateBlock>, p: nat, out: seq<byte>): seq<bit>
    requires StreamValid(bs, p, out)
    decreases |bs|
  {
    hide BlockValid, BlockBits, BlockMeaning, WithinLimit;
    var b := BlockBits(bs[0], p + 1, out);
    if |bs| == 1 then [1] + b
    else [0] + b + StreamBits(bs[1..], p + 1 + |b|, BlockMeaning(bs[0], p + 1, out))
  }

  /** The bytes that the blocks stand for; distances reach into earlier blocks. */
  function StreamMeaning(bs: seq<DeflateBlock>, p: nat, out: seq<byte>): seq<byte>
    requires StreamValid(bs, p, out)
    decreases |bs|
  {
    hide BlockValid, BlockBits, BlockMeaning, WithinLimit;
    var m := BlockMeaning(bs[0], p + 1, out);
    if |bs| == 1 then m else StreamMeaning(bs[1..], p + 1 + |BlockBits(bs[0], p + 1, out)|, m)
  }

  predicate StreamWithinLimit(bs: seq<DeflateBlock>, p: nat, out: seq<byte>, max: nat)
    requires StreamValid(bs, p, out)
    decreases |bs|
  {
    hide BlockValid, BlockBits, BlockMeaning, WithinLimit;
    && WithinLimit(bs[0], p + 1, out, max)
    && (|bs| > 1 ==>
          StreamWithinLimit(bs[1..], p + 1 + |BlockBits(bs[0], p + 1, out)|, BlockMeaning(bs[0], p + 1, out), max))
  }

  lemma {:induction false} FirstBit(s: seq<bit>, p: nat, x: bit, b: seq<bit>)
    ensures BitsAt(s, p, [x] + b) <==> p < |s| && s[p] == x && BitsAt(s, p + 1, b)
  {
    BitsAtConcat(s, p, [x], b);
    if p < |s| {
      assert s[p..p + 1] == [s[p]];
      assert [s[p]][0] == s[p] && [x][0] == x;
    }
  }

  lemma {:induction false} BlocksInvert(bytes: seq<byte>, p: nat, bs: seq<DeflateBlock>, out: seq<byte>, max: nat)
    requires p <= 8 * |bytes| && StreamValid(bs, p, out) && BitsAt(Unpack(bytes), p, StreamBits(bs, p, out))
    ensures BlocksFrom(bytes, p, out, max) ==
            if StreamWithinLimit(bs, p, out, max) then Got(StreamMeaning(bs, p, out), p + |StreamBits(bs, p, out)|)
            else Fail(OutputLimit)
    decreases |bs|
  {
    hide Unpack, BitsAt, OneBlock, BlockBits, BlockMeaning, BlockValid, WithinLimit;
    var s, b := Unpack(bytes), BlockBits(bs[0], p + 1, out);
    if |bs| == 1 {
      FirstBit(s, p, 1, b);
      OneBlockInverts(bytes, p + 1, bs[0], out, max);
    } else {
      var m := BlockMeaning(bs[0], p + 1, out);
      var rest := StreamBits(bs[1..], p + 1 + |b|, m);
      assert [0] + b + rest == [0] + (b + rest);
      FirstBit(s, p, 0, b + rest);
      BitsAtConcat(s, p + 1, b, rest);
      InBounds(s, p + 1 + |b|, rest);
      OneBlockInverts(bytes, p + 1, bs[0], out, max);
      BlocksInvert(bytes, p + 1 + |b|, bs[1..], m, max);
    }
  }

  lemma {:induction false} BlocksSound(bytes: seq<byte>, p: nat, out: seq<byte>, max: nat)
    returns (bs: seq<DeflateBlock>)
    requires p <= 8 * |bytes| && BlocksFrom(bytes, p, out, max).Got?
    ensures StreamValid(bs, p, out) && BitsAt(Unpack(bytes), p, StreamBits(bs, p, out))
    ensures StreamWithinLimit(bs, p, out, max)
    ensures BlocksFrom(bytes, p, out, max) == Got(StreamMeaning(bs, p, out), p + |StreamBits(bs, p, out)|)
    decreases 8 * |bytes| - p
  {
    hide Unpack, BitsAt, OneBlock, BlockBits, BlockMeaning, BlockValid, WithinLimit;
    var s := Unpack(bytes);
    var first := OneBlockSound(bytes, p + 1, out, max);
    var b := BlockBits(first, p + 1, out);
    if s[p] == 1 {
      bs := [first];
      FirstBit(s, p, 1, b);
    } else {
      var m := BlockMeaning(first, p + 1, out);
      var rest := BlocksSound(bytes, p + 1 + |b|, m, max);
      bs := [first] + rest;
      assert bs[0] == first && bs[1..] == rest;
      var rb := StreamBits(rest, p + 1 + |b|, m);
      BitsAtConcat(s, p + 1, b, rb);
      FirstBit(s, p, 0, b + rb);
      assert [0] + b + rb == [0] + (b + rb);
    }
  }

  /** The byte string starts with a printed DEFLATE stream whose meaning is `out`. */
  ghost predicate IsDeflateOf(bytes: seq<byte>, bs: seq<DeflateBlock>, out: seq<byte>)
  {
    StreamValid(bs, 0, []) && StreamBits(bs, 0, []) <= Unpack(bytes) && StreamMeaning(bs, 0, []) == out
  }

  /** Every printed stream is inflated to its meaning, unless a compressed block passes the limit. */
  lemma {:induction false} InflateInverts(bytes: seq<byte>, bs: seq<DeflateBlock>, out: seq<byte>, max: nat)
    requires IsDeflateOf(bytes, bs, out)
    ensures InflateSpec(bytes, max) == if StreamWithinLimit(bs, 0, [], max) then Ok(out) else Err(OutputLimit)
  {
    hide Unpack, StreamBits, StreamMeaning, StreamValid, StreamWithinLimit, BlocksFrom;
    var b := StreamBits(bs, 0, []);
    assert Unpack(bytes)[0..0 + |b|] == b;
    BlocksInvert(bytes, 0, bs, [], max);
  }

  lemma {:induction false} MeaningGrows(bs: seq<DeflateBlock>, p: nat, out: seq<byte>, max: nat)
    requires StreamValid(bs, p, out)
    ensures |StreamMeaning(bs, p, out)| >= |out|
    ensures |StreamMeaning(bs, p, out)| <= max ==> StreamWithinLimit(bs, p, out, max)
    decreases |bs|
  {
    hide BlockBits, BlockValid;
    assert |BlockMeaning(bs[0], p + 1, out)| >= |out| by {
      hide CodeOf, FixedLiterals, FixedDistances;
    }
    if |bs| > 1 {
      MeaningGrows(bs[1..], p + 1 + |BlockBits(bs[0], p + 1, out)|, BlockMeaning(bs[0], p + 1, out), max);
    }
  }

  /** Whenever the expansion fits the limit, inflate returns exactly the expansion. */
  lemma {:induction false} InflateReturnsExpansion(bytes: seq<byte>, bs: seq<DeflateBlock>, out: seq<byte>, max: nat)
    requires IsDeflateOf(bytes, bs, out) && |out| <= max
    ensures InflateSpec(bytes, max) == Ok(out)
  {
    MeaningGrows(bs, 0, [], max);
    InflateInverts(bytes, bs, out, max);
  }

  /** Inflate accepts exactly the printed streams that respect the limit, and returns their meaning. */
  lemma {:induction false} InflateExact(bytes: seq<byte>, out: seq<byte>, max: nat)
    ensures InflateSpec(bytes, max) == Ok(out) <==>
            exists bs :: IsDeflateOf(bytes, bs, out) && StreamWithinLimit(bs, 0, [], max)
  {
    hide Unpack, StreamBits, StreamMeaning, StreamValid, StreamWithinLimit, BlocksFrom;
    if InflateSpec(bytes, max) == Ok(out) {
      var bs := BlocksSound(bytes, 0, [], max);
      var b := StreamBits(bs, 0, []);
      assert Unpack(bytes)[0..0 + |b|] == b;
      assert IsDeflateOf(bytes, bs, out);
    }
    if bs :| IsDeflateOf(bytes, bs, out) && StreamWithinLimit(bs, 0, [], max) {
      InflateInverts(bytes, bs, out, max);
    }
  }
}
