/** The imperative decoder: a bit reader, table construction and the block loop. */
module Decoder {
  import opened Bytes
  import opened Huffman
  import opened Inflate

  /** The decoder's answer and position agree with the function that specifies it. */
  ghost predicate Agrees<T>(r: Result<T, Error>, position: nat, spec: Read<T>)
  {
    match spec
    case Got(v, next) => r == Ok(v) && position == next
    case Fail(e) => r == Err(e)
  }

  class Bits {
    const bytes: seq<byte>
    var position: nat

    ghost predicate Valid()
      reads this
    {
      position <= 8 * |bytes|
    }

    constructor (bytes: seq<byte>)
      ensures Valid() && this.bytes == bytes && position == 0
    {
      this.bytes := bytes;
      position := 0;
    }

    method Bit() returns (r: Result<bit, Error>)
      requires Valid()
      modifies this
      ensures Valid()
      ensures old(position) < 8 * |bytes| ==> r == Ok(Unpack(bytes)[old(position)]) && position == old(position) + 1
      ensures old(position) == 8 * |bytes| ==> r == Err(StreamEnded) && position == old(position)
    {
      if position / 8 >= |bytes| {
        return Err(StreamEnded);
      }
      UnpackAt(bytes, position);
      r := Ok(ShiftRight(bytes[position / 8], position % 8) % 2);
      position := position + 1;
    }

    method Read(count: nat) returns (r: Result<nat, Error>)
      requires Valid()
      modifies this
      ensures Valid() && Agrees(r, position, ReadLe(Unpack(bytes), old(position), count))
    {
      var value := 0;
      ghost var s, p := Unpack(bytes), position;
      for index := 0 to count
        invariant Valid() && position == p + index
        invariant value == LeValue(s[p..p + index])
      {
        var b := Bit();
        if b.Err? {
          return Err(b.error);
        }
        assert s[p..p + index + 1] == s[p..p + index] + [b.value];
        LeValueSnoc(s[p..p + index], b.value);
        value := value + b.value * Pow2(index);
      }
      r := Ok(value);
    }

    method Align()
      requires Valid()
      modifies this
      ensures Valid() && position == 8 * ((old(position) + 7) / 8)
    {
      position := (position + 7) / 8 * 8;
    }
  }

  // ----- Huffman::new -----

  lemma {:induction false} OffsetGrows(ls: Lengths, l: nat)
    requires ls != []
    ensures var n := |ls| - 1;
            Offset(ls, l) == Offset(ls[..n], l) + if 0 < ls[n] < l then 1 else 0
  {
    if l > 0 { OffsetGrows(ls, l - 1); }
  }

  lemma {:induction false} OffsetBound(ls: Lengths, l: nat)
    ensures Offset(ls, l) <= |ls|
  {
    if ls == [] {
      EmptyOffset(l);
    } else {
      OffsetGrows(ls, l);
      OffsetBound(ls[..|ls| - 1], l);
    }
  }

  lemma {:induction false} EmptyOffset(l: nat)
    ensures Offset([], l) == 0
  {
    if l > 0 { EmptyOffset(l - 1); }
  }

  lemma {:induction false} OffsetMono(ls: seq<nat>, a: nat, b: nat)
    requires a < b
    ensures Offset(ls, a) + Codes(ls, a) <= Offset(ls, b)
  {
    if a + 1 < b { OffsetMono(ls, a, b - 1); }
  }

  lemma {:induction false} SlotInRange(ls: Lengths, sym: nat)
    requires sym < |ls| && ls[sym] != 0
    ensures Offset(ls, ls[sym]) <= Slot(ls, sym) < Offset(ls, ls[sym]) + Codes(ls, ls[sym])
    ensures Slot(ls, sym) < |ls|
  {
    RankBelowCount(ls, sym);
    OffsetMono(ls, ls[sym], 16);
    OffsetBound(ls, 16);
  }

  lemma {:induction false} SlotInjective(ls: Lengths, a: nat, b: nat)
    requires a < |ls| && b < |ls| && ls[a] != 0 && ls[b] != 0 && a != b
    ensures Slot(ls, a) != Slot(ls, b)
  {
    SlotInRange(ls, a);
    SlotInRange(ls, b);
    if ls[a] < ls[b] {
      OffsetMono(ls, ls[a], ls[b]);
    } else if ls[b] < ls[a] {
      OffsetMono(ls, ls[b], ls[a]);
    } else if Slot(ls, a) == Slot(ls, b) {
      RankInjective(ls, a, b);
    }
  }

  lemma {:induction false} CntNone(l: nat)
    ensures Cnt([], l) == 0
  {
  }

  method CountLengths(ls: Lengths) returns (counts: array<nat>)
    ensures fresh(counts) && counts.Length == 16
    ensures forall l :: 0 <= l < 16 ==> counts[l] == Codes(ls, l)
  {
    counts := new nat[16](_ => 0);
    for i := 0 to |ls|
      invariant forall l :: 0 <= l < 16 ==> counts[l] == Cnt(ls[..i], l)
    {
      forall l | 0 <= l < 16 {
        CntStep(ls, l, i);
      }
      counts[ls[i]] := counts[ls[i]] + 1;
    }
    assert ls[..|ls|] == ls;
    counts[0] := 0;
  }

  method Offsets(ghost ls: Lengths, counts: array<nat>) returns (offsets: array<nat>)
    requires counts.Length == 16 && forall l :: 0 <= l < 16 ==> counts[l] == Codes(ls, l)
    ensures fresh(offsets) && offsets.Length == 16
    ensures forall l :: 0 <= l < 16 ==> offsets[l] == Offset(ls, l)
  {
    hide Cnt, Codes;
    offsets := new nat[16](_ => 0);
    for index := 1 to 16
      invariant forall l :: 0 <= l < index ==> offsets[l] == Offset(ls, l)
    {
      offsets[index] := offsets[index - 1] + counts[index - 1];
    }
  }

  method NewTable(ls: Lengths) returns (h: Table)
    ensures TableFor(ls, h)
  {
    hide Cnt, Offset, Codes;
    var counts := CountLengths(ls);
    var offsets := Offsets(ls, counts);
    var symbols := new nat[|ls|](_ => 0);
    forall l | 0 <= l < 16
      ensures Cnt(ls[..0], l) == 0
    {
      CntNone(l);
    }
    for sym := 0 to |ls|
      invariant forall l :: 0 <= l < 16 ==> counts[l] == Codes(ls, l)
      invariant forall l :: 1 <= l < 16 ==> offsets[l] == Offset(ls, l) + Cnt(ls[..sym], l)
      invariant forall t :: 0 <= t < sym && ls[t] != 0 ==> Slot(ls, t) < |ls| && symbols[Slot(ls, t)] == t
    {
      forall l | 0 <= l < 16 {
        CntStep(ls, l, sym);
      }
      var length := ls[sym];
      if length != 0 {
        SlotInRange(ls, sym);
        forall t | 0 <= t < sym && ls[t] != 0
          ensures Slot(ls, t) != Slot(ls, sym)
        {
          SlotInjective(ls, t, sym);
        }
        assert offsets[length] == Slot(ls, sym);
        symbols[offsets[length]] := sym;
        offsets[length] := offsets[length] + 1;
      }
    }
    h := Table(counts[..], symbols[..]);
  }

  // ----- Huffman::decode -----

  lemma {:induction false} OffsetStep(ls: Lengths, l: nat)
    ensures Offset(ls, l + 1) == Offset(ls, l) + Codes(ls, l)
  {
  }

  /** The table index is in range for every table, and holds the symbol with that code. */
  lemma {:induction false} TableLookup(ls: Lengths, h: Table, l: nat, k: nat)
    requires TableFor(ls, h) && 1 <= l < 16 && k < Codes(ls, l)
    ensures Offset(ls, l) + k < |h.symbols| && h.symbols[Offset(ls, l) + k] == Nth(ls, l, k)
  {
    hide Cnt, Offset;
    var sym := Nth(ls, l, k);
    assert Slot(ls, sym) == Offset(ls, l) + k;
  }

  method Decode(h: Table, bits: Bits, ghost ls: Lengths) returns (r: Result<nat, Error>)
    requires bits.Valid() && TableFor(ls, h)
    modifies bits
    ensures bits.Valid() && Agrees(r, bits.position, DecodeAt(ls, Unpack(bits.bytes), old(bits.position)))
  {
    hide Cnt, Nth, DecodeFrom, Pow2, LeBits, Unpack;
    var code: nat, first: nat, index: nat := 0, 0, 0;
    ghost var s, p := Unpack(bits.bytes), bits.position;
    ghost var half: nat := 0;
    assert FirstCode(ls, 0) + Codes(ls, 0) == 0 && FirstCode(ls, 1) == 0 && Offset(ls, 1) == 0;
    hide FirstCode, Offset;
    for length := 1 to 16
      invariant bits.Valid() && bits.position == p + length - 1
      invariant code == 2 * half && first == FirstCode(ls, length) && index == Offset(ls, length)
      invariant half >= FirstCode(ls, length - 1) + Codes(ls, length - 1)
      invariant DecodeFrom(ls, s, p, length, half) == DecodeAt(ls, s, p)
    {
      DecodeStep(ls, s, p, length, half);
      OffsetStep(ls, length);
      var b := bits.Bit();
      if b.Err? {
        return Err(b.error);
      }
      code := code + b.value;
      var count := h.counts[length];
      if code - first < count {
        TableLookup(ls, h, length, code - first);
        return Ok(h.symbols[index + (code - first)]);
      }
      index := index + count;
      first := 2 * (first + count);
      half := code;
      code := 2 * code;
    }
    NoCode(ls, s, p, half);
    r := Err(InvalidCode);
  }

  lemma {:induction false} NoCode(ls: Lengths, s: seq<bit>, p: nat, code: nat)
    requires code >= FirstCode(ls, 15) + Codes(ls, 15)
    ensures DecodeFrom(ls, s, p, 16, code) == Fail(InvalidCode)
  {
  }

  // ----- block -----

  method CopyMatch(before: seq<byte>, distance: nat, length: nat) returns (out: seq<byte>)
    requires 1 <= distance <= |before|
    ensures out == CopyBack(before, distance, length)
  {
    out := before;
    var start := |out| - distance;
    for offset := 0 to length
      invariant |out| == |before| + offset
      invariant CopyBack(out, distance, length - offset) == CopyBack(before, distance, length)
    {
      out := out + [out[start + offset]];
    }
  }

  method ReadReference(bits: Bits, distances: Table, index: nat, size: nat, ghost dist: Lengths)
    returns (r: Result<(nat, nat), Error>)
    requires bits.Valid() && TableFor(dist, distances) && index <= 28
    modifies bits
    ensures bits.Valid()
    ensures Agrees(r, bits.position, Reference(dist, Unpack(bits.bytes), old(bits.position), index, size))
  {
    hide DecodeAt, Pow2, Unpack, LeValue;
    var lx := bits.Read(LENGTH_EXTRA[index]);
    if lx.Err? { return Err(lx.error); }
    var length := LENGTH_BASE[index] + lx.value;
    var sym := Decode(distances, bits, dist);
    if sym.Err? { return Err(sym.error); }
    if sym.value >= |DISTANCE_BASE| {
      return Err(BadDistanceSymbol);
    }
    var dx := bits.Read(DISTANCE_EXTRA[sym.value]);
    if dx.Err? { return Err(dx.error); }
    var distance := DISTANCE_BASE[sym.value] + dx.value;
    if distance > size {
      return Err(ReferenceBeforeStart);
    }
    r := Ok((length, distance));
  }

  method DecodeBlock(bits: Bits, literals: Table, distances: Table, before: seq<byte>, max: nat,
                     ghost lit: Lengths, ghost dist: Lengths)
    returns (r: Result<seq<byte>, Error>)
    requires bits.Valid() && TableFor(lit, literals) && TableFor(dist, distances)
    modifies bits
    ensures bits.Valid()
    ensures Agrees(r, bits.position, Block(lit, dist, Unpack(bits.bytes), old(bits.position), before, max))
  {
    hide DecodeAt, Reference, Unpack, CopyBack, TableFor;
    var out := before;
    ghost var s := Unpack(bits.bytes);
    ghost var spec := Block(lit, dist, s, bits.position, out, max);
    while true
      invariant bits.Valid() && Block(lit, dist, s, bits.position, out, max) == spec
      decreases 8 * |bits.bytes| - bits.position
    {
      if |out| > max {
        return Err(OutputLimit);
      }
      var sym := Decode(literals, bits, lit);
      if sym.Err? { return Err(sym.error); }
      if sym.value <= 255 {
        out := out + [sym.value];
      } else if sym.value == 256 {
        return Ok(out);
      } else if sym.value <= 285 {
        var copy := ReadReference(bits, distances, sym.value - 257, |out|, dist);
        if copy.Err? { return Err(copy.error); }
        out := CopyMatch(out, copy.value.1, copy.value.0);
      } else {
        return Err(BadLiteralSymbol);
      }
    }
  }

  // ----- the tables of a dynamic block -----

  method ReadCodeLengths(bits: Bits, hclen: nat) returns (r: Result<Lengths, Error>)
    requires bits.Valid() && hclen <= 19
    modifies bits
    ensures bits.Valid()
    ensures Agrees(r, bits.position, CodeLengths(Unpack(bits.bytes), old(bits.position), 0, hclen, Repeat<nat>(0, 19)))
  {
    hide Unpack, LeValue;
    var ls: seq<nat> := Repeat<nat>(0, 19);
    ghost var s := Unpack(bits.bytes);
    ghost var spec := CodeLengths(s, bits.position, 0, hclen, ls);
    for k := 0 to hclen
      invariant bits.Valid() && |ls| == 19 && forall i :: 0 <= i < 19 ==> ls[i] <= 7
      invariant CodeLengths(s, bits.position, k, hclen, ls) == spec
    {
      var v := bits.Read(3);
      if v.Err? { return Err(v.error); }
      assert Pow2(3) == 8;
      ls := ls[ORDER[k] := v.value];
    }
    r := Ok(ls);
  }

  /** Writes one length `repeat` times from `start`, and stops when the table is full. */
  method Fill(lengths: array<nat>, start: nat, repeat: nat, previous: nat) returns (fits: bool)
    requires start <= lengths.Length
    modifies lengths
    ensures fits <==> start + repeat <= lengths.Length
    ensures fits ==> forall i :: start <= i < start + repeat ==> lengths[i] == previous
    ensures fits ==> forall i :: 0 <= i < lengths.Length && !(start <= i < start + repeat) ==>
            lengths[i] == old(lengths[i])
  {
    var index := start;
    for k := 0 to repeat
      invariant index == start + k <= lengths.Length
      invariant forall i :: start <= i < index ==> lengths[i] == previous
      invariant forall i :: 0 <= i < lengths.Length && !(start <= i < index) ==> lengths[i] == old(lengths[i])
    {
      if index >= lengths.Length {
        return false;
      }
      lengths[index] := previous;
      index := index + 1;
    }
    fits := true;
  }

  /** One symbol of the run-length coding, so that the loop below unfolds nothing else. */
  lemma {:induction false} RunLengthsStep(cl: Lengths, s: seq<bit>, p: nat, ls: Lengths, total: nat)
    requires p <= |s| && |ls| < total
    ensures var sym := DecodeAt(cl, s, p);
            RunLengths(cl, s, p, ls, total) ==
            if sym.Fail? then Fail(sym.error)
            else if sym.value <= 15 then RunLengths(cl, s, sym.next, ls + [sym.value], total)
            else if sym.value == 16 && ls == [] then Fail(NothingToRepeat)
            else if sym.value > 18 then Fail(BadCodeLengthSymbol)
            else
              var x := ReadLe(s, sym.next, if sym.value == 16 then 2 else if sym.value == 17 then 3 else 7);
              if x.Fail? then Fail(x.error)
              else if sym.value == 16 && |ls| + 3 + x.value > total then Fail(CodeLengthOverrun)
              else if sym.value == 16 then
                RunLengths(cl, s, x.next, ls + Repeat(ls[|ls| - 1], 3 + x.value), total)
              else RunLengths(cl, s, x.next, ls + Repeat(0, (if sym.value == 17 then 3 else 11) + x.value), total)
  {
    hide DecodeAt, LeValue, Pow2;
  }

  lemma {:induction false} RunLengthsDone(cl: Lengths, s: seq<bit>, p: nat, ls: Lengths, total: nat)
    requires p <= |s| && |ls| >= total
    ensures RunLengths(cl, s, p, ls, total) == if |ls| > total then Fail(CodeLengthOverrun) else Got(ls, p)
  {
  }

  method ReadRunLengths(bits: Bits, h: Table, total: nat, ghost cl: Lengths) returns (r: Result<Lengths, Error>)
    requires bits.Valid() && TableFor(cl, h)
    modifies bits
    ensures bits.Valid()
    ensures Agrees(r, bits.position, RunLengths(cl, Unpack(bits.bytes), old(bits.position), [], total))
  {
    hide DecodeAt, Unpack, LeValue, TableFor, Pow2, RunLengths;
    var lengths := new nat[total](_ => 0);
    var index := 0;
    ghost var ls: Lengths := [];
    ghost var s := Unpack(bits.bytes);
    ghost var spec := RunLengths(cl, s, bits.position, [], total);
    while index < total
      invariant bits.Valid() && |ls| == index
      invariant forall i :: 0 <= i < index && i < total ==> lengths[i] == ls[i]
      invariant forall i :: index <= i < total ==> lengths[i] == 0
      invariant RunLengths(cl, s, bits.position, ls, total) == spec
      decreases 8 * |bits.bytes| - bits.position
    {
      RunLengthsStep(cl, s, bits.position, ls, total);
      var sym := Decode(h, bits, cl);
      if sym.Err? { return Err(sym.error); }
      if sym.value <= 15 {
        lengths[index] := sym.value;
        index := index + 1;
        ls := ls + [sym.value];
      } else if sym.value == 16 {
        if index == 0 {
          return Err(NothingToRepeat);
        }
        var previous := lengths[index - 1];
        var x := bits.Read(2);
        if x.Err? { return Err(x.error); }
        var repeat := 3 + x.value;
        var fits := Fill(lengths, index, repeat, previous);
        if !fits {
          return Err(CodeLengthOverrun);
        }
        index := index + repeat;
        ls := ls + Repeat(previous, repeat);
      } else if sym.value == 17 {
        var x := bits.Read(3);
        if x.Err? { return Err(x.error); }
        index := index + 3 + x.value;
        ls := ls + Repeat(0, 3 + x.value);
      } else if sym.value == 18 {
        var x := bits.Read(7);
        if x.Err? { return Err(x.error); }
        index := index + 11 + x.value;
        ls := ls + Repeat(0, 11 + x.value);
      } else {
        return Err(BadCodeLengthSymbol);
      }
    }
    RunLengthsDone(cl, s, bits.position, ls, total);
    if index > total {
      return Err(CodeLengthOverrun);
    }
    assert lengths[..] == ls;
    r := Ok(lengths[..]);
  }

  method ReadTables(bits: Bits) returns (r: Result<(Lengths, Lengths), Error>)
    requires bits.Valid()
    modifies bits
    ensures bits.Valid() && Agrees(r, bits.position, Tables(Unpack(bits.bytes), old(bits.position)))
  {
    hide CodeLengths, RunLengths, Unpack, LeValue, TableFor;
    var a := bits.Read(5);
    if a.Err? { return Err(a.error); }
    var b := bits.Read(5);
    if b.Err? { return Err(b.error); }
    var c := bits.Read(4);
    if c.Err? { return Err(c.error); }
    assert Pow2(4) == 16;
    var cl := ReadCodeLengths(bits, c.value + 4);
    if cl.Err? { return Err(cl.error); }
    var h := NewTable(cl.value);
    var hlit, hdist := a.value + 257, b.value + 1;
    var ls := ReadRunLengths(bits, h, hlit + hdist, cl.value);
    if ls.Err? { return Err(ls.error); }
    r := Ok((ls.value[..hlit], ls.value[hlit..]));
  }

  // ----- inflate -----

  method FixedTables() returns (literals: Table, distances: Table)
    ensures TableFor(FixedLiterals(), literals) && TableFor(FixedDistances(), distances)
  {
    hide TableFor;
    var lengths := new nat[288];
    for symbol := 0 to 288
      invariant forall i :: 0 <= i < symbol ==> lengths[i] == FixedLiterals()[i]
    {
      lengths[symbol] :=
        if symbol <= 143 then 8 else if symbol <= 255 then 9 else if symbol <= 279 then 7 else 8;
    }
    assert lengths[..] == FixedLiterals();
    literals := NewTable(lengths[..]);
    distances := NewTable(FixedDistances());
  }

  method ReadStored(bits: Bits) returns (r: Result<seq<byte>, Error>)
    requires bits.Valid()
    modifies bits
    ensures bits.Valid() && Agrees(r, bits.position, Stored(bits.bytes, old(bits.position)))
  {
    bits.Align();
    var start := bits.position / 8;
    if start + 4 > |bits.bytes| {
      return Err(TruncatedStored);
    }
    var len := U16(bits.bytes, start);
    var nlen := U16(bits.bytes, start + 2);
    if len != 0xffff - nlen {
      return Err(StoredLengthCheck);
    }
    var from := start + 4;
    var to := from + len;
    if to > |bits.bytes| {
      return Err(TruncatedStored);
    }
    bits.position := 8 * to;
    r := Ok(bits.bytes[from..to]);
  }

  method ReadBlock(bits: Bits, before: seq<byte>, max: nat) returns (r: Result<seq<byte>, Error>)
    requires bits.Valid()
    modifies bits
    ensures bits.Valid() && Agrees(r, bits.position, OneBlock(bits.bytes, old(bits.position), before, max))
  {
    hide Block, Tables, Stored, Unpack, LeValue, TableFor;
    var kind := bits.Read(2);
    if kind.Err? { return Err(kind.error); }
    if kind.value == 0 {
      var st := ReadStored(bits);
      r := if st.Ok? then Ok(before + st.value) else Err(st.error);
    } else if kind.value == 1 {
      var literals, distances := FixedTables();
      r := DecodeBlock(bits, literals, distances, before, max, FixedLiterals(), FixedDistances());
    } else if kind.value == 2 {
      var t := ReadTables(bits);
      if t.Err? { return Err(t.error); }
      var literals := NewTable(t.value.0);
      var distances := NewTable(t.value.1);
      r := DecodeBlock(bits, literals, distances, before, max, t.value.0, t.value.1);
    } else {
      r := Err(ReservedBlockType);
    }
  }

  /** Total on every byte string; the reader never passes the end of the input. */
  method InflateBytes(bytes: seq<byte>, max: nat) returns (r: Result<seq<byte>, Error>)
    ensures r == InflateSpec(bytes, max)
    ensures r.Ok? ==> |r.value| <= max + |bytes|
  {
    hide OneBlock, Unpack;
    var bits := new Bits(bytes);
    var out: seq<byte> := [];
    while true
      invariant bits.Valid() && bits.bytes == bytes
      invariant BlocksFrom(bytes, bits.position, out, max) == BlocksFrom(bytes, 0, [], max)
      decreases 8 * |bytes| - bits.position
    {
      var final := bits.Bit();
      if final.Err? { return Err(final.error); }
      var b := ReadBlock(bits, out, max);
      if b.Err? { return b; }
      out := b.value;
      if final.value == 1 {
        return Ok(out);
      }
    }
  }
}
