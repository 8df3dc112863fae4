/** What the DEFLATE decoder refuses, and with which error, said on printed streams that break a rule of RFC 1951. */
module DeflateErrors {
  import opened Bytes
  import opened Huffman
  import opened Inflate
  import opened DeflateFormat
  import opened DeflateBlocks

  /** A printed match that reaches before the start of the output. */
  lemma {:induction false} TooFarBack(lit: Lengths, dist: Lengths, s: seq<bit>, p: nat, t: Token, out: seq<byte>,
                                      max: nat)
    requires p <= |s| && |out| <= max && t.Match? && WellFormed(t) && Codable(lit, 257 + t.li) && Codable(dist, t.di)
    requires BitsAt(s, p, TokenBits(lit, dist, t)) && Distance(t) > |out|
    ensures Block(lit, dist, s, p, out, max) == Fail(ReferenceBeforeStart)
  {
    hide DecodeAt, CodeBits, BitsAt, CodeOf, Pow2, LeBits, LeValue, ReadLe, DistanceAt, DistanceBits;
    var q, n := p + |CodeBits(lit, 257 + t.li)|, LENGTH_EXTRA[t.li];
    BitsAtConcat(s, p, CodeBits(lit, 257 + t.li), MatchTail(dist, t));
    BitsAtConcat(s, q, LeBits(t.lx, n), DistanceBits(dist, t.di, t.dx));
    SymbolInverts(lit, s, p, 257 + t.li);
    ReadLeInverts(s, q, n, t.lx);
    DistanceTooFar(dist, s, q + n, t, |out|);
  }

  lemma {:induction false} DistanceTooFar(dist: Lengths, s: seq<bit>, p: nat, t: Token, size: nat)
    requires t.Match? && WellFormed(t) && Codable(dist, t.di) && Distance(t) > size
    requires BitsAt(s, p, DistanceBits(dist, t.di, t.dx))
    ensures DistanceAt(dist, s, p, size) == Fail(ReferenceBeforeStart)
  {
    hide DecodeAt, CodeBits, BitsAt, CodeOf, Pow2, LeBits, LeValue, ReadLe;
    var m := DISTANCE_EXTRA[t.di];
    BitsAtConcat(s, p, CodeBits(dist, t.di), LeBits(t.dx, m));
    SymbolInverts(dist, s, p, t.di);
    ReadLeInverts(s, p + |CodeBits(dist, t.di)|, m, t.dx);
  }

  /** A literal/length symbol above 285. */
  lemma {:induction false} NoSuchLength(lit: Lengths, dist: Lengths, s: seq<bit>, p: nat, sym: nat, out: seq<byte>,
                                        max: nat)
    requires p <= |s| && |out| <= max && sym >= 286 && Codable(lit, sym) && BitsAt(s, p, CodeBits(lit, sym))
    ensures Block(lit, dist, s, p, out, max) == Fail(BadLiteralSymbol)
  {
    hide DecodeAt, CodeBits, BitsAt, CodeOf, Pow2;
    SymbolInverts(lit, s, p, sym);
  }

  /** A printed length followed by a distance symbol above 29. */
  lemma {:induction false} NoSuchDistance(lit: Lengths, dist: Lengths, s: seq<bit>, p: nat, li: nat, lx: nat, di: nat,
                                          out: seq<byte>, max: nat)
    requires p <= |s| && |out| <= max && li <= 28 && lx < Pow2(LENGTH_EXTRA[li]) && di >= 30
    requires Codable(lit, 257 + li) && Codable(dist, di)
    requires BitsAt(s, p, CodeBits(lit, 257 + li) + (LeBits(lx, LENGTH_EXTRA[li]) + CodeBits(dist, di)))
    ensures Block(lit, dist, s, p, out, max) == Fail(BadDistanceSymbol)
  {
    hide DecodeAt, CodeBits, BitsAt, CodeOf, Pow2, LeBits, LeValue, ReadLe;
    var q, n := p + |CodeBits(lit, 257 + li)|, LENGTH_EXTRA[li];
    BitsAtConcat(s, p, CodeBits(lit, 257 + li), LeBits(lx, n) + CodeBits(dist, di));
    BitsAtConcat(s, q, LeBits(lx, n), CodeBits(dist, di));
    SymbolInverts(lit, s, p, 257 + li);
    ReadLeInverts(s, q, n, lx);
    SymbolInverts(dist, s, q + n, di);
  }

  /** A repeat of the previous length where there is none. */
  lemma {:induction false} NothingBefore(cl: Lengths, s: seq<bit>, p: nat, total: nat)
    requires p <= |s| && total > 0 && Codable(cl, 16) && BitsAt(s, p, CodeBits(cl, 16))
    ensures RunLengths(cl, s, p, [], total) == Fail(NothingToRepeat)
  {
    hide DecodeAt, CodeBits, BitsAt, CodeOf, Pow2, ReadLe;
    SymbolInverts(cl, s, p, 16);
  }

  /** A printed run that passes the end of the table. */
  lemma {:induction false} RunPastEnd(cl: Lengths, s: seq<bit>, p: nat, op: Op, ls: Lengths, total: nat)
    requires p <= |s| && |ls| < total && OpPrintable(cl, op, ls) && |ApplyOp(op, ls)| > total
    requires BitsAt(s, p, OpBits(cl, op))
    ensures RunLengths(cl, s, p, ls, total) == Fail(CodeLengthOverrun)
  {
    hide DecodeAt, CodeBits, BitsAt, CodeOf, Pow2, LeBits, LeValue;
    var sym := OpSymbol(op);
    BitsAtConcat(s, p, CodeBits(cl, sym), LeBits(OpExtra(op), OpWidth(op)));
    SymbolInverts(cl, s, p, sym);
    ReadLeInverts(s, p + |CodeBits(cl, sym)|, OpWidth(op), OpExtra(op));
  }

  /** Block type three. */
  lemma {:induction false} ReservedType(bytes: seq<byte>, p: nat, out: seq<byte>, max: nat)
    requires p <= 8 * |bytes| && BitsAt(Unpack(bytes), p, [1, 1])
    ensures OneBlock(bytes, p, out, max) == Fail(ReservedBlockType)
  {
    hide Unpack, BitsAt, Stored, Tables, Block;
    assert LeBits(3, 2) == [1] + LeBits(1, 1) == [1, 1] by { assert LeBits(1, 1) == [1] + []; }
    assert Pow2(2) == 4 by { assert Pow2(1) == 2; }
    ReadLeInverts(Unpack(bytes), p, 2, 3);
  }

  /** A stored block is refused for its length if and only if some byte of the second field is not the complement of the
      first field's, and as truncated if and only if its fields or its data pass the end. */
  lemma {:induction false} StoredRefused(bytes: seq<byte>, p: nat)
    requires p <= 8 * |bytes|
    ensures var at := (p + 7) / 8;
            && (Stored(bytes, p) == Fail(StoredLengthCheck) <==>
                  at + 4 <= |bytes| && (bytes[at + 2] != 255 - bytes[at] || bytes[at + 3] != 255 - bytes[at + 1]))
            && (Stored(bytes, p) == Fail(TruncatedStored) <==>
                  || at + 4 > |bytes|
                  || (bytes[at + 2] == 255 - bytes[at] && bytes[at + 3] == 255 - bytes[at + 1]
                      && |bytes| - (at + 4) < bytes[at] as int + 256 * bytes[at + 1] as int))
  {
    var at := (p + 7) / 8;
    if at + 4 <= |bytes| {
      Complement(bytes[at], bytes[at + 1], bytes[at + 2], bytes[at + 3]);
    }
  }

  lemma {:induction false} Complement(a: nat, b: nat, c: nat, d: nat)
    requires a < 256 && b < 256 && c < 256 && d < 256
    ensures a + 256 * b == 0xffff - (c + 256 * d) <==> c == 255 - a && d == 255 - b
  {
  }
}
