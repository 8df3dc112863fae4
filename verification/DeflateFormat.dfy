/** The DEFLATE format of section 3.2 of RFC 1951 as a printer, and the proof that the decoder inverts it. */
module DeflateFormat {
  import opened Bytes
  import opened Huffman
  import opened Inflate

  // ----- reading what was printed -----

  lemma {:induction false} BitsAtConcat(s: seq<bit>, p: nat, a: seq<bit>, b: seq<bit>)
    ensures BitsAt(s, p, a + b) <==> BitsAt(s, p, a) && BitsAt(s, p + |a|, b)
  {
    var n := p + |a| + |b|;
    if n <= |s| {
      assert s[p..n] == s[p..p + |a|] + s[p + |a|..n];
      assert s[p..n][..|a|] == s[p..p + |a|] && s[p..n][|a|..] == s[p + |a|..n];
      assert (a + b)[..|a|] == a && (a + b)[|a|..] == b;
    }
  }

  lemma {:induction false} ReadLeInverts(s: seq<bit>, p: nat, n: nat, v: nat)
    requires v < Pow2(n)
    ensures ReadLe(s, p, n) == Got(v, p + n) <==> BitsAt(s, p, LeBits(v, n))
  {
    LeRoundTrip(v, n);
    if p + n <= |s| {
      LeRoundTripBits(s[p..p + n]);
    }
  }

  // ----- tokens -----

  datatype Token = Literal(b: byte) | Match(li: nat, lx: nat, di: nat, dx: nat)

  predicate WellFormed(t: Token)
  {
    t.Match? ==>
      && t.li <= 28 && t.lx < Pow2(LENGTH_EXTRA[t.li])
      && t.di < 30 && t.dx < Pow2(DISTANCE_EXTRA[t.di])
  }

  function Length(t: Token): nat
    requires t.Match? && WellFormed(t)
  {
    LENGTH_BASE[t.li] + t.lx
  }

  function Distance(t: Token): (d: nat)
    requires t.Match? && WellFormed(t)
    ensures d >= 1
  {
    DISTANCE_BASE[t.di] + t.dx
  }

  /** The token can be printed with these tables, and does not reach before the output. */
  predicate Printable(lit: Lengths, dist: Lengths, t: Token, size: nat)
  {
    && WellFormed(t)
    && match t
       case Literal(b) => Codable(lit, b)
       case Match(li, _, di, _) => Codable(lit, 257 + li) && Codable(dist, di) && Distance(t) <= size
  }

  function MatchTail(dist: Lengths, t: Token): seq<bit>
    requires t.Match? && WellFormed(t) && t.di < |dist|
  {
    LeBits(t.lx, LENGTH_EXTRA[t.li]) + DistanceBits(dist, t.di, t.dx)
  }

  function DistanceBits(dist: Lengths, di: nat, dx: nat): seq<bit>
    requires di < 30 && di < |dist|
  {
    CodeBits(dist, di) + LeBits(dx, DISTANCE_EXTRA[di])
  }

  function TokenBits(lit: Lengths, dist: Lengths, t: Token): seq<bit>
    requires WellFormed(t)
    requires t.Literal? ==> t.b < |lit|
    requires t.Match? ==> 257 + t.li < |lit| && t.di < |dist|
  {
    match t
    case Literal(b) => CodeBits(lit, b)
    case Match(li, _, _, _) => CodeBits(lit, 257 + li) + MatchTail(dist, t)
  }

  /** The LZ77 meaning of one token. */
  function Apply(t: Token, out: seq<byte>): (r: seq<byte>)
    requires t.Match? ==> WellFormed(t) && Distance(t) <= |out|
    ensures |r| >= |out|
  {
    match t
    case Literal(b) => out + [b]
    case Match(_, _, _, _) => CopyBack(out, Distance(t), Length(t))
  }

  predicate AllPrintable(lit: Lengths, dist: Lengths, ts: seq<Token>, out: seq<byte>)
  {
    ts == [] || (Printable(lit, dist, ts[0], |out|) && AllPrintable(lit, dist, ts[1..], Apply(ts[0], out)))
  }

  function Expand(lit: Lengths, dist: Lengths, ts: seq<Token>, out: seq<byte>): (r: seq<byte>)
    requires AllPrintable(lit, dist, ts, out)
    ensures |r| >= |out|
  {
    if ts == [] then out else Expand(lit, dist, ts[1..], Apply(ts[0], out))
  }

  /** The tokens in order, then the end-of-block symbol. */
  function TokensBits(lit: Lengths, dist: Lengths, ts: seq<Token>, out: seq<byte>): seq<bit>
    requires |lit| > 256 && AllPrintable(lit, dist, ts, out)
  {
    if ts == [] then CodeBits(lit, 256)
    else TokenBits(lit, dist, ts[0]) + TokensBits(lit, dist, ts[1..], Apply(ts[0], out))
  }

  lemma {:induction false} ReferenceInverts(dist: Lengths, s: seq<bit>, p: nat, t: Token, size: nat)
    requires p <= |s| && t.Match? && WellFormed(t) && Codable(dist, t.di) && Distance(t) <= size
    requires BitsAt(s, p, MatchTail(dist, t))
    ensures Reference(dist, s, p, t.li, size) == Got((Length(t), Distance(t)), p + |MatchTail(dist, t)|)
  {
    hide LeBits, LeValue, Pow2, CodeBits, DistanceAt, BitsAt, CodeOf, DistanceBits;
    var n := LENGTH_EXTRA[t.li];
    BitsAtConcat(s, p, LeBits(t.lx, n), DistanceBits(dist, t.di, t.dx));
    ReadLeInverts(s, p, n, t.lx);
    DistanceInverts(dist, s, p + n, t.di, t.dx, size);
  }

  lemma {:induction false} DistanceInverts(dist: Lengths, s: seq<bit>, p: nat, di: nat, dx: nat, size: nat)
    requires di < 30 && dx < Pow2(DISTANCE_EXTRA[di]) && Codable(dist, di) && DISTANCE_BASE[di] + dx <= size
    requires p <= |s| && BitsAt(s, p, DistanceBits(dist, di, dx))
    ensures DistanceAt(dist, s, p, size) == Got(DISTANCE_BASE[di] + dx, p + |DistanceBits(dist, di, dx)|)
  {
    hide LeBits, LeValue, Pow2, CodeBits, DecodeAt, BitsAt, CodeOf, ReadLe;
    var n := DISTANCE_EXTRA[di];
    BitsAtConcat(s, p, CodeBits(dist, di), LeBits(dx, n));
    SymbolInverts(dist, s, p, di);
    ReadLeInverts(s, p + |CodeBits(dist, di)|, n, dx);
  }

  lemma {:induction false} SymbolInverts(ls: Lengths, s: seq<bit>, p: nat, sym: nat)
    requires Codable(ls, sym) && BitsAt(s, p, CodeBits(ls, sym))
    ensures DecodeAt(ls, s, p) == Got(sym, p + |CodeBits(ls, sym)|)
  {
    DecodeInvertsCode(ls, s, p, sym);
  }

  lemma {:induction false} SymbolSound(ls: Lengths, s: seq<bit>, p: nat)
    requires p <= |s| && DecodeAt(ls, s, p).Got?
    ensures var r := DecodeAt(ls, s, p);
            Codable(ls, r.value) && BitsAt(s, p, CodeBits(ls, r.value)) && r.next == p + |CodeBits(ls, r.value)|
  {
    DecodeInvertsCode(ls, s, p, DecodeAt(ls, s, p).value);
  }

  lemma {:induction false} LiteralStep(lit: Lengths, dist: Lengths, s: seq<bit>, p: nat, t: Token, out: seq<byte>,
                                     max: nat)
    requires p <= |s| && |out| <= max && Printable(lit, dist, t, |out|) && t.Literal?
    requires BitsAt(s, p, TokenBits(lit, dist, t))
    ensures var q := p + |TokenBits(lit, dist, t)|;
            q <= |s| && Block(lit, dist, s, p, out, max) == Block(lit, dist, s, q, Apply(t, out), max)
  {
    hide DecodeAt, Reference, CopyBack, CodeBits, BitsAt, CodeOf, MatchTail, Pow2;
    InBounds(s, p, TokenBits(lit, dist, t));
    SymbolInverts(lit, s, p, t.b);
  }

  lemma {:induction false} MatchStep(lit: Lengths, dist: Lengths, s: seq<bit>, p: nat, t: Token, out: seq<byte>,
                                     max: nat)
    requires p <= |s| && |out| <= max && Printable(lit, dist, t, |out|) && t.Match?
    requires BitsAt(s, p, TokenBits(lit, dist, t))
    ensures var q := p + |TokenBits(lit, dist, t)|;
            q <= |s| && Block(lit, dist, s, p, out, max) == Block(lit, dist, s, q, Apply(t, out), max)
  {
    hide DecodeAt, Reference, CopyBack, CodeBits, BitsAt, CodeOf, MatchTail, Pow2;
    InBounds(s, p, TokenBits(lit, dist, t));
    BitsAtConcat(s, p, CodeBits(lit, 257 + t.li), MatchTail(dist, t));
    SymbolInverts(lit, s, p, 257 + t.li);
    ReferenceInverts(dist, s, p + |CodeBits(lit, 257 + t.li)|, t, |out|);
  }

  lemma {:induction false} TokenStep(lit: Lengths, dist: Lengths, s: seq<bit>, p: nat, t: Token, out: seq<byte>,
                                     max: nat)
    requires p <= |s| && |out| <= max && Printable(lit, dist, t, |out|)
    requires BitsAt(s, p, TokenBits(lit, dist, t))
    ensures var q := p + |TokenBits(lit, dist, t)|;
            q <= |s| && Block(lit, dist, s, p, out, max) == Block(lit, dist, s, q, Apply(t, out), max)
  {
    hide Block, BitsAt, TokenBits, Printable, Apply;
    if t.Literal? {
      LiteralStep(lit, dist, s, p, t, out, max);
    } else {
      MatchStep(lit, dist, s, p, t, out, max);
    }
  }

  lemma {:induction false} TokensStep(lit: Lengths, dist: Lengths, ts: seq<Token>, out: seq<byte>)
    requires |lit| > 256 && ts != [] && AllPrintable(lit, dist, ts, out)
    ensures Printable(lit, dist, ts[0], |out|) && AllPrintable(lit, dist, ts[1..], Apply(ts[0], out))
    ensures TokensBits(lit, dist, ts, out) ==
            TokenBits(lit, dist, ts[0]) + TokensBits(lit, dist, ts[1..], Apply(ts[0], out))
    ensures Expand(lit, dist, ts, out) == Expand(lit, dist, ts[1..], Apply(ts[0], out))
  {
    hide Printable, Apply, TokenBits;
  }

  lemma {:induction false} EndInverts(lit: Lengths, dist: Lengths, s: seq<bit>, p: nat, out: seq<byte>, max: nat)
    requires p <= |s| && Codable(lit, 256) && BitsAt(s, p, TokensBits(lit, dist, [], out))
    ensures Expand(lit, dist, [], out) == out
    ensures Block(lit, dist, s, p, out, max) ==
            if |out| <= max then Got(out, p + |TokensBits(lit, dist, [], out)|) else Fail(OutputLimit)
  {
    hide DecodeAt, Reference, CopyBack, CodeBits, BitsAt, CodeOf;
    SymbolInverts(lit, s, p, 256);
  }

  lemma {:induction false} OverLimit(lit: Lengths, dist: Lengths, s: seq<bit>, p: nat, out: seq<byte>, max: nat)
    requires p <= |s| && |out| > max
    ensures Block(lit, dist, s, p, out, max) == Fail(OutputLimit)
  {
  }

  /** A printed block is decoded to its expansion, or refused when that is over the limit. */
  lemma {:induction false} BlockInverts(lit: Lengths, dist: Lengths, s: seq<bit>, p: nat, ts: seq<Token>,
                                        out: seq<byte>, max: nat)
    requires p <= |s| && Codable(lit, 256) && AllPrintable(lit, dist, ts, out)
    requires BitsAt(s, p, TokensBits(lit, dist, ts, out))
    ensures var whole := Expand(lit, dist, ts, out);
            Block(lit, dist, s, p, out, max) ==
            if |whole| <= max then Got(whole, p + |TokensBits(lit, dist, ts, out)|) else Fail(OutputLimit)
    decreases |ts|
  {
    hide DecodeAt, Reference, CopyBack, CodeBits, BitsAt, CodeOf, MatchTail, Pow2;
    hide Block, TokensBits, Expand, AllPrintable, TokenBits, Apply;
    if ts == [] {
      EndInverts(lit, dist, s, p, out, max);
    } else if |out| > max {
      OverLimit(lit, dist, s, p, out, max);
    } else {
      TokensStep(lit, dist, ts, out);
      var t, b := ts[0], TokenBits(lit, dist, ts[0]);
      BitsAtConcat(s, p, b, TokensBits(lit, dist, ts[1..], Apply(t, out)));
      TokenStep(lit, dist, s, p, t, out, max);
      BlockInverts(lit, dist, s, p + |b|, ts[1..], Apply(t, out), max);
    }
  }

  lemma {:induction false} InBounds(s: seq<bit>, p: nat, b: seq<bit>)
    requires BitsAt(s, p, b)
    ensures p + |b| <= |s|
  {
  }

  lemma {:induction false} ReadLeSound(s: seq<bit>, p: nat, n: nat)
    requires ReadLe(s, p, n).Got?
    ensures var r := ReadLe(s, p, n);
            r.value < Pow2(n) && r.next == p + n && BitsAt(s, p, LeBits(r.value, n))
  {
    ReadLeInverts(s, p, n, ReadLe(s, p, n).value);
  }

  lemma {:induction false} ReferenceSound(dist: Lengths, s: seq<bit>, p: nat, li: nat, size: nat) returns (t: Token)
    requires p <= |s| && li <= 28 && Reference(dist, s, p, li, size).Got?
    ensures t.Match? && t.li == li && WellFormed(t) && Codable(dist, t.di) && Distance(t) <= size
    ensures BitsAt(s, p, MatchTail(dist, t))
    ensures Reference(dist, s, p, li, size) == Got((Length(t), Distance(t)), p + |MatchTail(dist, t)|)
  {
    hide LeBits, LeValue, Pow2, CodeBits, DistanceAt, BitsAt, CodeOf, ReadLe, DistanceBits;
    var n := LENGTH_EXTRA[li];
    var lx := ReadLe(s, p, n);
    ReadLeSound(s, p, n);
    var di, dx := DistanceSound(dist, s, lx.next, size);
    t := Match(li, lx.value, di, dx);
    BitsAtConcat(s, p, LeBits(t.lx, n), DistanceBits(dist, di, dx));
  }

  lemma {:induction false} DistanceSound(dist: Lengths, s: seq<bit>, p: nat, size: nat) returns (di: nat, dx: nat)
    requires p <= |s| && DistanceAt(dist, s, p, size).Got?
    ensures di < 30 && dx < Pow2(DISTANCE_EXTRA[di]) && Codable(dist, di) && DISTANCE_BASE[di] + dx <= size
    ensures BitsAt(s, p, DistanceBits(dist, di, dx))
    ensures DistanceAt(dist, s, p, size) == Got(DISTANCE_BASE[di] + dx, p + |DistanceBits(dist, di, dx)|)
  {
    hide LeBits, LeValue, Pow2, CodeBits, DecodeAt, BitsAt, CodeOf, ReadLe;
    var ds := DecodeAt(dist, s, p);
    SymbolSound(dist, s, p);
    di := ds.value;
    var n := DISTANCE_EXTRA[di];
    dx := ReadLe(s, ds.next, n).value;
    ReadLeSound(s, ds.next, n);
    BitsAtConcat(s, p, CodeBits(dist, di), LeBits(dx, n));
  }

  /** The token the decoder reads next, when it accepts one. */
  lemma {:induction false} TokenSound(lit: Lengths, dist: Lengths, s: seq<bit>, p: nat, out: seq<byte>, max: nat)
    returns (t: Token)
    requires p <= |s| && Block(lit, dist, s, p, out, max).Got?
    requires DecodeAt(lit, s, p).Got? && DecodeAt(lit, s, p).value != 256
    ensures Printable(lit, dist, t, |out|) && BitsAt(s, p, TokenBits(lit, dist, t)) && |TokenBits(lit, dist, t)| > 0
    ensures var q := p + |TokenBits(lit, dist, t)|;
            q <= |s| && Block(lit, dist, s, p, out, max) == Block(lit, dist, s, q, Apply(t, out), max)
  {
    hide Reference, CopyBack, BitsAt, CodeOf, MatchTail, Pow2, DecodeAt;
    var sym := DecodeAt(lit, s, p);
    SymbolSound(lit, s, p);
    if sym.value <= 255 {
      t := Literal(sym.value);
    } else {
      t := ReferenceSound(dist, s, sym.next, sym.value - 257, |out|);
      BitsAtConcat(s, p, CodeBits(lit, sym.value), MatchTail(dist, t));
    }
    InBounds(s, p, TokenBits(lit, dist, t));
  }

  /** Every accepted block is the printing of some token list. */
  lemma {:induction false} BlockSound(lit: Lengths, dist: Lengths, s: seq<bit>, p: nat, out: seq<byte>, max: nat)
    returns (ts: seq<Token>)
    requires p <= |s| && Block(lit, dist, s, p, out, max).Got?
    ensures Codable(lit, 256) && AllPrintable(lit, dist, ts, out)
    ensures BitsAt(s, p, TokensBits(lit, dist, ts, out))
    ensures var whole := Expand(lit, dist, ts, out);
            |whole| <= max && Block(lit, dist, s, p, out, max) == Got(whole, p + |TokensBits(lit, dist, ts, out)|)
    decreases |s| - p
  {
    hide Reference, CopyBack, BitsAt, CodeOf, Pow2, DecodeAt, CodeBits, TokenBits;
    if DecodeAt(lit, s, p).value == 256 {
      SymbolSound(lit, s, p);
      ts := [];
    } else {
      var t := TokenSound(lit, dist, s, p, out, max);
      var b := TokenBits(lit, dist, t);
      var rest := BlockSound(lit, dist, s, p + |b|, Apply(t, out), max);
      ts := [t] + rest;
      assert ts[0] == t && ts[1..] == rest;
      BitsAtConcat(s, p, b, TokensBits(lit, dist, rest, Apply(t, out)));
    }
  }
}
