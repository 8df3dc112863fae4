/** Canonical Huffman codes (section 3.2.2 of RFC 1951) and the counting decoder. */
module Huffman {
  import opened Bytes

  datatype Error =
    | StreamEnded
    | InvalidCode
    | TruncatedStored
    | StoredLengthCheck
    | NothingToRepeat
    | CodeLengthOverrun
    | BadCodeLengthSymbol
    | ReservedBlockType
    | OutputLimit
    | BadDistanceSymbol
    | ReferenceBeforeStart
    | BadLiteralSymbol

  /** The outcome of reading at a bit position: a value and the next position. */
  datatype Read<+T> = Got(value: T, next: nat) | Fail(error: Error)

  /** Code lengths per symbol; zero means that the symbol is not used. */
  type Lengths = ls: seq<nat> | forall i :: 0 <= i < |ls| ==> ls[i] <= 15

  function Cnt(ls: seq<nat>, l: nat): (n: nat)
    ensures n <= |ls|
  {
    if ls == [] then 0
    else Cnt(ls[..|ls| - 1], l) + if ls[|ls| - 1] == l then 1 else 0
  }

  /** How many codes have length `l`: `bl_count`, with the unused symbols left out. */
  function Codes(ls: seq<nat>, l: nat): (n: nat)
    ensures n <= |ls|
  {
    if l == 0 then 0 else Cnt(ls, l)
  }

  /** The smallest code of length `l`: `next_code` in section 3.2.2 of RFC 1951. */
  function FirstCode(ls: seq<nat>, l: nat): nat
  {
    if l == 0 then 0 else 2 * (FirstCode(ls, l - 1) + Codes(ls, l - 1))
  }

  /** Symbols of one length get consecutive codes in symbol order. */
  function CodeOf(ls: seq<nat>, sym: nat): nat
    requires sym < |ls|
  {
    FirstCode(ls, ls[sym]) + Cnt(ls[..sym], ls[sym])
  }

  function CodeBits(ls: seq<nat>, sym: nat): seq<bit>
    requires sym < |ls|
  {
    BeBits(CodeOf(ls, sym), ls[sym])
  }

  /** The symbol has a code, and the code fits in its length. */
  predicate Codable(ls: seq<nat>, sym: nat)
  {
    sym < |ls| && ls[sym] != 0 && CodeOf(ls, sym) < Pow2(ls[sym])
  }

  /** The `k`-th symbol, in symbol order, whose code has length `l`. */
  function Nth(ls: seq<nat>, l: nat, k: nat): (sym: nat)
    requires k < Cnt(ls, l)
    ensures sym < |ls| && ls[sym] == l && Cnt(ls[..sym], l) == k
  {
    var n := |ls| - 1;
    if ls[n] == l && Cnt(ls[..n], l) == k then n
    else
      var r := Nth(ls[..n], l, k);
      assert ls[..n][..r] == ls[..r];
      r
  }

  lemma {:induction false} CntMono(ls: seq<nat>, l: nat, i: nat, j: nat)
    requires i <= j <= |ls|
    ensures Cnt(ls[..i], l) <= Cnt(ls[..j], l)
    decreases j
  {
    if i < j {
      assert ls[..j][..j - 1] == ls[..j - 1];
      CntMono(ls, l, i, j - 1);
    }
  }

  lemma {:induction false} CntStep(ls: seq<nat>, l: nat, i: nat)
    requires i < |ls|
    ensures Cnt(ls[..i + 1], l) == Cnt(ls[..i], l) + if ls[i] == l then 1 else 0
  {
    assert ls[..i + 1][..i] == ls[..i];
  }

  lemma {:induction false} RankBelowCount(ls: seq<nat>, sym: nat)
    requires sym < |ls|
    ensures Cnt(ls[..sym], ls[sym]) < Cnt(ls, ls[sym])
  {
    CntStep(ls, ls[sym], sym);
    CntMono(ls, ls[sym], sym + 1, |ls|);
    assert ls[..|ls|] == ls;
  }

  lemma {:induction false} RankInjective(ls: seq<nat>, a: nat, b: nat)
    requires a < |ls| && b < |ls| && ls[a] == ls[b]
    requires Cnt(ls[..a], ls[a]) == Cnt(ls[..b], ls[a])
    ensures a == b
  {
    if a < b {
      CntStep(ls, ls[a], a);
      CntMono(ls, ls[a], a + 1, b);
    } else if b < a {
      CntStep(ls, ls[a], b);
      CntMono(ls, ls[a], b + 1, a);
    }
  }

  lemma {:induction false} NthOfRank(ls: seq<nat>, sym: nat)
    requires sym < |ls|
    ensures Cnt(ls[..sym], ls[sym]) < Cnt(ls, ls[sym])
    ensures Nth(ls, ls[sym], Cnt(ls[..sym], ls[sym])) == sym
  {
    RankBelowCount(ls, sym);
    RankInjective(ls, Nth(ls, ls[sym], Cnt(ls[..sym], ls[sym])), sym);
  }

  /** What the decoder returns at `p`, having read `l - 1` bits worth `code`. */
  function DecodeFrom(ls: Lengths, s: seq<bit>, p: nat, l: nat, code: nat): (r: Read<nat>)
    requires 1 <= l <= 16
    requires code >= FirstCode(ls, l - 1) + Codes(ls, l - 1)
    ensures r.Got? ==> r.value < |ls| && p < r.next <= |s|
    decreases 16 - l
  {
    if l == 16 then Fail(InvalidCode)
    else if p + l - 1 >= |s| then Fail(StreamEnded)
    else
      var c := 2 * code + s[p + l - 1];
      if c - FirstCode(ls, l) < Codes(ls, l) then Got(Nth(ls, l, c - FirstCode(ls, l)), p + l)
      else DecodeFrom(ls, s, p, l + 1, c)
  }

  function DecodeAt(ls: Lengths, s: seq<bit>, p: nat): (r: Read<nat>)
    ensures r.Got? ==> r.value < |ls| && p < r.next <= |s|
  {
    DecodeFrom(ls, s, p, 1, 0)
  }

  /** One more bit: either the stream ends, or a symbol is found, or the code is longer. */
  lemma {:induction false} DecodeStep(ls: Lengths, s: seq<bit>, p: nat, l: nat, code: nat)
    requires 1 <= l < 16 && code >= FirstCode(ls, l - 1) + Codes(ls, l - 1)
    ensures FirstCode(ls, l + 1) == 2 * (FirstCode(ls, l) + Codes(ls, l))
    ensures p + l - 1 >= |s| ==> DecodeFrom(ls, s, p, l, code) == Fail(StreamEnded)
    ensures p + l - 1 < |s| ==>
              var c := 2 * code + s[p + l - 1];
              && FirstCode(ls, l) <= c
              && (c - FirstCode(ls, l) < Codes(ls, l) ==>
                    DecodeFrom(ls, s, p, l, code) == Got(Nth(ls, l, c - FirstCode(ls, l)), p + l))
              && (c - FirstCode(ls, l) >= Codes(ls, l) ==>
                    DecodeFrom(ls, s, p, l, code) == DecodeFrom(ls, s, p, l + 1, c))
  {
    hide Cnt;
  }

  predicate BitsAt(s: seq<bit>, p: nat, b: seq<bit>)
  {
    p + |b| <= |s| && s[p..p + |b|] == b
  }

  lemma {:induction false} BeValueSnoc(s: seq<bit>, p: nat, l: nat)
    requires p + l < |s|
    ensures BeValue(s[p..p + l + 1]) == 2 * BeValue(s[p..p + l]) + s[p + l]
  {
    assert s[p..p + l + 1][..l] == s[p..p + l];
  }

  lemma {:induction false} SymbolAtCode(ls: Lengths, l: nat, b: seq<bit>)
    requires 1 <= l == |b| && 0 <= BeValue(b) - FirstCode(ls, l) < Codes(ls, l)
    ensures var sym := Nth(ls, l, BeValue(b) - FirstCode(ls, l));
            Codable(ls, sym) && ls[sym] == l && CodeBits(ls, sym) == b
  {
    var sym := Nth(ls, l, BeValue(b) - FirstCode(ls, l));
    assert CodeOf(ls, sym) == BeValue(b);
    BeRoundTripBits(b);
  }

  /** Soundness, for every table: what was read is the code of the symbol returned. */
  lemma {:induction false} DecodeFromSound(ls: Lengths, s: seq<bit>, p: nat, l: nat, code: nat)
    requires 1 <= l <= 16
    requires code >= FirstCode(ls, l - 1) + Codes(ls, l - 1)
    requires p + l - 1 <= |s| && code == BeValue(s[p..p + l - 1])
    ensures var r := DecodeFrom(ls, s, p, l, code);
            r.Got? ==> Codable(ls, r.value) && r.next == p + ls[r.value] && BitsAt(s, p, CodeBits(ls, r.value))
    decreases 16 - l
  {
    hide Cnt, Nth, BeValue, Pow2, BeBits, CodeOf, FirstCode, Codes, Codable, CodeBits;
    if l < 16 && p + l - 1 < |s| {
      hide DecodeFrom;
      DecodeStep(ls, s, p, l, code);
      var c := 2 * code + s[p + l - 1];
      BeValueSnoc(s, p, l - 1);
      if c - FirstCode(ls, l) < Codes(ls, l) {
        SymbolAtCode(ls, l, s[p..p + l]);
      } else {
        DecodeFromSound(ls, s, p, l + 1, c);
      }
    }
  }

  lemma {:induction false} FirstCodeScales(ls: seq<nat>, j: nat, l: nat)
    requires j < l
    ensures FirstCode(ls, l) >= (FirstCode(ls, j) + Codes(ls, j)) * Pow2(l - j)
    decreases l
  {
    if j + 1 < l {
      FirstCodeScales(ls, j, l - 1);
      MulDouble(FirstCode(ls, j) + Codes(ls, j), Pow2(l - 1 - j));
    } else {
      assert Pow2(1) == 2;
    }
  }

  lemma {:induction false} BeValuePrefix(b: seq<bit>, j: nat)
    requires j <= |b|
    ensures BeValue(b) < (BeValue(b[..j]) + 1) * Pow2(|b| - j)
    decreases |b|
  {
    if j < |b| {
      var n := |b| - 1;
      BeValuePrefix(b[..n], j);
      assert b[..n][..j] == b[..j];
      MulDouble(BeValue(b[..j]) + 1, Pow2(n - j));
    } else {
      assert b[..j] == b;
    }
  }

  /** No shorter code is a prefix of this one, so the decoder keeps reading. */
  lemma {:induction false} NoEarlyStop(ls: seq<nat>, sym: nat, j: nat)
    requires Codable(ls, sym) && j < ls[sym]
    ensures BeValue(CodeBits(ls, sym)[..j]) >= FirstCode(ls, j) + Codes(ls, j)
  {
    var l, c := ls[sym], CodeOf(ls, sym);
    var b := CodeBits(ls, sym);
    BeRoundTrip(c, l);
    BeValuePrefix(b, j);
    FirstCodeScales(ls, j, l);
    var x, y, m := BeValue(b[..j]), FirstCode(ls, j) + Codes(ls, j), Pow2(l - j);
    assert y * m < (x + 1) * m;
    MulCancel(y, x + 1, m);
  }

  lemma {:induction false} MulCancel(a: nat, b: nat, m: nat)
    requires a * m < b * m
    ensures a < b
  {
    assert a >= b ==> a * m >= b * m;
  }

  lemma {:induction false} LastBitStops(ls: Lengths, sym: nat, c: nat)
    requires Codable(ls, sym) && c == BeValue(CodeBits(ls, sym))
    ensures 0 <= c - FirstCode(ls, ls[sym]) < Codes(ls, ls[sym])
    ensures Nth(ls, ls[sym], c - FirstCode(ls, ls[sym])) == sym
  {
    BeRoundTrip(CodeOf(ls, sym), ls[sym]);
    NthOfRank(ls, sym);
  }

  lemma {:induction false} MulCancelEq(a: nat, b: nat, m: nat)
    requires a * m <= b * m && m > 0
    ensures a <= b
  {
    if a > b { MulStep(b, a, m); }
  }

  lemma {:induction false} DecodeFromComplete(ls: Lengths, s: seq<bit>, p: nat, l: nat, code: nat, sym: nat)
    requires Codable(ls, sym) && BitsAt(s, p, CodeBits(ls, sym))
    requires 1 <= l <= ls[sym]
    requires code >= FirstCode(ls, l - 1) + Codes(ls, l - 1)
    requires code == BeValue(CodeBits(ls, sym)[..l - 1])
    ensures DecodeFrom(ls, s, p, l, code) == Got(sym, p + ls[sym])
    decreases ls[sym] - l
  {
    hide Cnt, FirstCode, BeValue, BeBits, CodeOf, Pow2, Nth, DecodeFrom, Codes;
    DecodeStep(ls, s, p, l, code);
    var b := CodeBits(ls, sym);
    var c := 2 * code + s[p + l - 1];
    assert s[p + l - 1] == s[p..p + |b|][l - 1] == b[l - 1];
    assert c == BeValue(b[..l]) by { BeValueSnoc(b, 0, l - 1); }
    if l < ls[sym] {
      NoEarlyStop(ls, sym, l);
      DecodeFromComplete(ls, s, p, l + 1, c, sym);
    } else {
      assert b[..l] == b;
      LastBitStops(ls, sym, c);
    }
  }

  /** Decoding inverts the canonical code: a symbol is returned if and only if its code is next. */
  lemma {:induction false} DecodeInvertsCode(ls: Lengths, s: seq<bit>, p: nat, sym: nat)
    requires p <= |s|
    ensures (exists n :: DecodeAt(ls, s, p) == Got(sym, n)) <==> Codable(ls, sym) && BitsAt(s, p, CodeBits(ls, sym))
    ensures DecodeAt(ls, s, p).Got? && DecodeAt(ls, s, p).value == sym ==>
              Codable(ls, sym) && BitsAt(s, p, CodeBits(ls, sym)) && DecodeAt(ls, s, p).next == p + ls[sym]
  {
    DecodeFromSound(ls, s, p, 1, 0);
    if Codable(ls, sym) && BitsAt(s, p, CodeBits(ls, sym)) {
      DecodeFromComplete(ls, s, p, 1, 0, sym);
    }
  }

  // ----- which tables give every used symbol a code -----

  /** The Kraft sum of the table, scaled by the longest length. */
  function Kraft(ls: Lengths): nat
  {
    if ls == [] then 0
    else
      var n := |ls| - 1;
      Kraft(ls[..n]) + if ls[n] == 0 then 0 else Pow2(15 - ls[n])
  }

  lemma {:induction false} LevelGrows(ls: Lengths, l: nat)
    requires ls != [] && l <= 15
    ensures var n := |ls| - 1;
            var x := ls[n];
            FirstCode(ls, l) + Codes(ls, l) ==
            FirstCode(ls[..n], l) + Codes(ls[..n], l) + if x == 0 || x > l then 0 else Pow2(l - x)
  {
    if l > 0 {
      LevelGrows(ls, l - 1);
    }
  }

  lemma {:induction false} KraftIsLastLevel(ls: Lengths)
    ensures FirstCode(ls, 15) + Codes(ls, 15) == Kraft(ls)
  {
    if ls == [] {
      EmptyLevels(15);
    } else {
      LevelGrows(ls, 15);
      KraftIsLastLevel(ls[..|ls| - 1]);
    }
  }

  lemma {:induction false} EmptyLevels(l: nat)
    ensures FirstCode([], l) + Codes([], l) == 0
  {
    if l > 0 { EmptyLevels(l - 1); }
  }

  lemma {:induction false} LevelFits(ls: Lengths, l: nat, top: nat)
    requires l <= top && FirstCode(ls, top) + Codes(ls, top) <= Pow2(top)
    ensures FirstCode(ls, l) + Codes(ls, l) <= Pow2(l)
  {
    hide Cnt, FirstCode, Pow2, Codes;
    if l < top {
      FirstCodeScales(ls, l, top);
      PowAdd(l, top - l);
      MulCancelEq(FirstCode(ls, l) + Codes(ls, l), Pow2(l), Pow2(top - l));
    }
  }

  /** A table that is not over-subscribed gives every used symbol a code that fits. */
  lemma {:induction false} NotOversubscribed(ls: Lengths, sym: nat)
    requires Kraft(ls) <= Pow2(15)
    requires sym < |ls| && ls[sym] != 0
    ensures Codable(ls, sym)
  {
    KraftIsLastLevel(ls);
    LevelFits(ls, ls[sym], 15);
    RankBelowCount(ls, sym);
  }

  // ----- the decoder's tables -----

  /** Where the symbols of length `l` start in the symbol table. */
  function Offset(ls: seq<nat>, l: nat): nat
  {
    if l == 0 then 0 else Offset(ls, l - 1) + Codes(ls, l - 1)
  }

  datatype Table = Table(counts: seq<nat>, symbols: seq<nat>)

  ghost predicate TableFor(ls: Lengths, h: Table)
  {
    && |h.counts| == 16
    && (forall l :: 0 <= l < 16 ==> h.counts[l] == Codes(ls, l))
    && |h.symbols| == |ls|
    && (forall sym :: 0 <= sym < |ls| && ls[sym] != 0 ==> Slot(ls, sym) < |ls| && h.symbols[Slot(ls, sym)] == sym)
  }

  /** The place of a used symbol in the table: grouped by length, then in symbol order. */
  function Slot(ls: seq<nat>, sym: nat): nat
    requires sym < |ls|
  {
    Offset(ls, ls[sym]) + Cnt(ls[..sym], ls[sym])
  }
}
