/** Facts that tie the printer to the tables of RFC 1951 and show that it covers every match. */
module DeflateFacts {
  import opened Bytes
  import opened Huffman
  import opened Inflate
  import opened DeflateFormat
  import opened DeflateBlocks

  lemma {:induction false} CntConcat(a: seq<nat>, b: seq<nat>, l: nat)
    ensures Cnt(a + b, l) == Cnt(a, l) + Cnt(b, l)
  {
    if b == [] {
      assert a + b == a;
    } else {
      var n := |b| - 1;
      CntConcat(a, b[..n], l);
      assert (a + b)[..|a + b| - 1] == a + b[..n];
    }
  }

  lemma {:induction false} CntRepeat(x: nat, n: nat, l: nat)
    ensures Cnt(Repeat(x, n), l) == if x == l then n else 0
  {
    if n > 0 {
      CntRepeat(x, n - 1, l);
      assert Repeat(x, n)[..n - 1] == Repeat(x, n - 1);
    }
  }

  /** Four runs: lengths 8, 9, 7 and 8 again. */
  lemma {:induction false} FourRuns(a: nat, b: nat, c: nat, d: nat, l: nat)
    ensures Cnt(Repeat<nat>(8, a) + (Repeat<nat>(9, b) + (Repeat<nat>(7, c) + Repeat<nat>(8, d))), l) ==
            (if l == 8 then a + d else 0) + (if l == 9 then b else 0) + (if l == 7 then c else 0)
  {
    hide Cnt;
    var ra, rb, rc, rd := Repeat<nat>(8, a), Repeat<nat>(9, b), Repeat<nat>(7, c), Repeat<nat>(8, d);
    CntConcat(ra, rb + (rc + rd), l);
    CntConcat(rb, rc + rd, l);
    CntConcat(rc, rd, l);
    CntRepeat(8, a, l);
    CntRepeat(9, b, l);
    CntRepeat(7, c, l);
    CntRepeat(8, d, l);
  }

  lemma {:induction false} FixedPrefix(n: nat, l: nat)
    requires n <= 288
    ensures Cnt(FixedLiterals()[..n], l) ==
            (if l == 8 then (if n < 144 then n else 144) + (if n < 280 then 0 else n - 280) else 0)
            + (if l == 9 then (if n < 144 then 0 else if n < 256 then n - 144 else 112) else 0)
            + (if l == 7 then (if n < 256 then 0 else if n < 280 then n - 256 else 24) else 0)
  {
    hide Cnt;
    var a := if n < 144 then n else 144;
    var b := if n < 144 then 0 else if n < 256 then n - 144 else 112;
    var c := if n < 256 then 0 else if n < 280 then n - 256 else 24;
    var d := if n < 280 then 0 else n - 280;
    assert FixedLiterals()[..n] == Repeat<nat>(8, a) + (Repeat<nat>(9, b) + (Repeat<nat>(7, c) + Repeat<nat>(8, d)));
    FourRuns(a, b, c, d, l);
  }

  lemma {:induction false} ZeroLevels(ls: seq<nat>, l: nat)
    requires forall j :: 0 < j < l ==> Cnt(ls, j) == 0
    ensures FirstCode(ls, l) == 0
  {
    if l > 0 {
      ZeroLevels(ls, l - 1);
    }
  }

  lemma {:induction false} FixedFirstCodes()
    ensures FirstCode(FixedLiterals(), 7) == 0
    ensures FirstCode(FixedLiterals(), 8) == 48
    ensures FirstCode(FixedLiterals(), 9) == 400
  {
    hide Cnt;
    var ls := FixedLiterals();
    assert ls[..288] == ls;
    forall j
      ensures Cnt(ls, j) == (if j == 8 then 152 else 0) + (if j == 9 then 112 else 0) + (if j == 7 then 24 else 0)
    {
      FixedPrefix(288, j);
    }
    ZeroLevels(ls, 7);
    NextLevel(ls, 8);
    NextLevel(ls, 9);
  }

  lemma {:induction false} NextLevel(ls: seq<nat>, l: nat)
    requires l > 1
    ensures FirstCode(ls, l) == 2 * (FirstCode(ls, l - 1) + Cnt(ls, l - 1))
  {
  }

  /** The code of a literal/length symbol as the table of section 3.2.6 of RFC 1951 lists it. */
  function ListedCode(sym: nat): (nat, nat)
    requires sym < 288
  {
    if sym <= 143 then (0x30 + sym, 8)
    else if sym <= 255 then (0x190 + (sym - 144), 9)
    else if sym <= 279 then (sym - 256, 7)
    else (0xC0 + (sym - 280), 8)
  }

  /** The canonical construction gives the fixed block exactly the listed codes. */
  lemma {:induction false} FixedCodes(sym: nat)
    requires sym < 288
    ensures FixedLiterals()[sym] == ListedCode(sym).1
    ensures Codable(FixedLiterals(), sym) &&
            CodeBits(FixedLiterals(), sym) == BeBits(ListedCode(sym).0, ListedCode(sym).1)
  {
    hide Cnt, FirstCode, BeBits;
    FixedFirstCodes();
    FixedPrefix(sym, FixedLiterals()[sym]);
    assert Pow2(7) == 128 && Pow2(8) == 256 && Pow2(9) == 512 by { assert Pow2(4) == 16; }
  }

  /** All thirty fixed distance symbols have their own number as a five-bit code. */
  lemma {:induction false} FixedDistanceCodes(sym: nat)
    requires sym < 30
    ensures Codable(FixedDistances(), sym) && CodeBits(FixedDistances(), sym) == BeBits(sym, 5)
  {
    hide Cnt, BeBits, FirstCode;
    var ls := FixedDistances();
    assert ls[..sym] == Repeat<nat>(5, sym);
    CntRepeat(5, sym, 5);
    forall j | 0 < j < 5
      ensures Cnt(ls, j) == 0
    {
      CntRepeat(5, 30, j);
    }
    ZeroLevels(ls, 5);
    assert Pow2(5) == 32;
  }

  /** The length table in closed form: eight lengths without extra bits, then four per number of extra bits, and the
      longest match on its own. */
  lemma {:induction false} LengthTable(i: nat)
    requires i <= 28
    ensures |LENGTH_BASE| == |LENGTH_EXTRA| == 29
    ensures i < 8 ==> LENGTH_EXTRA[i] == 0 && LENGTH_BASE[i] == 3 + i
    ensures 8 <= i < 28 ==> LENGTH_EXTRA[i] == (i - 4) / 4 && LENGTH_BASE[i] == 3 + (4 + i % 4) * Pow2((i - 4) / 4)
    ensures i == 28 ==> LENGTH_EXTRA[i] == 0 && LENGTH_BASE[i] == 258
  {
    hide Pow2;
    PowersUpTo13();
  }

  /** The distance table in closed form: four distances without extra bits, then two per number of extra bits. */
  lemma {:induction false} DistanceTable(i: nat)
    requires i <= 29
    ensures |DISTANCE_BASE| == |DISTANCE_EXTRA| == 30
    ensures i < 4 ==> DISTANCE_EXTRA[i] == 0 && DISTANCE_BASE[i] == 1 + i
    ensures 4 <= i ==> DISTANCE_EXTRA[i] == (i - 2) / 2
    ensures 4 <= i ==> DISTANCE_BASE[i] == 1 + (2 + i % 2) * Pow2((i - 2) / 2)
  {
    hide Pow2;
    PowersUpTo13();
  }

  lemma {:induction false} LengthBelow(i: nat, x: nat)
    requires i <= 28 && x < Pow2(LENGTH_EXTRA[i])
    ensures 3 <= LENGTH_BASE[i] + x <= 258
    ensures i < 28 ==> LENGTH_BASE[i] + x < (if i == 27 then 259 else LENGTH_BASE[i + 1])
    ensures i == 28 ==> x == 0
  {
    hide Pow2;
    PowersUpTo13();
  }

  lemma {:induction false} LengthStep(i: nat)
    requires i < 28
    ensures LENGTH_BASE[i] < LENGTH_BASE[i + 1]
  {
  }

  lemma {:induction false} LengthGrows(i: nat, j: nat)
    requires i <= j <= 28
    ensures LENGTH_BASE[i] <= LENGTH_BASE[j]
    decreases j
  {
    if i < j {
      LengthGrows(i, j - 1);
      LengthStep(j - 1);
    }
  }

  lemma {:induction false} LengthsApart(i: nat, x: nat, j: nat, y: nat)
    requires i < j <= 28 && x < Pow2(LENGTH_EXTRA[i]) && y < Pow2(LENGTH_EXTRA[j])
    ensures LENGTH_BASE[i] + x < LENGTH_BASE[j] + y || LENGTH_BASE[j] + y == 258
  {
    hide Pow2;
    LengthBelow(i, x);
    LengthBelow(j, y);
    LengthGrows(i + 1, j);
  }

  lemma {:induction false} DistanceGrows(i: nat, j: nat)
    requires i <= j <= 29
    ensures DISTANCE_BASE[i] <= DISTANCE_BASE[j]
    decreases j
  {
    if i < j {
      DistanceGrows(i, j - 1);
      DistanceGap(j - 1);
    }
  }

  lemma {:induction false} DistancesApart(i: nat, x: nat, j: nat, y: nat)
    requires i < j <= 29 && x < Pow2(DISTANCE_EXTRA[i])
    ensures DISTANCE_BASE[i] + x < DISTANCE_BASE[j] + y
  {
    hide Pow2;
    DistanceGap(i);
    DistanceGrows(i + 1, j);
  }

  lemma {:induction false} DistanceBelow(i: nat, x: nat)
    requires i <= 29 && x < Pow2(DISTANCE_EXTRA[i])
    ensures 1 <= DISTANCE_BASE[i] + x <= 32768
  {
    hide Pow2;
    DistanceRow(i);
    DistanceGap(i);
    if i < 29 {
      DistanceGrows(i + 1, 29);
    }
  }

  /** Every match that can be written has a length of 3 to 258, and only 258 can be written with two symbols. */
  lemma {:induction false} LengthRange(t: Token, u: Token)
    requires t.Match? && u.Match? && WellFormed(t) && WellFormed(u)
    ensures 3 <= Length(t) <= 258
    ensures Length(t) == Length(u) ==> (t.li == u.li && t.lx == u.lx) || Length(t) == 258
  {
    hide Pow2;
    LengthBelow(t.li, t.lx);
    if t.li < u.li { LengthsApart(t.li, t.lx, u.li, u.lx); }
    if u.li < t.li { LengthsApart(u.li, u.lx, t.li, t.lx); }
  }

  /** Every match that can be written has a distance of 1 to 32768, and each distance can be written in one way. */
  lemma {:induction false} DistanceRange(t: Token, u: Token)
    requires t.Match? && u.Match? && WellFormed(t) && WellFormed(u)
    ensures 1 <= Distance(t) <= 32768
    ensures Distance(t) == Distance(u) ==> t.di == u.di && t.dx == u.dx
  {
    hide Pow2;
    DistanceBelow(t.di, t.dx);
    if t.di < u.di { DistancesApart(t.di, t.dx, u.di, u.dx); }
    if u.di < t.di { DistancesApart(u.di, u.dx, t.di, t.dx); }
  }

  lemma {:induction false} LengthGap(j: nat)
    requires j <= 27
    ensures LENGTH_BASE[j] + Pow2(LENGTH_EXTRA[j]) == if j == 27 then 259 else LENGTH_BASE[j + 1]
  {
    hide Pow2;
    PowersUpTo13();
  }

  lemma {:induction false} DistanceGap(j: nat)
    requires j <= 29
    ensures DISTANCE_BASE[j] + Pow2(DISTANCE_EXTRA[j]) == if j == 29 then 32769 else DISTANCE_BASE[j + 1]
  {
    hide Pow2;
    PowersUpTo13();
  }

  /** Some length symbol and extra bits express every match length of 3 to 258. */
  lemma {:induction false} EveryLength(n: nat) returns (li: nat, lx: nat)
    requires 3 <= n <= 258
    ensures li <= 28 && lx < Pow2(LENGTH_EXTRA[li]) && LENGTH_BASE[li] + lx == n
  {
    li := if n == 258 then 28 else 27;
    if n < 258 {
      while LENGTH_BASE[li] > n
        invariant li <= 27 && forall j :: li < j <= 27 ==> LENGTH_BASE[j] > n
        decreases li
      {
        li := li - 1;
      }
      LengthGap(li);
    } else {
      PowersUpTo13();
    }
    lx := n - LENGTH_BASE[li];
  }

  /** Some distance symbol and extra bits express every distance of 1 to 32768. */
  lemma {:induction false} EveryDistance(n: nat) returns (di: nat, dx: nat)
    requires 1 <= n <= 32768
    ensures di < 30 && dx < Pow2(DISTANCE_EXTRA[di]) && DISTANCE_BASE[di] + dx == n
  {
    di := 29;
    while DISTANCE_BASE[di] > n
      invariant di <= 29 && forall j :: di < j <= 29 ==> DISTANCE_BASE[j] > n
      decreases di
    {
      di := di - 1;
    }
    DistanceGap(di);
    dx := n - DISTANCE_BASE[di];
  }

  lemma {:induction false} PowersUpTo13()
    ensures Pow2(0) == 1 && Pow2(1) == 2 && Pow2(2) == 4 && Pow2(3) == 8 && Pow2(4) == 16 && Pow2(5) == 32 &&
            Pow2(6) == 64
    ensures Pow2(7) == 128 && Pow2(8) == 256 && Pow2(9) == 512 && Pow2(10) == 1024 && Pow2(11) == 2048
    ensures Pow2(12) == 4096 && Pow2(13) == 8192
  {
    assert Pow2(4) == 16;
    assert Pow2(8) == 256;
    assert Pow2(11) == 2048;
  }

  lemma {:induction false} FixedPrintsMatch(length: nat, distance: nat, size: nat) returns (t: Token)
    requires 3 <= length <= 258 && 1 <= distance <= 32768 && distance <= size
    ensures t.Match? && Printable(FixedLiterals(), FixedDistances(), t, size)
    ensures Length(t) == length && Distance(t) == distance
  {
    hide FixedLiterals, FixedDistances, Codable, Pow2;
    var li, lx := EveryLength(length);
    var di, dx := EveryDistance(distance);
    t := Match(li, lx, di, dx);
    FixedCodes(257 + li);
    FixedDistanceCodes(di);
  }

  /** A fixed block can print every literal and every match of DEFLATE's ranges that stays in the output. */
  lemma {:induction false} FixedPrintsEverything(length: nat, distance: nat, size: nat) returns (t: Token)
    requires 3 <= length <= 258 && 1 <= distance <= 32768 && distance <= size
    ensures t.Match? && Printable(FixedLiterals(), FixedDistances(), t, size)
    ensures Length(t) == length && Distance(t) == distance
    ensures Codable(FixedLiterals(), 256) &&
            forall b: byte :: Printable(FixedLiterals(), FixedDistances(), Literal(b), size)
  {
    hide FixedLiterals, FixedDistances, Codable, Printable, Length, Distance;
    t := FixedPrintsMatch(length, distance, size);
    FixedCodes(256);
    forall b: byte
      ensures Printable(FixedLiterals(), FixedDistances(), Literal(b), size)
    {
      FixedPrintsLiteral(b, size);
    }
  }

  lemma {:induction false} FixedPrintsLiteral(b: byte, size: nat)
    ensures Printable(FixedLiterals(), FixedDistances(), Literal(b), size)
  {
    hide FixedLiterals, FixedDistances, Codable;
    FixedCodes(b);
  }

  /** A match longer than its distance repeats the last `d` bytes: LZ77's overlapping copy. */
  lemma {:induction false} CopyBackPeriodic(out: seq<byte>, d: nat, n: nat, k: nat)
    requires 1 <= d <= |out| && k < n
    ensures CopyBack(out, d, n)[|out| + k] == out[|out| - d + k % d]
    decreases n, k
  {
    var next := out + [out[|out| - d]];
    if k == 0 {
      assert CopyBack(next, d, n - 1)[..|next|] == next;
      assert CopyBack(out, d, n)[|out|] == next[|out|];
    } else {
      CopyBackPeriodic(next, d, n - 1, k - 1);
      var i := (k - 1) % d;
      ModStep(k, d);
      if i == d - 1 {
        assert next[|next| - d + i] == out[|out| - d];
      } else {
        assert next[|next| - d + i] == out[|out| - d + i + 1];
      }
    }
  }

  lemma {:induction false} ModStep(k: nat, d: nat)
    requires k >= 1 && d >= 1
    ensures k % d == if (k - 1) % d == d - 1 then 0 else (k - 1) % d + 1
  {
    var q, r := (k - 1) / d, (k - 1) % d;
    assert k - 1 == q * d + r;
    if r == d - 1 {
      assert k == (q + 1) * d + 0;
      QuotientIs(k, d, q + 1, 0);
    } else {
      QuotientIs(k, d, q, r + 1);
    }
  }

  /** Packing a printed stream into bytes, with anything after it, gives an input that inflates. */
  lemma {:induction false} PackedStreamInflates(bs: seq<DeflateBlock>, after: seq<byte>, max: nat)
    requires StreamValid(bs, 0, []) && |StreamMeaning(bs, 0, [])| <= max
    ensures InflateSpec(Pack(StreamBits(bs, 0, [])) + after, max) == Ok(StreamMeaning(bs, 0, []))
  {
    hide Pack, Unpack, StreamBits, StreamMeaning, StreamValid, InflateSpec;
    var b := StreamBits(bs, 0, []);
    PackUnpack(b);
    UnpackConcat(Pack(b), after);
    InflateReturnsExpansion(Pack(b) + after, bs, StreamMeaning(bs, 0, []), max);
  }

  // ----- the rules of section 3.2.2 of RFC 1951 -----

  predicate Used(ls: seq<nat>, sym: nat)
  {
    sym < |ls| && ls[sym] != 0
  }

  /** Shorter codes first, and symbols of one length in their own order. */
  predicate Comes(ls: seq<nat>, a: nat, b: nat)
    requires a < |ls| && b < |ls|
  {
    ls[a] < ls[b] || (ls[a] == ls[b] && a < b)
  }

  lemma {:induction false} CntGap(ls: seq<nat>, l: nat, i: nat, j: nat)
    requires i <= j <= |ls| && forall c :: i <= c < j ==> ls[c] != l
    ensures Cnt(ls[..i], l) == Cnt(ls[..j], l)
  {
    if i < j {
      CntGap(ls, l, i, j - 1);
      CntStep(ls, l, j - 1);
    }
  }

  lemma {:induction false} NoneOf(ls: seq<nat>, l: nat, n: nat)
    requires n <= |ls| && forall c :: 0 <= c < n ==> ls[c] != l
    ensures Cnt(ls[..n], l) == 0
  {
    CntGap(ls, l, 0, n);
  }

  lemma {:induction false} LevelsApart(ls: seq<nat>, low: nat, high: nat)
    requires 0 < low < high && forall j :: low < j < high ==> Cnt(ls, j) == 0
    ensures FirstCode(ls, high) == (FirstCode(ls, low) + Cnt(ls, low)) * Pow2(high - low)
    decreases high
  {
    hide Cnt;
    NextLevel(ls, high);
    var x := FirstCode(ls, low) + Cnt(ls, low);
    if low + 1 < high {
      LevelsApart(ls, low, high - 1);
      assert Pow2(high - low) == 2 * Pow2(high - 1 - low);
      MulDouble(x, Pow2(high - 1 - low));
    } else {
      assert Pow2(1) == 2 * Pow2(0);
    }
  }

  /** The first code is all zeros. */
  lemma {:induction false} CanonicalFirst(ls: seq<nat>, b: nat)
    requires Used(ls, b) && forall c :: Used(ls, c) && c != b ==> Comes(ls, b, c)
    ensures CodeOf(ls, b) == 0
  {
    hide Cnt;
    forall j | 0 < j < ls[b]
      ensures Cnt(ls, j) == 0
    {
      assert forall c :: 0 <= c < |ls| && ls[c] == j ==> Used(ls, c);
      NoneOf(ls, j, |ls|);
      assert ls[..|ls|] == ls;
    }
    ZeroLevels(ls, ls[b]);
    assert forall c :: 0 <= c < b && ls[c] == ls[b] ==> Used(ls, c);
    NoneOf(ls, ls[b], b);
  }

  /** Each code is the one before it plus one, with zeros added where the codes get longer. */
  lemma {:induction false} CanonicalNext(ls: seq<nat>, a: nat, b: nat)
    requires Used(ls, a) && Used(ls, b) && Comes(ls, a, b)
    requires forall c :: Used(ls, c) ==> !(Comes(ls, a, c) && Comes(ls, c, b))
    ensures CodeOf(ls, b) == (CodeOf(ls, a) + 1) * Pow2(ls[b] - ls[a])
  {
    hide Cnt, FirstCode;
    var la, lb := ls[a], ls[b];
    assert forall c :: 0 <= c < |ls| && ls[c] != 0 ==> Used(ls, c);
    CntStep(ls, la, a);
    assert ls[..|ls|] == ls;
    if la == lb {
      CntGap(ls, la, a + 1, b);
    } else {
      CntGap(ls, la, a + 1, |ls|);
      forall j | la < j < lb
        ensures Cnt(ls, j) == 0
      {
        NoneOf(ls, j, |ls|);
      }
      LevelsApart(ls, la, lb);
      NoneOf(ls, lb, b);
    }
  }

  // ----- every code length table can be sent -----

  /** The order of the code length codes in closed form: the three repeats, zero, then outwards from eight. */
  lemma {:induction false} OrderTable(k: nat)
    requires k <= 7
    ensures |ORDER| == 19 && ORDER[0] == 16 && ORDER[1] == 17 && ORDER[2] == 18 && ORDER[3] == 0
    ensures ORDER[4 + 2 * k] == 8 + k
    ensures k <= 6 ==> ORDER[5 + 2 * k] == 7 - k
  {
  }

  /** Where each code length symbol stands in `ORDER`. */
  const PLACE: seq<nat> := [3, 17, 15, 13, 11, 9, 7, 5, 4, 6, 8, 10, 12, 14, 16, 18, 0, 1, 2]

  lemma {:induction false} PlaceInverts(i: nat)
    requires i < 19
    ensures PLACE[i] < 19 && ORDER[PLACE[i]] == i && ORDER[i] < 19 && PLACE[ORDER[i]] == i
  {
  }

  lemma {:induction false} ScatterAt(cls: seq<nat>, k: nat, ls: seq<nat>, sym: nat)
    requires k + |cls| <= 19 && |ls| == 19 && sym < 19
    requires forall i :: 0 <= i < 19 ==> ls[i] <= 7
    requires forall i :: 0 <= i < |cls| ==> cls[i] <= 7
    ensures Scatter(cls, k, ls)[sym] == if k <= PLACE[sym] < k + |cls| then cls[PLACE[sym] - k] else ls[sym]
    decreases |cls|
  {
    PlaceInverts(sym);
    if cls != [] {
      PlaceInverts(k);
      ScatterAt(cls[1..], k + 1, ls[ORDER[k] := cls[0]], sym);
    }
  }

  /** Nineteen three-bit fields in the order of section 3.2.7 of RFC 1951 express every code length table. */
  lemma {:induction false} EveryCodeTable(ls: seq<nat>) returns (cls: seq<nat>)
    requires |ls| == 19 && forall i :: 0 <= i < 19 ==> ls[i] <= 7
    ensures |cls| == 19 && (forall i :: 0 <= i < 19 ==> cls[i] <= 7) && Scatter(cls, 0, Repeat<nat>(0, 19)) == ls
  {
    forall k | 0 <= k < 19
      ensures ORDER[k] < 19
    {
      PlaceInverts(k);
    }
    cls := seq(19, k requires 0 <= k < 19 => ls[ORDER[k]]);
    forall sym | 0 <= sym < 19
      ensures Scatter(cls, 0, Repeat<nat>(0, 19))[sym] == ls[sym]
    {
      PlaceInverts(sym);
      ScatterAt(cls, 0, Repeat<nat>(0, 19), sym);
    }
  }
}
