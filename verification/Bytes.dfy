/** Bytes, bits and the little-endian bit order of a DEFLATE stream. */
module Bytes {

  type byte = x: int | 0 <= x < 256
  type bit = x: int | 0 <= x < 2

  datatype Option<+T> = None | Some(value: T)
  datatype Result<+T, +E> = Ok(value: T) | Err(error: E)

  function Pow2(n: nat): (r: nat)
    ensures r > 0
  {
    if n == 0 then 1 else 2 * Pow2(n - 1)
  }

  /** The low `n` bits of `v`, least significant first. */
  function LeBits(v: nat, n: nat): (r: seq<bit>)
    ensures |r| == n
  {
    if n == 0 then [] else [v % 2] + LeBits(v / 2, n - 1)
  }

  /** The number whose bits, least significant first, are `s`. */
  function LeValue(s: seq<bit>): (v: nat)
    ensures v < Pow2(|s|)
  {
    if s == [] then 0 else s[0] + 2 * LeValue(s[1..])
  }

  /** The low `n` bits of `v`, most significant first: the order of a Huffman code. */
  function BeBits(v: nat, n: nat): (r: seq<bit>)
    ensures |r| == n
  {
    if n == 0 then [] else BeBits(v / 2, n - 1) + [v % 2]
  }

  function BeValue(s: seq<bit>): (v: nat)
    ensures v < Pow2(|s|)
  {
    if s == [] then 0 else 2 * BeValue(s[..|s| - 1]) + s[|s| - 1]
  }

  lemma {:induction false} LeRoundTrip(v: nat, n: nat)
    requires v < Pow2(n)
    ensures LeValue(LeBits(v, n)) == v
  {
    if n > 0 {
      LeRoundTrip(v / 2, n - 1);
      assert LeBits(v, n)[1..] == LeBits(v / 2, n - 1);
    }
  }

  lemma {:induction false} LeRoundTripBits(s: seq<bit>)
    ensures LeBits(LeValue(s), |s|) == s
  {
    if s != [] {
      LeRoundTripBits(s[1..]);
      assert LeValue(s) / 2 == LeValue(s[1..]);
      assert s == [s[0]] + s[1..];
    }
  }

  lemma {:induction false} BeRoundTrip(v: nat, n: nat)
    requires v < Pow2(n)
    ensures BeValue(BeBits(v, n)) == v
  {
    if n > 0 {
      BeRoundTrip(v / 2, n - 1);
      assert BeBits(v, n)[..n - 1] == BeBits(v / 2, n - 1);
    }
  }

  lemma {:induction false} BeRoundTripBits(s: seq<bit>)
    ensures BeBits(BeValue(s), |s|) == s
  {
    if s != [] {
      BeRoundTripBits(s[..|s| - 1]);
      assert BeValue(s) / 2 == BeValue(s[..|s| - 1]);
      assert s == s[..|s| - 1] + [s[|s| - 1]];
    }
  }

  /** The value grows by its new top bit, which is how `Bits::bits` accumulates it. */
  lemma {:induction false} LeValueSnoc(s: seq<bit>, b: bit)
    ensures LeValue(s + [b]) == LeValue(s) + b * Pow2(|s|)
  {
    if s == [] {
      assert [b][1..] == [];
    } else {
      LeValueSnoc(s[1..], b);
      assert (s + [b])[1..] == s[1..] + [b];
      assert b * (2 * Pow2(|s| - 1)) == 2 * (b * Pow2(|s| - 1));
    }
  }

  /** The right shift, one halving at a time. */
  function ShiftRight(v: nat, n: nat): nat
  {
    if n == 0 then v else ShiftRight(v / 2, n - 1)
  }

  lemma {:induction false} LeBitsAt(v: nat, n: nat, i: nat)
    requires i < n
    ensures LeBits(v, n)[i] == ShiftRight(v, i) % 2
  {
    if i > 0 {
      LeBitsAt(v / 2, n - 1, i - 1);
    }
  }

  lemma {:induction false} QuotientIs(x: nat, d: nat, q: nat, r: nat)
    requires d > 0 && r < d && x == q * d + r
    ensures x / d == q
  {
    var k := q - x / d;
    assert k * d == q * d - (x / d) * d == x % d - r;
    SmallMultiple(k, d);
  }

  lemma {:induction false} MulStep(a: nat, b: nat, m: nat)
    requires a < b
    ensures a * m + m <= b * m
  {
    assert b * m == (a + 1) * m + (b - a - 1) * m;
  }

  lemma {:induction false} MulDouble(x: nat, m: nat)
    ensures x * (2 * m) == 2 * (x * m)
  {
  }

  lemma {:induction false} SmallMultiple(k: int, d: int)
    requires 0 < d && -d < k * d < d
    ensures k == 0
  {
    assert k >= 1 ==> k * d >= d;
    assert k <= -1 ==> k * d <= -d;
  }

  /** A byte string as the bit sequence DEFLATE reads, each byte lowest bit first. */
  function Unpack(bytes: seq<byte>): (s: seq<bit>)
    ensures |s| == 8 * |bytes|
  {
    if bytes == [] then [] else LeBits(bytes[0], 8) + Unpack(bytes[1..])
  }

  /** Bits gathered into bytes, the last byte filled with zero bits. */
  function Pack(s: seq<bit>): (bytes: seq<byte>)
    decreases |s|
  {
    if s == [] then []
    else if |s| <= 8 then LeByte(s); [LeValue(s)]
    else LeByte(s[..8]); [LeValue(s[..8])] + Pack(s[8..])
  }

  lemma {:induction false} LeByte(s: seq<bit>)
    requires |s| <= 8
    ensures LeValue(s) < 256
  {
    PowMono(|s|, 8);
    assert Pow2(8) == 256 by { assert Pow2(4) == 16; }
  }

  lemma {:induction false} PowMono(a: nat, b: nat)
    requires a <= b
    ensures Pow2(a) <= Pow2(b)
    decreases b - a
  {
    if a < b { PowMono(a, b - 1); }
  }

  lemma {:induction false} PowStep(n: nat)
    requires n > 0
    ensures Pow2(n) == 2 * Pow2(n - 1)
  {
  }

  lemma {:induction false} DoubleFirst(x: nat, y: nat)
    ensures 2 * (x * y) == 2 * x * y
  {
  }

  lemma {:induction false} PowAdd(a: nat, b: nat)
    ensures Pow2(a + b) == Pow2(a) * Pow2(b)
  {
    if a > 0 {
      calc {
        Pow2(a + b);
        { PowStep(a + b); }
        2 * Pow2(a - 1 + b);
        { PowAdd(a - 1, b); }
        2 * (Pow2(a - 1) * Pow2(b));
        { DoubleFirst(Pow2(a - 1), Pow2(b)); }
        2 * Pow2(a - 1) * Pow2(b);
        { PowStep(a); }
        Pow2(a) * Pow2(b);
      }
    }
  }

  lemma {:induction false} LeValuePad(s: seq<bit>, n: nat)
    requires |s| <= n
    ensures LeBits(LeValue(s), n)[..|s|] == s
  {
    if s != [] {
      LeValuePad(s[1..], n - 1);
      assert LeValue(s) / 2 == LeValue(s[1..]);
      var r := LeBits(LeValue(s), n);
      assert r[..|s|] == [s[0]] + LeBits(LeValue(s[1..]), n - 1)[..|s| - 1];
    }
  }

  /** Packing loses nothing: the stream starts with the bits that were packed. */
  lemma {:induction false} PackUnpack(s: seq<bit>)
    ensures s <= Unpack(Pack(s))
    decreases |s|
  {
    if s == [] {
    } else if |s| <= 8 {
      LeByte(s);
      LeValuePad(s, 8);
      assert Unpack(Pack(s)) == LeBits(LeValue(s), 8) + [];
    } else {
      LeByte(s[..8]);
      PackUnpack(s[8..]);
      LeRoundTripBits(s[..8]);
      assert Pack(s)[1..] == Pack(s[8..]);
      assert Unpack(Pack(s)) == s[..8] + Unpack(Pack(s[8..]));
      assert s == s[..8] + s[8..];
    }
  }

  lemma {:induction false} UnpackConcat(a: seq<byte>, b: seq<byte>)
    ensures Unpack(a + b) == Unpack(a) + Unpack(b)
  {
    if a == [] {
      assert a + b == b;
    } else {
      calc {
        Unpack(a + b);
        { assert (a + b)[0] == a[0] && (a + b)[1..] == a[1..] + b; }
        LeBits(a[0], 8) + Unpack(a[1..] + b);
        { UnpackConcat(a[1..], b); }
        LeBits(a[0], 8) + (Unpack(a[1..]) + Unpack(b));
        (LeBits(a[0], 8) + Unpack(a[1..])) + Unpack(b);
      }
    }
  }

  lemma {:induction false} Middle<T>(x: seq<T>, y: seq<T>, z: seq<T>, i: nat, j: nat, whole: seq<T>)
    requires |x| == i <= j && |y| == j - i && whole == x + (y + z)
    ensures |whole| >= j && whole[i..j] == y
  {
  }

  lemma {:induction false} Split3<T>(s: seq<T>, i: nat, j: nat)
    requires i <= j <= |s|
    ensures s == s[..i] + (s[i..j] + s[j..])
  {
  }

  lemma {:induction false} UnpackSlice(bytes: seq<byte>, i: nat, j: nat)
    requires i <= j <= |bytes|
    ensures Unpack(bytes)[8 * i..8 * j] == Unpack(bytes[i..j])
  {
    Split3(bytes, i, j);
    UnpackMiddle(bytes[..i], bytes[i..j], bytes[j..]);
  }

  lemma {:induction false} UnpackMiddle(x: seq<byte>, y: seq<byte>, z: seq<byte>)
    ensures Unpack(x + (y + z))[8 * |x|..8 * |x| + 8 * |y|] == Unpack(y)
  {
    UnpackConcat(x, y + z);
    UnpackConcat(y, z);
    Middle(Unpack(x), Unpack(y), Unpack(z), 8 * |x|, 8 * |x| + 8 * |y|, Unpack(x + (y + z)));
  }

  lemma {:induction false} UnpackInjective(a: seq<byte>, b: seq<byte>)
    requires Unpack(a) == Unpack(b)
    ensures a == b
  {
    assert |a| == |b|;
    if a != [] {
      var s := Unpack(a);
      assert s[..8] == LeBits(a[0], 8) && s[..8] == LeBits(b[0], 8);
      assert s[8..] == Unpack(a[1..]) && s[8..] == Unpack(b[1..]);
      assert Pow2(8) == 256 by { assert Pow2(4) == 16; }
      LeRoundTrip(a[0], 8);
      LeRoundTrip(b[0], 8);
      UnpackInjective(a[1..], b[1..]);
    }
  }

  /** Bit `p` of the stream is the shift and mask that `Bits::bit` performs. */
  lemma {:induction false} UnpackAt(bytes: seq<byte>, p: nat)
    requires p < 8 * |bytes|
    ensures Unpack(bytes)[p] == ShiftRight(bytes[p / 8], p % 8) % 2
  {
    var i := p / 8;
    UnpackSlice(bytes, i, i + 1);
    UnpackOne(bytes[i]);
    assert bytes[i..i + 1] == [bytes[i]];
    hide Unpack, LeBits, ShiftRight;
    LeBitsAt(bytes[i], 8, p % 8);
    assert Unpack(bytes)[p] == Unpack(bytes)[8 * i..8 * (i + 1)][p % 8];
  }

  lemma {:induction false} UnpackOne(b: byte)
    ensures Unpack([b]) == LeBits(b, 8)
  {
    hide LeBits;
    assert [b][1..] == [];
    assert LeBits(b, 8) + [] == LeBits(b, 8);
  }

  // ----- 32-bit big-endian numbers -----

  function Be32(b: seq<byte>): (r: nat)
    requires |b| >= 4
    ensures r < 0x1_0000_0000
  {
    b[0] as int * 0x100_0000 + b[1] as int * 0x1_0000 + b[2] as int * 0x100 + b[3] as int
  }

  function Be32Bytes(n: nat): (r: seq<byte>)
    requires n < 0x1_0000_0000
    ensures |r| == 4
  {
    [n / 0x100_0000, n / 0x1_0000 % 0x100, n / 0x100 % 0x100, n % 0x100]
  }

  lemma {:induction false} Be32RoundTrip(n: nat, rest: seq<byte>)
    requires n < 0x1_0000_0000
    ensures Be32(Be32Bytes(n) + rest) == n
  {
    assert n / 0x1_0000 % 0x100 == n / 0x1_0000 - n / 0x100_0000 * 0x100;
    assert n / 0x100 % 0x100 == n / 0x100 - n / 0x1_0000 * 0x100;
  }

  lemma {:induction false} Be32Back(b: seq<byte>)
    requires |b| >= 4
    ensures Be32Bytes(Be32(b)) == b[..4]
  {
    var n := Be32(b);
    var low := b[1] as int * 0x1_0000 + b[2] as int * 0x100 + b[3] as int;
    assert n == b[0] as int * 0x100_0000 + low && 0 <= low < 0x100_0000;
    assert n / 0x100_0000 == b[0];
    assert n / 0x1_0000 == b[0] as int * 0x100 + b[1] as int;
    assert n / 0x100 == (b[0] as int * 0x100 + b[1] as int) * 0x100 + b[2] as int;
  }
}
