/** Fixed-width unsigned arithmetic written out over the unbounded integers:
    powers of two, shifts and bitwise `and`. */
module Bits {

  /** 2 to the power n */
  function Pow2(n: nat): (r: nat)
    ensures r > 0
  {
    if n == 0 then 1 else 2 * Pow2(n - 1)
  }

  const WORD: nat := 0x1_0000_0000_0000_0000

  /** A value of the source's `size_t` */
  type Word = x: int | 0 <= x < 0x1_0000_0000_0000_0000

  /** x >> k */
  function Shr(x: nat, k: nat): nat {
    if k == 0 then x else Shr(x / 2, k - 1)
  }

  /** Bitwise `and` of two unsigned numbers */
  function And(x: nat, y: nat): (r: nat)
    ensures r <= x && r <= y
  {
    if x == 0 || y == 0 then 0
    else 2 * And(x / 2, y / 2) + (if x % 2 == 1 && y % 2 == 1 then 1 else 0)
  }

  lemma {:induction false} Pow2Mono(a: nat, b: nat)
    requires a <= b
    ensures Pow2(a) <= Pow2(b)
  {
    if a < b {
      Pow2Mono(a, b - 1);
    }
  }

  lemma {:induction false} Pow2Adds(a: nat, b: nat)
    ensures Pow2(a + b) == Pow2(a) * Pow2(b)
  {
    if a > 0 {
      Pow2Adds(a - 1, b);
      calc {
        Pow2(a + b);
        2 * Pow2(a + b - 1);
        2 * (Pow2(a - 1) * Pow2(b));
        Pow2(a) * Pow2(b);
      }
    }
  }

  lemma Pow2Of64()
    ensures Pow2(64) == WORD
  {
    assert Pow2(8) == 256;
    Pow2Adds(8, 8);
    Pow2Adds(16, 16);
    Pow2Adds(32, 32);
  }

  lemma {:induction false} ShrBound(x: nat, k: nat, m: nat)
    requires k <= m && x < Pow2(m)
    ensures Shr(x, k) < Pow2(m - k)
  {
    if k > 0 {
      ShrBound(x / 2, k - 1, m - 1);
    }
  }

  lemma {:induction false} ShrStep(x: nat, k: nat)
    ensures Shr(x, k + 1) == Shr(x, k) / 2
  {
    if k > 0 {
      ShrStep(x / 2, k - 1);
    }
  }

  /** Masking with 2^k - 1 leaves a number below 2^k alone ... */
  lemma {:induction false} AndMaskBelow(x: nat, k: nat)
    requires x < Pow2(k)
    ensures And(x, Pow2(k) - 1) == x
  {
    if k > 0 && x > 0 {
      AndMaskBelow(x / 2, k - 1);
      assert (Pow2(k) - 1) / 2 == Pow2(k - 1) - 1;
    }
  }

  /** ... and sends 2^k itself to zero. */
  lemma {:induction false} AndMaskWraps(k: nat)
    ensures And(Pow2(k), Pow2(k) - 1) == 0
  {
    if k > 0 {
      AndMaskWraps(k - 1);
      assert (Pow2(k) - 1) / 2 == Pow2(k - 1) - 1;
    }
  }

  /** All ones masked with 2^k - 1 is 2^k - 1. */
  lemma {:induction false} AndMaskOfOnes(m: nat, k: nat)
    requires k <= m
    ensures And(Pow2(m) - 1, Pow2(k) - 1) == Pow2(k) - 1
  {
    if k > 0 {
      AndMaskOfOnes(m - 1, k - 1);
      assert (Pow2(k) - 1) / 2 == Pow2(k - 1) - 1;
      assert (Pow2(m) - 1) / 2 == Pow2(m - 1) - 1;
    }
  }

  // ------------------------------------------------- several bytes in one word

  /** The little-endian number made of the given bytes */
  function FromBytes(bs: seq<nat>): nat {
    if bs == [] then 0 else bs[0] + 256 * FromBytes(bs[1..])
  }

  /** The lowest `count` bytes of w */
  function ToBytes(w: nat, count: nat): (bs: seq<nat>)
    ensures |bs| == count
  {
    if count == 0 then [] else [w % 256] + ToBytes(w / 256, count - 1)
  }

  ghost predicate AreBytes(bs: seq<nat>) {
    forall i :: 0 <= i < |bs| ==> bs[i] < 256
  }

  function Halves(bs: seq<nat>): (r: seq<nat>)
    ensures |r| == |bs| && forall i :: 0 <= i < |bs| ==> r[i] == bs[i] / 2
  {
    seq(|bs|, i requires 0 <= i < |bs| => bs[i] / 2)
  }

  lemma {:induction false} BytesRoundTrip(bs: seq<nat>)
    requires AreBytes(bs)
    ensures ToBytes(FromBytes(bs), |bs|) == bs
  {
    if bs != [] {
      var w := FromBytes(bs[1..]);
      BytesRoundTrip(bs[1..]);
      assert FromBytes(bs) == bs[0] + 256 * w;
      ByteOff(bs[0], w);
      assert bs == [bs[0]] + bs[1..];
    }
  }

  lemma ByteOff(b: nat, w: nat)
    requires b < 256
    ensures (b + 256 * w) % 256 == b && (b + 256 * w) / 256 == w
  {
  }

  lemma AndLowByte(x: nat)
    requires x < 256
    ensures And(x, 0x7f) == x % 128
  {
    assert Pow2(7) == 128;
    if x < 128 {
      AndMaskBelow(x, 7);
    } else {
      AndDropsTop(x - 128, 7);
    }
  }

  lemma {:induction false} AndDropsTop(x: nat, k: nat)
    requires x < Pow2(k)
    ensures And(x + Pow2(k), Pow2(k) - 1) == x
  {
    if k > 0 {
      AndDropsTop(x / 2, k - 1);
      assert (Pow2(k) - 1) / 2 == Pow2(k - 1) - 1;
      assert (x + Pow2(k)) / 2 == x / 2 + Pow2(k - 1);
    }
  }

  /** The number with x as its lowest k bits and y above them */
  function Join(x: nat, y: nat, k: nat): nat {
    if k == 0 then y else 2 * Join(x / 2, y, k - 1) + x % 2
  }

  lemma {:induction false} JoinIs(x: nat, y: nat, k: nat)
    requires x < Pow2(k)
    ensures Join(x, y, k) == x + Pow2(k) * y
  {
    if k > 0 {
      JoinIs(x / 2, y, k - 1);
      assert Pow2(k) * y == 2 * (Pow2(k - 1) * y);
    }
  }

  lemma AndDoubled(x: nat, y: nat, a: nat, b: nat)
    requires a < 2 && b < 2
    ensures And(2 * x + a, 2 * y + b) == 2 * And(x, y) + (if a == 1 && b == 1 then 1 else 0)
  {
  }

  lemma AndHalves(x: nat, y: nat)
    ensures And(x, y) / 2 == And(x / 2, y / 2)
    ensures And(x, y) % 2 == if x % 2 == 1 && y % 2 == 1 then 1 else 0
  {
  }

  lemma {:induction false} AndJoin(x: nat, y: nat, m: nat, q: nat, k: nat)
    ensures And(Join(x, y, k), Join(m, q, k)) == Join(And(x, m), And(y, q), k)
  {
    if k > 0 {
      var a, b := Join(x / 2, y, k - 1), Join(m / 2, q, k - 1);
      AndJoin(x / 2, y, m / 2, q, k - 1);
      AndDoubled(a, b, x % 2, m % 2);
      AndHalves(x, m);
      assert And(a, b) == Join(And(x, m) / 2, And(y, q), k - 1);
    }
  }

  lemma AndSplitsByte(x: nat, y: nat, m: nat, q: nat)
    requires x < 256 && m < 256
    ensures And(x + 256 * y, m + 256 * q) == And(x, m) + 256 * And(y, q)
  {
    assert Pow2(8) == 256;
    JoinIs(x, y, 8);
    JoinIs(m, q, 8);
    AndJoin(x, y, m, q, 8);
    JoinIs(And(x, m), And(y, q), 8);
  }

  /** Half of a number, by its lowest byte and the rest */
  lemma HalfSplits(b: nat, rest: nat, half: nat, low: nat)
    requires b < 256 && half == (b + 256 * rest) / 2 && low == b / 2 + 128 * (rest % 2)
    ensures half == low + 256 * (rest / 2) && low < 256 && low % 128 == b / 2
  {
  }

  lemma HalveLowestByte(b: nat, rest: nat, ones: nat, seven: nat)
    requires b < 256 && seven == 0x7f
    ensures And((b + 256 * rest) / 2, seven + 256 * ones) == b / 2 + 256 * And(rest / 2, ones)
  {
    var half, low := (b + 256 * rest) / 2, b / 2 + 128 * (rest % 2);
    HalfSplits(b, rest, half, low);
    AndSplitsByte(low, rest / 2, seven, ones);
    AndLowByte(low);
  }

  /** One shift and one mask halve every byte of a word at once. */
  lemma {:induction false} HalveBytes(bs: seq<nat>, ones: seq<nat>)
    requires AreBytes(bs) && |ones| == |bs| && forall i :: 0 <= i < |ones| ==> ones[i] == 0x7f
    ensures And(FromBytes(bs) / 2, FromBytes(ones)) == FromBytes(Halves(bs))
  {
    if bs != [] {
      HalveBytes(bs[1..], ones[1..]);
      HalveLowestByte(bs[0], FromBytes(bs[1..]), FromBytes(ones[1..]), ones[0]);
      assert Halves(bs)[1..] == Halves(bs[1..]);
    }
  }

  const SEVENS: nat := 0x7f7f_7f7f_7f7f_7f7f

  lemma HalveWordBytes(bs: seq<nat>)
    requires AreBytes(bs) && |bs| == 8
    ensures ToBytes(And(FromBytes(bs) / 2, SEVENS), |bs|) == Halves(bs)
  {
    var ones := [0x7f, 0x7f, 0x7f, 0x7f, 0x7f, 0x7f, 0x7f, 0x7f];
    assert FromBytes(ones) == SEVENS;
    HalveBytes(bs, ones);
    BytesRoundTrip(Halves(bs));
  }

  /** Number of trailing zero bits of a nonzero number */
  function Ctz(x: nat): nat
    requires x > 0
  {
    if x % 2 == 1 then 0 else 1 + Ctz(x / 2)
  }

  /** The count-trailing-zeroes intrinsic, which gives the width for zero */
  function CountTrailingZeroes(x: nat): nat {
    if x == 0 then 64 else Ctz(x)
  }

  lemma {:induction false} CtzBelow(x: nat, k: nat, b: nat, r: nat)
    requires 0 < b < Pow2(k) && x == b + Pow2(k) * r
    ensures Ctz(x) < k
  {
    if x % 2 == 0 {
      assert Pow2(k) * r == 2 * (Pow2(k - 1) * r);
      assert b % 2 == 0;
      CtzBelow(x / 2, k - 1, b / 2, r);
    }
  }

  lemma CtzOfDoubled(x: nat)
    requires x > 0
    ensures Ctz(2 * x) == Ctz(x) + 1
  {
  }

  lemma CtzOfShifted(x: nat)
    requires x > 0
    ensures Ctz(256 * x) == Ctz(x) + 8
  {
    CtzOfDoubled(x);
    CtzOfDoubled(2 * x);
    CtzOfDoubled(4 * x);
    CtzOfDoubled(8 * x);
    CtzOfDoubled(16 * x);
    CtzOfDoubled(32 * x);
    CtzOfDoubled(64 * x);
    CtzOfDoubled(128 * x);
  }

  /** Counting trailing zeroes and dividing by eight finds the first nonzero
      byte. */
  lemma {:induction false} FirstNonzeroByte(bs: seq<nat>, z: nat)
    requires AreBytes(bs) && z < |bs| && bs[z] != 0 && forall i :: 0 <= i < z ==> bs[i] == 0
    ensures FromBytes(bs) > 0 && Ctz(FromBytes(bs)) / 8 == z
  {
    var rest := FromBytes(bs[1..]);
    if z == 0 {
      assert Pow2(8) == 256;
      CtzBelow(FromBytes(bs), 8, bs[0], rest);
    } else {
      FirstNonzeroByte(bs[1..], z - 1);
      CtzOfShifted(rest);
    }
  }

  lemma {:induction false} ZeroBytes(bs: seq<nat>)
    requires forall i :: 0 <= i < |bs| ==> bs[i] == 0
    ensures FromBytes(bs) == 0
  {
    if bs != [] {
      ZeroBytes(bs[1..]);
    }
  }

  /** Trailing-zero counting on a word of eight bytes, all cases */
  lemma LeadingZeroBytes(bs: seq<nat>)
    requires AreBytes(bs) && |bs| == 8
    ensures var z := CountTrailingZeroes(FromBytes(bs)) / 8;
            z <= 8 && (forall i :: 0 <= i < z ==> bs[i] == 0) && (z < 8 ==> bs[z] != 0)
  {
    if z :| 0 <= z < |bs| && bs[z] != 0 && forall i :: 0 <= i < z ==> bs[i] == 0 {
      FirstNonzeroByte(bs, z);
    } else {
      NoFirstNonzero(bs, |bs|);
      ZeroBytes(bs);
    }
  }

  lemma {:induction false} NoFirstNonzero(bs: seq<nat>, m: nat)
    requires m <= |bs|
    requires !exists z :: 0 <= z < |bs| && bs[z] != 0 && forall i :: 0 <= i < z ==> bs[i] == 0
    ensures forall i :: 0 <= i < m ==> bs[i] == 0
  {
    if m > 0 {
      NoFirstNonzero(bs, m - 1);
    }
  }
}
