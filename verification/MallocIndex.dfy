/** Sizes, bin indices and bin bitmaps of the mspace allocator. */
module MallocIndex {
  import opened Bits

  const MIN_CHUNK: nat := 32
  const MIN_LARGE: nat := 256
  const BINS: nat := 32

  // --------------------------------------------------------------- tree index

  /** Position of the highest set bit */
  function Bsr(x: nat): nat
    requires x > 0
  {
    if x == 1 then 0 else 1 + Bsr(x / 2)
  }

  /** compute_tree_index, with its narrowing of the shifted size to 32 bits */
  function TreeIndex(s: nat): nat {
    var x := s / 256 % 0x1_0000_0000;
    if x == 0 then 0
    else if x > 0xFFFF then BINS - 1
    else
      var k := Bsr(x);
      2 * k + Shr(s, k + 7) % 2
  }

  /** The smallest size bin i is for */
  function MinSize(i: nat): nat {
    Pow2(i / 2 + 8) + if i % 2 == 1 then Pow2(i / 2 + 7) else 0
  }

  /** s lies in bin i's range; the last bin takes everything above. */
  ghost predicate InBin(s: nat, i: nat) {
    i < BINS && MinSize(i) <= s && (i < BINS - 1 ==> s < MinSize(i + 1))
  }

  lemma {:induction false} BsrBounds(x: nat)
    requires x > 0
    ensures Pow2(Bsr(x)) <= x < Pow2(Bsr(x) + 1)
  {
    if x > 1 {
      BsrBounds(x / 2);
    }
  }

  lemma {:induction false} BsrBelow(x: nat, n: nat)
    requires 0 < x < Pow2(n)
    ensures Bsr(x) < n
  {
    if x > 1 {
      BsrBelow(x / 2, n - 1);
    }
  }

  lemma {:induction false} ShrBounds(x: nat, m: nat)
    ensures Pow2(m) * Shr(x, m) <= x < Pow2(m) * (Shr(x, m) + 1)
  {
    if m > 0 {
      ShrBounds(x / 2, m - 1);
      Twice(Pow2(m - 1), Shr(x, m));
    }
  }

  lemma Twice(p: nat, q: nat)
    ensures 2 * p * q == 2 * (p * q) && 2 * p * (q + 1) == 2 * (p * (q + 1))
  {
  }

  lemma Pow2At(n: nat)
    ensures n == 16 ==> Pow2(n) == 0x1_0000
    ensures n == 22 ==> Pow2(n) == 0x40_0000
    ensures n == 23 ==> Pow2(n) == 0x80_0000
    ensures n == 24 ==> Pow2(n) == 0x100_0000
  {
    assert Pow2(8) == 256;
    Pow2Adds(8, 8);
    Pow2Adds(16, 6);
    assert Pow2(6) == 64;
    if n >= 22 && n <= 24 {
      assert Pow2(22) == 0x40_0000;
    }
  }

  lemma LastMinSize()
    ensures MinSize(BINS - 1) == 0xC0_0000
  {
    Pow2At(22);
    Pow2At(23);
  }

  lemma MinSizes(k: nat)
    ensures MinSize(2 * k) == 2 * Pow2(k + 7)
    ensures MinSize(2 * k + 1) == 3 * Pow2(k + 7)
    ensures MinSize(2 * k + 2) == 4 * Pow2(k + 7)
  {
    assert (2 * k + 1) / 2 == k && (2 * k + 2) / 2 == k + 1;
    assert Pow2(k + 8) == 2 * Pow2(k + 7) && Pow2(k + 9) == 2 * Pow2(k + 8);
  }

  /** A size's two leading bits say which bin it belongs to. */
  lemma TwoBits(s: nat, k: nat)
    requires k <= 15 && 2 * Pow2(k + 7) <= s < 4 * Pow2(k + 7)
    ensures InBin(s, 2 * k + Shr(s, k + 7) % 2)
  {
    var q := Shr(s, k + 7);
    ShrBounds(s, k + 7);
    Quotient(s, Pow2(k + 7), q);
    if q == 2 { LowerHalf(s, k); } else { UpperHalf(s, k); }
  }

  lemma LowerHalf(s: nat, k: nat)
    requires k <= 15 && 2 * Pow2(k + 7) <= s < 3 * Pow2(k + 7)
    ensures InBin(s, 2 * k)
  {
    MinSizes(k);
  }

  lemma UpperHalf(s: nat, k: nat)
    requires k <= 15 && 3 * Pow2(k + 7) <= s < 4 * Pow2(k + 7)
    ensures InBin(s, 2 * k + 1)
  {
    MinSizes(k);
  }

  lemma LeadingBits(s: nat)
    requires 0 < s / 256 <= 0xFFFF
    ensures var k := Bsr(s / 256); InBin(s, 2 * k + Shr(s, k + 7) % 2)
  {
    var x := s / 256;
    var k := Bsr(x);
    Pow2At(16);
    BsrBelow(x, 16);
    BsrBounds(x);
    TimesByte(k);
    TwoBits(s, k);
  }

  lemma TimesByte(k: nat)
    ensures 2 * Pow2(k + 7) == 256 * Pow2(k) && 4 * Pow2(k + 7) == 256 * Pow2(k + 1)
  {
    assert Pow2(7) == 128;
    Pow2Adds(k, 7);
  }

  lemma Compare(p: nat, a: nat, b: nat)
    ensures a <= b ==> p * a <= p * b
  {
  }

  lemma Quotient(s: nat, p: nat, q: nat)
    requires p > 0 && p * q <= s < p * (q + 1) && 2 * p <= s < 4 * p
    ensures q == 2 || q == 3
    ensures q == 2 ==> s < 3 * p
    ensures q == 3 ==> 3 * p <= s
  {
    Compare(p, q + 1, 2);
    Compare(p, 4, q);
  }

  const TWO40: nat := 0x100_0000_0000

  /** Below 2^40 the narrowing loses nothing. */
  lemma TreeIndexBelow(s: nat)
    requires MIN_LARGE <= s < TWO40
    ensures InBin(s, TreeIndex(s))
  {
    assert s / 256 % 0x1_0000_0000 == s / 256 > 0;
    if s / 256 <= 0xFFFF {
      LeadingBits(s);
    } else {
      LastMinSize();
    }
  }

  lemma {:induction false} ShrDropsHigh(s: nat, h: nat, n: nat, m: nat)
    requires m < n
    ensures Shr(s + Pow2(n) * h, m) % 2 == Shr(s, m) % 2
  {
    assert Pow2(n) * h == 2 * (Pow2(n - 1) * h);
    if m > 0 {
      assert (s + Pow2(n) * h) / 2 == s / 2 + Pow2(n - 1) * h;
      ShrDropsHigh(s / 2, h, n - 1, m - 1);
    }
  }

  /** The narrowed index is that of the size modulo 2^40. */
  lemma TreeIndexNarrows(s: nat)
    ensures TreeIndex(s) == TreeIndex(s % TWO40)
  {
    var low, h := s % TWO40, s / TWO40;
    Split40(s);
    var x := low / 256;
    if 0 < x <= 0xFFFF {
      Pow2At(16);
      BsrBelow(x, 16);
      Pow2Of40();
      ShrDropsHigh(low, h, 40, Bsr(x) + 7);
    }
  }

  lemma Pow2Of40()
    ensures Pow2(40) == TWO40
  {
    Pow2At(16);
    Pow2At(24);
    Pow2Adds(24, 16);
  }

  lemma Split40(s: nat)
    ensures s == s % TWO40 + TWO40 * (s / TWO40)
    ensures s / 256 % 0x1_0000_0000 == s % TWO40 / 256 == s % TWO40 / 256 % 0x1_0000_0000
  {
    var low, h := s % TWO40, s / TWO40;
    assert s / 256 == low / 256 + 0x1_0000_0000 * h;
  }

  /** The right bin is found exactly when the size is below 2^40 or what is left
      of it modulo 2^40 still belongs to the last bin. */
  lemma TreeIndexExact(s: nat)
    requires MIN_LARGE <= s < WORD
    ensures InBin(s, TreeIndex(s)) <==> s < TWO40 || s % TWO40 >= 0xC0_0000
  {
    LastMinSize();
    TreeIndexNarrows(s);
    var low := s % TWO40;
    if s < TWO40 {
      TreeIndexBelow(s);
    } else {
      MinSizeMono(TreeIndex(s) + 1, BINS - 1);
      if low >= MIN_LARGE {
        TreeIndexBelow(low);
        if low < 0xC0_0000 {
          assert TreeIndex(s) != BINS - 1;
        } else {
          InLastBin(low, TreeIndex(low));
        }
      }
    }
  }

  lemma MinSizeMono(i: nat, j: nat)
    ensures i <= j ==> MinSize(i) <= MinSize(j)
  {
    if i <= j {
      Pow2Mono(i / 2, j / 2);
      Pow2Mono(i / 2 + 8, j / 2 + 8);
      Pow2Mono(i / 2 + 7, j / 2 + 7);
      if i / 2 < j / 2 {
        Pow2Mono(i / 2 + 9, j / 2 + 8);
      }
    }
  }

  lemma InLastBin(s: nat, i: nat)
    requires InBin(s, i) && s >= MinSize(BINS - 1)
    ensures i == BINS - 1
  {
    MinSizeMono(i + 1, BINS - 1);
  }

  /** A size has one bin only. */
  lemma BinUnique(s: nat, i: nat, j: nat)
    requires InBin(s, i) && InBin(s, j)
    ensures i == j
  {
    MinSizeMono(i + 1, j);
    MinSizeMono(j + 1, i);
  }

  // ------------------------------------------------------------- search keys

  /** A bin's trie covers the 2^BinBits sizes from BinLo on. */
  function BinLo(i: nat): nat {
    if i == BINS - 1 then 0 else MinSize(i)
  }

  function BinBits(i: nat): nat {
    if i == BINS - 1 then 64 else i / 2 + 7
  }

  /** leftshift_for_tree_index: brings the first distinguishing bit to the top */
  function LeftShift(i: nat): int {
    if i == BINS - 1 then 0 else 63 - (i / 2 + 8 - 2)
  }

  lemma BinRange(s: nat, i: nat)
    requires i < BINS && s < WORD
    ensures BinBits(i) <= 64 && LeftShift(i) == 64 - BinBits(i)
    ensures i < BINS - 1 ==> (InBin(s, i) <==> BinLo(i) <= s < BinLo(i) + Pow2(BinBits(i)))
    ensures i == BINS - 1 ==> BinLo(i) <= s < BinLo(i) + Pow2(BinBits(i))
  {
    if i == BINS - 1 {
      Pow2Of64();
    } else {
      var k := i / 2;
      MinSizes(k);
      assert i == 2 * k || i == 2 * k + 1;
    }
  }

  /** The shifted size a descent carries, when lo and b say how far it has got */
  ghost predicate KeyAt(key: nat, s: nat, lo: nat, b: nat) {
    b <= 64 && lo <= s < lo + Pow2(b) && key == (s - lo) * Pow2(64 - b)
  }

  /** lo is a multiple of 2^b */
  ghost predicate Multiple(lo: nat, b: nat) {
    exists q: nat :: lo == q * Pow2(b)
  }

  lemma BinLoMultiple(i: nat)
    requires i < BINS
    ensures Multiple(BinLo(i), BinBits(i))
  {
    if i == BINS - 1 {
      assert 0 == 0 * Pow2(64);
    } else {
      var k := i / 2;
      MinSizes(k);
      assert i == 2 * k || i == 2 * k + 1;
      assert BinLo(i) == (2 + i % 2) * Pow2(k + 7);
    }
  }

  /** S << leftshift, in 64 bits, drops exactly what all sizes of the bin share. */
  lemma KeyStart(s: nat, i: nat)
    requires i < BINS && s < WORD && InBin(s, i)
    ensures LeftShift(i) >= 0 && KeyAt(s * Pow2(LeftShift(i)) % WORD, s, BinLo(i), BinBits(i))
  {
    BinRange(s, i);
    BinLoMultiple(i);
    var lo, b, p := BinLo(i), BinBits(i), Pow2(LeftShift(i));
    var q: nat :| lo == q * Pow2(b);
    Pow2Adds(b, 64 - b);
    Pow2Of64();
    KeyWraps(s, lo, Pow2(b), p, q);
  }

  lemma KeyWraps(s: nat, lo: nat, w: nat, p: nat, q: nat)
    requires lo <= s < lo + w && lo == q * w && w * p == WORD
    ensures s * p % WORD == (s - lo) * p
  {
    var d := s - lo;
    calc {
      s * p;
      (d + q * w) * p;
      d * p + q * (w * p);
      d * p + q * WORD;
    }
    assert 0 <= d * p < WORD by {
      assert p > 0;
      assert (w - d) * p > 0;
      assert w * p == d * p + (w - d) * p;
    }
    ModSum(d * p, q);
  }

  lemma {:induction false} ModSum(x: nat, q: nat)
    requires x < WORD
    ensures (x + q * WORD) % WORD == x
  {
  }

  lemma Distribute(a: int, b: int, p: nat)
    ensures (a - b) * p == a * p - b * p
    ensures a >= b ==> a * p >= b * p
    ensures a > b && p > 0 ==> a * p > b * p
  {
    if a > b && p > 0 { assert (a - b) * p > 0; }
  }

  lemma LowHalf(d: nat, h: nat, p: nat)
    requires 2 * (h * p) == WORD && d < h
    ensures d * p < WORD / 2 && 2 * (d * p) % WORD == d * (2 * p)
  {
    Distribute(h, d, p);
    assert d * (2 * p) == 2 * (d * p);
  }

  lemma HighHalf(d: nat, h: nat, p: nat)
    requires 2 * (h * p) == WORD && h <= d < 2 * h
    ensures WORD / 2 <= d * p < WORD && 2 * (d * p) % WORD == (d - h) * (2 * p)
  {
    Distribute(d, h, p);
    Distribute(2 * h, d, p);
    assert 2 * h * p == 2 * (h * p);
    assert (d - h) * (2 * p) == 2 * ((d - h) * p);
  }

  /** The top bit says which half the size lies in; shifting left by one gives the
      key for that half. */
  lemma KeyStep(key: nat, s: nat, lo: nat, b: nat)
    requires KeyAt(key, s, lo, b) && b > 0
    ensures key < WORD && (key >= WORD / 2 <==> s >= lo + Pow2(b - 1))
    ensures KeyAt(2 * key % WORD, s, if s >= lo + Pow2(b - 1) then lo + Pow2(b - 1) else lo, b - 1)
  {
    var d, p, h := s - lo, Pow2(64 - b), Pow2(b - 1);
    Pow2Adds(b - 1, 64 - b);
    Pow2Of64();
    assert Pow2(63) == h * p && 2 * Pow2(63) == WORD;
    assert Pow2(b) == 2 * h && Pow2(64 - (b - 1)) == 2 * p;
    if d >= h {
      HighHalf(d, h, p);
    } else {
      LowHalf(d, h, p);
    }
  }
}
