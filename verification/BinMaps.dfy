/** The 32-bit maps that say which bins hold anything, and the bit tricks that
    find the next one. */
module BinMaps {
  import opened Bits

  predicate Bit(m: nat, i: nat) {
    Shr(m, i) % 2 == 1
  }

  /** Bitwise `or` of two unsigned numbers */
  function Or(x: nat, y: nat): nat {
    if x == 0 then y else if y == 0 then x
    else 2 * Or(x / 2, y / 2) + (if x % 2 == 1 || y % 2 == 1 then 1 else 0)
  }

  /** Bitwise complement and negation on w bits */
  function Not(x: nat, w: nat): nat
    requires x < Pow2(w)
  {
    Pow2(w) - 1 - x
  }

  function Neg(x: nat, w: nat): nat
    requires x < Pow2(w)
  {
    if x == 0 then 0 else Pow2(w) - x
  }

  function Idx2Bit(i: nat): nat {
    Pow2(i)
  }

  function Mark(m: nat, i: nat): nat {
    Or(m, Idx2Bit(i))
  }

  function Clear(m: nat, i: nat, w: nat): nat
    requires i < w
  {
    Pow2Less(i, w);
    And(m, Not(Idx2Bit(i), w))
  }

  /** x << 1 on w bits */
  function Shl1(x: nat, w: nat): (r: nat)
    requires x < Pow2(w)
    ensures r < Pow2(w)
  {
    if 2 * x >= Pow2(w) then 2 * x - Pow2(w) else 2 * x
  }

  /** left_bits: everything above the lowest set bit of x */
  function LeftBits(x: nat, w: nat): nat
    requires x < Pow2(w)
  {
    Or(Shl1(x, w), Neg(Shl1(x, w), w))
  }

  /** least_bit: the lowest set bit of x */
  function LeastBit(x: nat, w: nat): nat
    requires x < Pow2(w)
  {
    And(x, Neg(x, w))
  }

  // ----------------------------------------------------------- bit by bit

  lemma {:induction false} Pow2Less(i: nat, w: nat)
    requires i < w
    ensures Pow2(i) < Pow2(w)
  {
    if i < w - 1 {
      Pow2Less(i, w - 1);
    }
  }

  lemma {:induction false} ZeroBit(i: nat)
    ensures !Bit(0, i)
  {
    if i > 0 {
      ZeroBit(i - 1);
    }
  }

  lemma {:induction false} AndBit(x: nat, y: nat, i: nat)
    ensures Bit(And(x, y), i) <==> Bit(x, i) && Bit(y, i)
  {
    if x == 0 || y == 0 {
      ZeroBit(i);
    } else {
      AndHalves(x, y);
      if i > 0 {
        AndBit(x / 2, y / 2, i - 1);
      }
    }
  }

  lemma {:induction false} OrBit(x: nat, y: nat, i: nat)
    ensures Bit(Or(x, y), i) <==> Bit(x, i) || Bit(y, i)
  {
    if x == 0 || y == 0 {
      ZeroBit(i);
    } else {
      var o := Or(x / 2, y / 2);
      assert Or(x, y) / 2 == o;
      if i > 0 {
        OrBit(x / 2, y / 2, i - 1);
      }
    }
  }

  lemma {:induction false} Pow2Bit(k: nat, i: nat)
    ensures Bit(Pow2(k), i) <==> i == k
  {
    if k == 0 {
      if i > 0 {
        ZeroBit(i - 1);
      }
    } else {
      assert Pow2(k) / 2 == Pow2(k - 1);
      if i > 0 {
        Pow2Bit(k - 1, i - 1);
      }
    }
  }

  lemma {:induction false} NotBit(x: nat, w: nat, i: nat)
    requires x < Pow2(w)
    ensures Bit(Not(x, w), i) <==> i < w && !Bit(x, i)
  {
    if w == 0 {
      ZeroBit(i);
    } else {
      assert Not(x, w) / 2 == Not(x / 2, w - 1);
      if i > 0 {
        NotBit(x / 2, w - 1, i - 1);
      }
    }
  }

  lemma {:induction false} BitBelow(x: nat, w: nat, i: nat)
    requires x < Pow2(w) && Bit(x, i)
    ensures i < w
  {
    if w == 0 {
      ZeroBit(i);
    } else if i > 0 {
      BitBelow(x / 2, w - 1, i - 1);
    }
  }

  lemma {:induction false} OrBelow(x: nat, y: nat, w: nat)
    requires x < Pow2(w) && y < Pow2(w)
    ensures Or(x, y) < Pow2(w)
  {
    if x != 0 && y != 0 {
      OrBelow(x / 2, y / 2, w - 1);
    }
  }

  // ------------------------------------------------------------ marking

  lemma MarkBit(m: nat, i: nat, j: nat)
    ensures Bit(Mark(m, i), j) <==> Bit(m, j) || j == i
  {
    OrBit(m, Pow2(i), j);
    Pow2Bit(i, j);
  }

  lemma ClearBit(m: nat, i: nat, w: nat, j: nat)
    requires i < w && m < Pow2(w)
    ensures Bit(Clear(m, i, w), j) <==> Bit(m, j) && j != i
  {
    Pow2Less(i, w);
    AndBit(m, Not(Pow2(i), w), j);
    NotBit(Pow2(i), w, j);
    Pow2Bit(i, j);
    if Bit(m, j) { BitBelow(m, w, j); }
  }

  lemma MarkBelow(m: nat, i: nat, w: nat)
    requires i < w && m < Pow2(w)
    ensures Mark(m, i) < Pow2(w)
  {
    Pow2Less(i, w);
    OrBelow(m, Pow2(i), w);
  }

  // ------------------------------------------------------------ searching

  /** The bits of -2^k are all those from k on. */
  lemma {:induction false} NegPow2Bit(k: nat, w: nat, i: nat)
    requires k < w && Pow2(k) < Pow2(w)
    ensures Bit(Neg(Pow2(k), w), i) <==> k <= i < w
  {
    var x := Neg(Pow2(k), w);
    if k == 0 {
      assert x == Not(0, w);
      NotBit(0, w, i);
      ZeroBit(i);
    } else {
      Pow2Less(k - 1, w - 1);
      assert x / 2 == Neg(Pow2(k - 1), w - 1);
      if i > 0 {
        NegPow2Bit(k - 1, w - 1, i - 1);
      }
    }
  }

  lemma LeftBitsBit(i: nat, w: nat, j: nat)
    requires i < w && Idx2Bit(i) < Pow2(w)
    ensures Bit(LeftBits(Idx2Bit(i), w), j) <==> i < j < w
  {
    if i == w - 1 {
      assert 2 * Pow2(i) == Pow2(w);
      ZeroBit(j);
    } else {
      var y := Pow2(i + 1);
      Pow2Less(i + 1, w);
      assert Shl1(Pow2(i), w) == y;
      OrBit(y, Neg(y, w), j);
      Pow2Bit(i + 1, j);
      NegPow2Bit(i + 1, w, j);
    }
  }

  /** A number and its complement share no bit. */
  lemma {:induction false} AndNot(x: nat, w: nat)
    requires x < Pow2(w)
    ensures And(x, Not(x, w)) == 0
  {
    if w > 0 {
      assert Not(x, w) / 2 == Not(x / 2, w - 1);
      AndNot(x / 2, w - 1);
    }
  }

  lemma {:induction false} LeastBitIs(x: nat, w: nat)
    requires 0 < x < Pow2(w)
    ensures LeastBit(x, w) == Pow2(Ctz(x))
  {
    var n := Neg(x, w);
    if x % 2 == 1 {
      assert n / 2 == Not(x / 2, w - 1);
      AndNot(x / 2, w - 1);
    } else {
      assert n / 2 == Neg(x / 2, w - 1) && n % 2 == 0;
      LeastBitIs(x / 2, w - 1);
    }
  }

  lemma {:induction false} CtzOfPow2(k: nat)
    ensures Ctz(Pow2(k)) == k
  {
    if k > 0 {
      CtzOfPow2(k - 1);
    }
  }

  lemma {:induction false} CtzLeast(x: nat, j: nat)
    requires x > 0
    ensures Bit(x, Ctz(x)) && (j < Ctz(x) ==> !Bit(x, j))
  {
    if x % 2 == 0 {
      if j > 0 {
        CtzLeast(x / 2, j - 1);
      } else {
        CtzLeast(x / 2, 0);
      }
    }
  }

  /** compute_bit2idx of least_bit: the lowest marked bin */
  function FirstBin(m: nat, w: nat): nat
    requires 0 < m < Pow2(w)
  {
    LeastBitIs(m, w);
    Ctz(LeastBit(m, w))
  }

  lemma FirstBinIs(m: nat, w: nat)
    requires 0 < m < Pow2(w)
    ensures Bit(m, FirstBin(m, w)) && FirstBin(m, w) < w
    ensures forall j :: 0 <= j < FirstBin(m, w) ==> !Bit(m, j)
  {
    LeastBitIs(m, w);
    CtzOfPow2(Ctz(m));
    CtzLeast(m, 0);
    BitBelow(m, w, Ctz(m));
    forall j | 0 <= j < Ctz(m)
      ensures !Bit(m, j)
    {
      CtzLeast(m, j);
    }
  }

  /** The marked bins above i */
  function BinsAbove(m: nat, i: nat, w: nat): nat
    requires i < w
  {
    Pow2Less(i, w);
    And(LeftBits(Idx2Bit(i), w), m)
  }

  lemma BinsAboveBit(m: nat, i: nat, w: nat, j: nat)
    requires i < w && m < Pow2(w)
    ensures Bit(BinsAbove(m, i, w), j) <==> i < j && Bit(m, j)
  {
    Pow2Less(i, w);
    AndBit(LeftBits(Idx2Bit(i), w), m, j);
    LeftBitsBit(i, w, j);
    if Bit(m, j) { BitBelow(m, w, j); }
  }

  /** Nothing above i is marked exactly when that map is zero; otherwise its
      first bin is the next marked one. */
  lemma NextBin(m: nat, i: nat, w: nat)
    requires i < w && m < Pow2(w)
    ensures var a := BinsAbove(m, i, w);
      && a < Pow2(w)
      && (a == 0 ==> forall j :: i < j < w ==> !Bit(m, j))
      && (a != 0 ==> i < FirstBin(a, w) < w && Bit(m, FirstBin(a, w))
                     && forall j :: i < j < FirstBin(a, w) ==> !Bit(m, j))
  {
    var a := BinsAbove(m, i, w);
    assert a <= m;
    if a == 0 {
      forall j | i < j < w
        ensures !Bit(m, j)
      {
        BinsAboveBit(m, i, w, j);
        ZeroBit(j);
      }
    } else {
      FirstBinIs(a, w);
      var f := FirstBin(a, w);
      BinsAboveBit(m, i, w, f);
      forall j | i < j < f
        ensures !Bit(m, j)
      {
        BinsAboveBit(m, i, w, j);
      }
    }
  }
}
