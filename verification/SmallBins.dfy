/** The 32 small bins: for each multiple of 8 below 256, a ring of free chunks
    of exactly that size, most recently freed first, with the bin's own header
    between last and first. */
module SmallBins {
  import opened Collections
  import opened Bits
  import opened BinMaps
  import opened MallocIndex
  import opened MallocTrie
  import opened TreeBins

  ghost predicate ListOk(h: map<nat, Head>, smallmap: nat, list: seq<nat>, i: nat) {
    && NoDup(list) && (Bit(smallmap, i) <==> list != [])
    && forall a :: a in list ==> a in h && h[a].size == 8 * i && a != 0
  }

  ghost predicate ListsOk(h: map<nat, Head>, smallmap: nat, lists: seq<seq<nat>>) {
    && |lists| == BINS && smallmap < Pow2(BINS)
    && forall i {:trigger ListOk(h, smallmap, lists[i], i)} :: 0 <= i < BINS ==> ListOk(h, smallmap, lists[i], i)
  }

  /** Every chunk in a small bin */
  ghost function Listed(lists: seq<seq<nat>>): set<Chunk> {
    set i, a | 0 <= i < |lists| && a in lists[i] :: Chunk(a, 8 * i)
  }

  lemma ListedHas(lists: seq<seq<nat>>, i: nat, a: nat)
    requires i < |lists|
    ensures Chunk(a, 8 * i) in Listed(lists) <==> a in lists[i]
  {
  }

  lemma ListedUpdate(lists: seq<seq<nat>>, i: nat, list: seq<nat>, p: nat)
    requires i < |lists|
    ensures (forall a :: a in list <==> a in lists[i] || a == p) ==>
      Listed(lists[i := list]) == Listed(lists) + {Chunk(p, 8 * i)}
    ensures (forall a :: a in list <==> a in lists[i] && a != p) ==>
      Listed(lists[i := list]) == Listed(lists) - {Chunk(p, 8 * i)}
  {
    var lists' := lists[i := list];
    forall c: Chunk | c.size % 8 == 0 && c.size / 8 < |lists|
      ensures c in Listed(lists') <==> c.at in lists'[c.size / 8]
      ensures c in Listed(lists) <==> c.at in lists[c.size / 8]
    {
      ListedHas(lists, c.size / 8, c.at);
      ListedHas(lists', c.size / 8, c.at);
    }
    assert forall c :: c in Listed(lists) || c in Listed(lists') ==> c.size % 8 == 0 && c.size / 8 < |lists|;
  }

  lemma OtherLists(h: map<nat, Head>, smallmap: nat, smallmap': nat, lists: seq<seq<nat>>, i: nat, list: seq<nat>)
    requires ListsOk(h, smallmap, lists) && i < BINS && ListOk(h, smallmap', list, i) && smallmap' < Pow2(BINS)
    requires forall j :: 0 <= j < BINS && j != i ==> (Bit(smallmap', j) <==> Bit(smallmap, j))
    ensures ListsOk(h, smallmap', lists[i := list])
  {
    var lists' := lists[i := list];
    forall j: nat | j < BINS
      ensures ListOk(h, smallmap', lists'[j], j)
    {
      if j != i { assert ListOk(h, smallmap, lists[j], j); }
    }
  }

  // ---------------------------------------------------------------------- rings

  /** A bin's header has an address of its own, apart from all chunks. */
  function Header(i: nat): int {
    -1 - i
  }

  function Link(f: map<int, int>, a: int): int {
    if a in f then f[a] else 0
  }

  /** Position after k in a ring of n */
  function After(k: nat, n: nat): (r: nat)
    requires k < n
    ensures r < n
  {
    if k + 1 == n then 0 else k + 1
  }

  /** ring[k] and the one after it point at each other. */
  ghost predicate LinkedAt(fd: map<int, int>, bk: map<int, int>, ring: seq<int>, k: nat)
    requires k < |ring|
  {
    Link(fd, ring[k]) == ring[After(k, |ring|)] && Link(bk, ring[After(k, |ring|)]) == ring[k]
  }

  ghost predicate Linked(fd: map<int, int>, bk: map<int, int>, ring: seq<int>) {
    forall k :: 0 <= k < |ring| ==> LinkedAt(fd, bk, ring, k)
  }

  /** The header and the chunks of bin i */
  ghost function Ring(i: nat, list: seq<nat>): (r: seq<int>)
    ensures |r| == |list| + 1
  {
    [Header(i)] + seq(|list|, k requires 0 <= k < |list| => list[k])
  }

  /** The links of a bin count only while it holds something. */
  ghost predicate RingOk(fd: map<int, int>, bk: map<int, int>, list: seq<nat>, i: nat) {
    list != [] ==> Linked(fd, bk, Ring(i, list))
  }

  ghost predicate RingsOk(fd: map<int, int>, bk: map<int, int>, lists: seq<seq<nat>>) {
    forall i {:trigger RingOk(fd, bk, lists[i], i)} :: 0 <= i < |lists| ==> RingOk(fd, bk, lists[i], i)
  }

  /** Put p after the header */
  lemma InsertLinked(
    fd: map<int, int>, bk: map<int, int>, fd': map<int, int>, bk': map<int, int>,
    ring: seq<int>, ring': seq<int>, p: int, f: int)
    requires |ring| > 0 && NoDup(ring) && p !in ring && ring' == [ring[0], p] + ring[1..]
    requires |ring| > 1 ==> Linked(fd, bk, ring)
    requires f == ring[After(0, |ring|)]
    requires fd' == fd[ring[0] := p][p := f] && bk' == bk[f := p][p := ring[0]]
    ensures Linked(fd', bk', ring')
  {
    forall k: nat | k < |ring'|
      ensures LinkedAt(fd', bk', ring', k)
    {
      if k >= 2 {
        assert LinkedAt(fd, bk, ring, k - 1);
        assert ring'[k] == ring[k - 1] && ring'[After(k, |ring'|)] == ring[After(k - 1, |ring|)];
      }
    }
  }

  /** Join the neighbours of ring[k] */
  lemma RemoveLinked(
    fd: map<int, int>, bk: map<int, int>, fd': map<int, int>, bk': map<int, int>,
    ring: seq<int>, ring': seq<int>, k: nat, f: int, b: int)
    requires 0 < k < |ring| && |ring| > 2 && NoDup(ring) && Linked(fd, bk, ring)
    requires ring' == ring[..k] + ring[k + 1..] && f == ring[After(k, |ring|)] && b == ring[k - 1]
    requires fd' == fd[b := f] && bk' == bk[f := b]
    ensures Linked(fd', bk', ring')
  {
    forall j: nat | j < |ring'|
      ensures LinkedAt(fd', bk', ring', j)
    {
      var i := if j < k then j else j + 1;
      assert LinkedAt(fd, bk, ring, i);
      assert ring'[j] == ring[i];
      if j != k - 1 { assert ring'[After(j, |ring'|)] == ring[After(i, |ring|)]; }
    }
  }

  lemma RingNoDup(i: nat, list: seq<nat>)
    requires NoDup(list)
    ensures NoDup(Ring(i, list))
  {
  }

  /** Neighbours of a chunk in its ring; they are one only if it is alone. */
  lemma Neighbours(fd: map<int, int>, bk: map<int, int>, list: seq<nat>, i: nat, k: nat)
    requires NoDup(list) && k < |list| && RingOk(fd, bk, list, i)
    ensures var ring := Ring(i, list);
      && Link(fd, list[k]) == ring[After(k + 1, |ring|)] && Link(bk, list[k]) == ring[k]
      && (Link(fd, list[k]) == Link(bk, list[k]) <==> |list| == 1)
  {
    var ring := Ring(i, list);
    RingNoDup(i, list);
    assert LinkedAt(fd, bk, ring, k + 1) && LinkedAt(fd, bk, ring, k);
  }

  /** Writes to the ring of bin i leave the other rings alone. */
  lemma OtherRings(
    h: map<nat, Head>, smallmap: nat, fd: map<int, int>, bk: map<int, int>, fd': map<int, int>, bk': map<int, int>,
    lists: seq<seq<nat>>, i: nat, list: seq<nat>)
    requires ListsOk(h, smallmap, lists) && RingsOk(fd, bk, lists) && i < BINS && RingOk(fd', bk', list, i)
    requires forall a: int :: (a < 0 && a != Header(i)) || (a >= 0 && (a in h ==> h[a].size != 8 * i)) ==>
               Link(fd', a) == Link(fd, a) && Link(bk', a) == Link(bk, a)
    ensures RingsOk(fd', bk', lists[i := list])
  {
    var lists' := lists[i := list];
    forall j: nat | j < |lists'|
      ensures RingOk(fd', bk', lists'[j], j)
    {
      if j != i {
        assert ListOk(h, smallmap, lists[j], j) && RingOk(fd, bk, lists[j], j);
        var ring := Ring(j, lists[j]);
        forall k: nat | lists[j] != [] && k < |ring|
          ensures LinkedAt(fd', bk', ring, k)
        {
          assert LinkedAt(fd, bk, ring, k);
        }
      }
    }
  }

  class Smalls {
    var fd: map<int, int>
    var bk: map<int, int>
    var smallmap: nat
    ghost var lists: seq<seq<nat>>

    ghost predicate Valid(h: map<nat, Head>)
      reads this
    {
      ListsOk(h, smallmap, lists) && RingsOk(fd, bk, lists)
    }

    constructor ()
      ensures (forall h :: Valid(h)) && Listed(lists) == {} && smallmap == 0
    {
      fd, bk, lists, smallmap := map[], map[], seq(BINS, _ => []), 0;
      new;
      forall h
        ensures Valid(h)
      {
        forall i | 0 <= i < BINS
          ensures ListOk(h, smallmap, lists[i], i)
        {
          ZeroBit(i);
        }
      }
    }

    /** The first chunk of a bin that holds some */
    method First(ghost h: map<nat, Head>, i: nat) returns (p: nat)
      requires Valid(h) && i < BINS && Bit(smallmap, i)
      ensures lists[i] != [] && p == lists[i][0]
    {
      assert ListOk(h, smallmap, lists[i], i) && RingOk(fd, bk, lists[i], i);
      assert LinkedAt(fd, bk, Ring(i, lists[i]), 0);
      p := Link(fd, Header(i));
    }

    /** The links of insert_small_chunk: p goes between the header and f */
    method LinkIn(p: nat, i: nat, marked: bool, ghost list: seq<nat>)
      requires RingOk(fd, bk, list, i) && NoDup(list) && p !in list && (marked <==> list != [])
      modifies this`fd, this`bk
      ensures RingOk(fd, bk, [p] + list, i)
      ensures forall a :: a != p && a != Header(i) && (a >= 0 ==> a !in list) ==>
                Link(fd, a) == old(Link(fd, a)) && Link(bk, a) == old(Link(bk, a))
    {
      ghost var fd0, bk0, ring := fd, bk, Ring(i, list);
      RingNoDup(i, list);
      var b := Header(i);
      var f := b;
      if marked {
        assert LinkedAt(fd, bk, ring, 0);
        f := Link(fd, b);
      }
      fd := fd[b := p];
      bk := bk[f := p];
      fd := fd[p := f];
      bk := bk[p := b];
      assert Ring(i, [p] + list) == [b, p] + ring[1..];
      InsertLinked(fd0, bk0, fd, bk, ring, Ring(i, [p] + list), p, f);
    }

    /** The links of unlink_small_chunk for the k-th chunk; alone says that there
        is no other */
    method LinkOut(p: nat, ghost i: nat, ghost list: seq<nat>, ghost k: nat) returns (alone: bool)
      requires RingOk(fd, bk, list, i) && NoDup(list) && k < |list| && list[k] == p
      modifies this`fd, this`bk
      ensures alone <==> |list| == 1
      ensures RingOk(fd, bk, list[..k] + list[k + 1..], i)
      ensures forall a :: a != Header(i) && (a >= 0 ==> a !in list) ==>
                Link(fd, a) == old(Link(fd, a)) && Link(bk, a) == old(Link(bk, a))
    {
      ghost var fd0, bk0, ring := fd, bk, Ring(i, list);
      RingNoDup(i, list);
      Neighbours(fd, bk, list, i, k);
      var f, b := Link(fd, p), Link(bk, p);
      alone := f == b;
      if !alone {
        bk := bk[f := b];
        fd := fd[b := f];
        ghost var list' := list[..k] + list[k + 1..];
        assert Ring(i, list') == ring[..k + 1] + ring[k + 2..];
        RemoveLinked(fd0, bk0, fd, bk, ring, Ring(i, list'), k + 1, f, b);
      }
    }

    /** insert_small_chunk */
    method InsertSmall(h: map<nat, Head>, p: nat, s: nat)
      requires Valid(h) && p != 0 && p in h && h[p].size == s && s % 8 == 0 && s < MIN_LARGE
      requires Chunk(p, s) !in Listed(lists)
      modifies this
      ensures Valid(h) && Listed(lists) == old(Listed(lists)) + {Chunk(p, s)}
      ensures s / 8 < old(|lists|) && lists == old(lists)[s / 8 := [p] + old(lists)[s / 8]]
    {
      var i := s / 8;
      ghost var map0, fd0, bk0 := smallmap, fd, bk;
      assert ListOk(h, smallmap, lists[i], i) && RingOk(fd, bk, lists[i], i);
      ListedHas(lists, i, p);
      var marked := Bit(smallmap, i);
      if !marked {
        smallmap := Mark(smallmap, i);
      }
      LinkIn(p, i, marked, lists[i]);
      Marked(map0, smallmap, i);
      ghost var list := [p] + lists[i];
      PushNoDup(p, lists[i]);
      ListedUpdate(lists, i, list, p);
      OtherLists(h, map0, smallmap, lists, i, list);
      OtherRings(h, map0, fd0, bk0, fd, bk, lists, i, list);
      lists := lists[i := list];
    }

    /** unlink_small_chunk, which for the first chunk of a bin is
        unlink_first_small_chunk */
    method UnlinkSmall(h: map<nat, Head>, p: nat, s: nat)
      requires Valid(h) && s % 8 == 0 && s < MIN_LARGE && Chunk(p, s) in Listed(lists)
      modifies this
      ensures Valid(h) && Listed(lists) == old(Listed(lists)) - {Chunk(p, s)}
      ensures s / 8 < old(|lists|) && exists k ::
        && 0 <= k < |old(lists)[s / 8]| && old(lists)[s / 8][k] == p
        && lists == old(lists)[s / 8 := old(lists)[s / 8][..k] + old(lists)[s / 8][k + 1..]]
    {
      var i := s / 8;
      ghost var map0, fd0, bk0 := smallmap, fd, bk;
      assert ListOk(h, smallmap, lists[i], i) && RingOk(fd, bk, lists[i], i);
      ListedHas(lists, i, p);
      ghost var k: nat :| k < |lists[i]| && lists[i][k] == p;
      ghost var list := lists[i][..k] + lists[i][k + 1..];
      DropOne(lists[i], k);
      var alone := LinkOut(p, i, lists[i], k);
      if alone {
        smallmap := Clear(smallmap, i, BINS);
      }
      Cleared(map0, smallmap, i, alone);
      ListedUpdate(lists, i, list, p);
      OtherLists(h, map0, smallmap, lists, i, list);
      OtherRings(h, map0, fd0, bk0, fd, bk, lists, i, list);
      lists := lists[i := list];
    }
  }

  lemma DropOne(list: seq<nat>, k: nat)
    requires NoDup(list) && k < |list|
    ensures var r := list[..k] + list[k + 1..];
      NoDup(r) && |r| == |list| - 1 && forall a :: a in r <==> a in list && a != list[k]
  {
    var r := list[..k] + list[k + 1..];
    forall a | a in list && a != list[k]
      ensures a in r
    {
      var j :| 0 <= j < |list| && list[j] == a;
      assert a == if j < k then r[j] else r[j - 1];
    }
  }

  lemma PushNoDup(p: nat, list: seq<nat>)
    requires NoDup(list) && p !in list
    ensures NoDup([p] + list)
  {
  }

  lemma Marked(m: nat, m': nat, i: nat)
    requires m < Pow2(BINS) && i < BINS && m' == if Bit(m, i) then m else Mark(m, i)
    ensures m' < Pow2(BINS) && forall j :: 0 <= j < BINS ==> (Bit(m', j) <==> Bit(m, j) || j == i)
  {
    MarkBelow(m, i, BINS);
    forall j | 0 <= j < BINS
      ensures Bit(m', j) <==> Bit(m, j) || j == i
    {
      MarkBit(m, i, j);
    }
  }

  lemma Cleared(m: nat, m': nat, i: nat, cleared: bool)
    requires m < Pow2(BINS) && i < BINS && m' == if cleared then Clear(m, i, BINS) else m
    ensures m' < Pow2(BINS) && forall j :: 0 <= j < BINS ==> (Bit(m', j) <==> Bit(m, j) && !(cleared && j == i))
  {
    forall j | 0 <= j < BINS
      ensures Bit(m', j) <==> Bit(m, j) && !(cleared && j == i)
    {
      ClearBit(m, i, BINS, j);
    }
  }

  // ------------------------------------------------------------------ searching

  lemma {:induction false} ShrBit(m: nat, k: nat, j: nat)
    ensures Bit(Shr(m, k), j) <==> Bit(m, k + j)
  {
    if k > 0 {
      ShrBit(m / 2, k - 1, j);
    }
  }

  lemma {:induction false} ShlBit(x: nat, k: nat, j: nat)
    ensures Bit(x * Pow2(k), j) <==> j >= k && Bit(x, j - k)
  {
    if k == 0 {
      assert x * Pow2(0) == x;
    } else {
      assert x * Pow2(k) == 2 * (x * Pow2(k - 1));
      if j > 0 {
        ShlBit(x, k - 1, j - 1);
      }
    }
  }

  /** (smallbits & 3) != 0 asks for a chunk of the size itself or 8 more. */
  lemma TwoBins(m: nat, idx: nat)
    ensures And(Shr(m, idx), 3) != 0 <==> Bit(m, idx) || Bit(m, idx + 1)
    ensures Shr(m, idx) % 2 == 1 <==> Bit(m, idx)
  {
    var x := Shr(m, idx);
    ShrBit(m, idx, 1);
    assert And(x / 2, 3 / 2) == And(x / 2, 1);
    assert And(x / 2 / 2, 0) == 0;
    assert Shr(x, 1) == Shr(x / 2, 0) == x / 2;
  }

  /** (smallbits << idx) & left_bits(idx2bit(idx)): the marked bins above idx */
  function SmallAbove(smallmap: nat, idx: nat): nat
    requires idx < BINS
  {
    Pow2Less(idx, BINS);
    And(Shr(smallmap, idx) * Pow2(idx), LeftBits(Idx2Bit(idx), BINS))
  }

  lemma SmallAboveBit(m: nat, idx: nat, j: nat)
    requires idx < BINS && m < Pow2(BINS)
    ensures Bit(SmallAbove(m, idx), j) <==> idx < j && Bit(m, j)
  {
    Pow2Less(idx, BINS);
    var x := Shr(m, idx) * Pow2(idx);
    HighBit(m, idx, j);
    AndBit(x, LeftBits(Idx2Bit(idx), BINS), j);
    LeftBitsBit(idx, BINS, j);
    if Bit(m, j) { BitBelow(m, BINS, j); }
  }

  /** Shifting right and left again clears the bits below. */
  lemma HighBit(m: nat, idx: nat, j: nat)
    ensures Bit(Shr(m, idx) * Pow2(idx), j) <==> j >= idx && Bit(m, j)
  {
    ShlBit(Shr(m, idx), idx, j);
    if j >= idx { ShrBit(m, idx, j - idx); }
  }

  lemma SmallAboveSome(m: nat, idx: nat)
    requires idx < BINS && m < Pow2(BINS) && Shr(m, idx) != 0 && !Bit(m, idx)
    ensures SmallAbove(m, idx) != 0
  {
    var j := SomeBit(m, idx);
    SmallAboveBit(m, idx, j);
    ZeroBit(j);
  }

  lemma SomeBit(m: nat, idx: nat) returns (j: nat)
    requires Shr(m, idx) != 0 && !Bit(m, idx)
    ensures j > idx && Bit(m, j)
  {
    var x := Shr(m, idx);
    CtzLeast(x, 0);
    ShrBit(m, idx, Ctz(x));
    ShrBit(m, idx, 0);
    j := idx + Ctz(x);
  }

  lemma SmallAboveBelow(m: nat, idx: nat)
    requires idx < BINS
    ensures SmallAbove(m, idx) <= m
  {
    ShrBounds(m, idx);
    TimesSwap(Pow2(idx), Shr(m, idx));
  }

  lemma TimesSwap(a: nat, b: nat)
    ensures a * b == b * a
  {
  }
}
