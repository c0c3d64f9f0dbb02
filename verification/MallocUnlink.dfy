/** Unlinking a chunk from a tree bin in memory: a chained chunk leaves its
    ring, a node is replaced by its neighbour in the ring or by a leaf below. */
module MallocUnlink {
  import opened Collections
  import opened Bits
  import opened MallocTrie
  import opened MallocTree

  /** The chunk's neighbours in the ring are linked to each other */
  function RingOut(m: Links, x: nat): Links {
    var f, r := Get(m.fd, x), Get(m.bk, x);
    m.(bk := m.bk[f := r], fd := m.fd[r := f])
  }

  function ZeroSlot(m: Links, q: nat, right: bool): Links {
    if right then m.(right := m.right[q := 0]) else m.(left := m.left[q := 0])
  }

  /** p's child x becomes r */
  function Slot(m: Links, p: nat, x: nat, r: nat): Links {
    if Get(m.left, p) == x then m.(left := m.left[p := r]) else m.(right := m.right[p := r])
  }

  /** c, unless null, becomes r's child */
  function Adopt(m: Links, r: nat, c: nat, right: bool): Links {
    if c == 0 then m
    else if right then m.(right := m.right[r := c], parent := m.parent[c := r])
    else m.(left := m.left[r := c], parent := m.parent[c := r])
  }

  /** r, unless null, takes over x's parent and children */
  function Seat(m: Links, x: nat, r: nat): Links {
    if r == 0 then m
    else
      var m1 := m.(parent := m.parent[r := Get(m.parent, x)]);
      Adopt(Adopt(m1, r, Get(m.left, x), false), r, Get(m.right, x), true)
  }

  /** The pointer field that holds the leaf TakeLeaf takes from t, if t itself
      hangs in the given field */
  function LeafSlot(t: Trie, up: nat, right: bool): (nat, bool)
    requires t.Node?
    decreases t
  {
    if t.r.Node? then LeafSlot(t.r, Root(t), true)
    else if t.l.Node? then LeafSlot(t.l, Root(t), false)
    else (up, right)
  }

  lemma {:induction false} TakeLeafAddrs(t: Trie)
    requires t.Node?
    ensures var (leaf, rest) := TakeLeaf(t);
      leaf.Node? && Addrs(t) == (set a | a in leaf.ring) + Addrs(rest) && (rest.Node? ==> Root(rest) == Root(t))
    decreases t
  {
    if t.r.Node? {
      TakeLeafAddrs(t.r);
    } else if t.l.Node? {
      TakeLeafAddrs(t.l);
    }
  }

  lemma {:induction false} SlotInside(m: Links, t: Trie, bin: nat, up: nat, right: bool)
    requires Rep(m, t, bin) && t.Node? && (t.r.Node? || t.l.Node?)
    ensures LeafSlot(t, up, right).0 in Addrs(t)
    decreases t
  {
    assert t.ring[0] in Addrs(t);
    if t.r.Node? {
      if t.r.r.Node? || t.r.l.Node? { SlotInside(m, t.r, bin, Root(t), true); }
    } else if t.l.r.Node? || t.l.l.Node? {
      SlotInside(m, t.l, bin, Root(t), false);
    }
  }

  lemma ZeroSame(m: Links, q: nat, right: bool, a: nat)
    requires a != q
    ensures SameAt(m, ZeroSlot(m, q, right), a)
  {
  }

  lemma CutRing(m: Links, ring: seq<nat>, right: bool, bin: nat)
    requires ring != [] && NoDup(ring) && RingLinks(m, ring, bin)
    ensures RingLinks(ZeroSlot(m, ring[0], right), ring, bin)
  {
    var m' := ZeroSlot(m, ring[0], right);
    forall i: nat | i < |ring|
      ensures RingAt(m', ring, i)
    {
      assert RingAt(m, ring, i);
    }
  }

  /** Clearing one of a node's child fields cuts that child off. */
  lemma CutChild(m: Links, t: Trie, right: bool, bin: nat)
    requires Rep(m, t, bin) && t.Node?
    ensures Rep(ZeroSlot(m, t.ring[0], right), if right then t.(r := Nil) else t.(l := Nil), bin)
  {
    var m' := ZeroSlot(m, t.ring[0], right);
    CutRing(m, t.ring, right, bin);
    if right {
      ZeroFrame(m, t.ring[0], right, t.l, bin);
    } else {
      ZeroFrame(m, t.ring[0], right, t.r, bin);
    }
  }

  lemma ZeroFrame(m: Links, q: nat, right: bool, t: Trie, bin: nat)
    requires Rep(m, t, bin) && q !in Addrs(t)
    ensures Rep(ZeroSlot(m, q, right), t, bin)
  {
    forall a | a in Addrs(t)
      ensures SameAt(m, ZeroSlot(m, q, right), a)
    {
      ZeroSame(m, q, right, a);
    }
    RepFrame(m, ZeroSlot(m, q, right), t, bin);
  }

  /** The leaf is cut off and still a ring of its own; the rest stays a trie. */
  lemma {:induction false} TakeLeafRep(m: Links, t: Trie, bin: nat, up: nat, right: bool)
    requires Rep(m, t, bin) && t.Node? && up !in Addrs(t)
    ensures var (leaf, rest) := TakeLeaf(t);
      var q := LeafSlot(t, up, right);
      var m' := ZeroSlot(m, q.0, q.1);
      && Rep(m', rest, bin)
      && leaf.Node? && leaf.ring != [] && NoDup(leaf.ring) && RingLinks(m', leaf.ring, bin)
      && Get(m'.left, leaf.ring[0]) == 0 && Get(m'.right, leaf.ring[0]) == 0
      && (forall a :: a in leaf.ring ==> a !in Addrs(rest))
    decreases t
  {
    var q := LeafSlot(t, up, right);
    var m' := ZeroSlot(m, q.0, q.1);
    if t.r.Node? {
      TakeLeafRep(m, t.r, bin, Root(t), true);
      TakeLeafUp(m, m', t, t.r, true, q, bin);
    } else if t.l.Node? {
      TakeLeafRep(m, t.l, bin, Root(t), false);
      TakeLeafUp(m, m', t, t.l, false, q, bin);
    } else {
      forall a | a in t.ring
        ensures SameAt(m, m', a)
      {
        ZeroSame(m, up, right, a);
      }
      RingFrame(m, m', t.ring, bin);
      assert SameAt(m, m', t.ring[0]);
    }
  }

  lemma TakeLeafUp(m: Links, m': Links, t: Trie, c: Trie, right: bool, q: (nat, bool), bin: nat)
    requires Rep(m, t, bin) && t.Node? && c.Node? && c == (if right then t.r else t.l)
    requires q == LeafSlot(c, Root(t), right) && m' == ZeroSlot(m, q.0, q.1)
    requires Rep(m', TakeLeaf(c).1, bin) && TakeLeaf(c).0.Node?
    requires forall a :: a in TakeLeaf(c).0.ring ==> a !in Addrs(TakeLeaf(c).1)
    ensures var rest := TakeLeaf(c).1;
      var t' := if right then t.(r := rest) else t.(l := rest);
      Rep(m', t', bin) && forall a :: a in TakeLeaf(c).0.ring ==> a !in Addrs(t')
  {
    var rest := TakeLeaf(c).1;
    TakeLeafAddrs(c);
    if rest.Nil? {
      CutChild(m, t, right, bin);
    } else {
      SlotInside(m, c, bin, Root(t), right);
      forall a | a in t.ring || (a in Addrs(t) && a !in Addrs(c))
        ensures SameAt(m, m', a)
      {
        ZeroSame(m, q.0, q.1, a);
      }
      Reroot(m, m', t, c, rest, bin);
    }
  }

  // ------------------------------------------------------------------- seating

  ghost predicate SameButParent(m: Links, m': Links, a: nat) {
    && Get(m'.left, a) == Get(m.left, a) && Get(m'.right, a) == Get(m.right, a)
    && Get(m'.index, a) == Get(m.index, a)
    && Get(m'.fd, a) == Get(m.fd, a) && Get(m'.bk, a) == Get(m.bk, a)
  }

  /** A trie may get another parent. */
  lemma Reparent(m: Links, m': Links, t: Trie, bin: nat)
    requires Rep(m, t, bin) && t.Node? && Get(m'.parent, Root(t)) != 0 && SameButParent(m, m', Root(t))
    requires forall a :: a in Addrs(t) && a != Root(t) ==> SameAt(m, m', a)
    ensures Rep(m', t, bin)
  {
    SeatRing(m, m', t.ring, bin);
    RootIn(t.l, m, bin);
    RootIn(t.r, m, bin);
    assert t.ring[0] in t.ring;
    RepFrame(m, m', t.l, bin);
    RepFrame(m, m', t.r, bin);
  }

  lemma AdoptSame(m: Links, r: nat, c: nat, right: bool, a: nat)
    ensures var m' := Adopt(m, r, c, right);
      && m'.fd == m.fd && m'.bk == m.bk && m'.index == m.index
      && (a != r ==> SameButParent(m, m', a))
      && (a != c || c == 0 ==> Get(m'.parent, a) == Get(m.parent, a))
      && (c != 0 ==> Get(m'.parent, c) == r)
      && Get(m'.left, r) == (if c != 0 && !right then c else Get(m.left, r))
      && Get(m'.right, r) == (if c != 0 && right then c else Get(m.right, r))
  {
  }

  lemma SeatSame(m: Links, x: nat, r: nat, a: nat)
    requires a != r
    ensures SameButParent(m, Seat(m, x, r), a)
    ensures a != Get(m.left, x) && a != Get(m.right, x) ==> SameAt(m, Seat(m, x, r), a)
  {
    var m1 := m.(parent := m.parent[r := Get(m.parent, x)]);
    AdoptSame(m1, r, Get(m.left, x), false, a);
    AdoptSame(Adopt(m1, r, Get(m.left, x), false), r, Get(m.right, x), true, a);
  }

  lemma SeatAt(m: Links, x: nat, r: nat)
    requires r != 0 && r != Get(m.left, x) && r != Get(m.right, x)
    ensures var m' := Seat(m, x, r);
      && Get(m'.parent, r) == Get(m.parent, x)
      && Get(m'.left, r) == (if Get(m.left, x) != 0 then Get(m.left, x) else Get(m.left, r))
      && Get(m'.right, r) == (if Get(m.right, x) != 0 then Get(m.right, x) else Get(m.right, r))
      && Get(m'.fd, r) == Get(m.fd, r) && Get(m'.bk, r) == Get(m.bk, r) && Get(m'.index, r) == Get(m.index, r)
      && (Get(m.left, x) != 0 && Get(m.left, x) != Get(m.right, x) ==> Get(m'.parent, Get(m.left, x)) == r)
      && (Get(m.right, x) != 0 ==> Get(m'.parent, Get(m.right, x)) == r)
  {
    var m1, c0, c1 := m.(parent := m.parent[r := Get(m.parent, x)]), Get(m.left, x), Get(m.right, x);
    AdoptSame(m1, r, c0, false, r);
    AdoptSame(Adopt(m1, r, c0, false), r, c1, true, r);
    AdoptSame(Adopt(m1, r, c0, false), r, c1, true, c0);
  }

  lemma SeatRing(m: Links, m': Links, ring: seq<nat>, bin: nat)
    requires ring != [] && NoDup(ring) && RingLinks(m, ring, bin)
    requires forall a :: a in ring && a != ring[0] ==> SameAt(m, m', a)
    requires Get(m'.fd, ring[0]) == Get(m.fd, ring[0]) && Get(m'.bk, ring[0]) == Get(m.bk, ring[0])
    requires Get(m'.index, ring[0]) == Get(m.index, ring[0])
    ensures RingLinks(m', ring, bin)
  {
    forall i: nat | i < |ring|
      ensures RingAt(m', ring, i)
      ensures Get(m'.index, ring[i]) == bin
      ensures i >= 1 ==> Get(m'.parent, ring[i]) == 0 && Get(m'.left, ring[i]) == 0 && Get(m'.right, ring[i]) == 0
    {
      assert RingAt(m, ring, i);
      assert ring[i] in ring && After(ring, i) in ring;
      assert i >= 1 ==> ring[0] != ring[i];
      assert ring[i] != ring[0] ==> SameAt(m, m', ring[i]);
      assert After(ring, i) != ring[0] ==> SameAt(m, m', After(ring, i));
    }
  }

  /** A ring without tree links takes the place of x over x's two children. */
  lemma SeatRep(m: Links, x: nat, t: Trie, bin: nat)
    requires t.Node? && t.ring != [] && Separate(t) && RingLinks(m, t.ring, bin)
    requires Rep(m, t.l, bin) && Rep(m, t.r, bin) && x !in Addrs(t)
    requires Get(m.left, t.ring[0]) == 0 && Get(m.right, t.ring[0]) == 0
    requires Get(m.left, x) == Root(t.l) && Get(m.right, x) == Root(t.r) && Get(m.parent, x) != 0
    ensures Rep(Seat(m, x, t.ring[0]), t, bin)
    ensures Get(Seat(m, x, t.ring[0]).parent, t.ring[0]) == Get(m.parent, x)
  {
    var r := t.ring[0];
    var m' := Seat(m, x, r);
    assert RingAt(m, t.ring, 0) && r in t.ring;
    RootIn(t.l, m, bin);
    RootIn(t.r, m, bin);
    SeatAt(m, x, r);
    SeatKids(m, x, t, bin);
    SeatOthers(m, x, t, bin);
  }

  lemma SeatOthers(m: Links, x: nat, t: Trie, bin: nat)
    requires t.Node? && t.ring != [] && Separate(t) && RingLinks(m, t.ring, bin) && t.ring[0] != 0
    requires Rep(m, t.l, bin) && Rep(m, t.r, bin)
    requires Get(m.left, x) == Root(t.l) && Get(m.right, x) == Root(t.r)
    ensures RingLinks(Seat(m, x, t.ring[0]), t.ring, bin)
  {
    var r := t.ring[0];
    assert r in t.ring;
    RootIn(t.l, m, bin);
    RootIn(t.r, m, bin);
    SeatAt(m, x, r);
    forall a | a in t.ring && a != r
      ensures SameAt(m, Seat(m, x, r), a)
    {
      RingNonzero(m, t.ring, bin, a);
      SeatSame(m, x, r, a);
    }
    SeatRing(m, Seat(m, x, r), t.ring, bin);
  }

  lemma RingNonzero(m: Links, ring: seq<nat>, bin: nat, a: nat)
    requires RingLinks(m, ring, bin) && a in ring
    ensures a != 0
  {
    var i: nat :| i < |ring| && ring[i] == a;
    assert RingAt(m, ring, i);
  }

  lemma SeatKids(m: Links, x: nat, t: Trie, bin: nat)
    requires t.Node? && t.ring != [] && Separate(t) && t.ring[0] != 0
    requires Rep(m, t.l, bin) && Rep(m, t.r, bin)
    requires Get(m.left, x) == Root(t.l) && Get(m.right, x) == Root(t.r)
    ensures Rep(Seat(m, x, t.ring[0]), t.l, bin) && Rep(Seat(m, x, t.ring[0]), t.r, bin)
  {
    var r := t.ring[0];
    var m' := Seat(m, x, r);
    assert r in t.ring;
    RootIn(t.l, m, bin);
    RootIn(t.r, m, bin);
    forall a | a in Addrs(t.l) || a in Addrs(t.r)
      ensures SameButParent(m, m', a) && (a != Root(t.l) && a != Root(t.r) ==> SameAt(m, m', a))
    {
      SeatSame(m, x, r, a);
    }
    SeatAt(m, x, r);
    if t.l.Node? { Reparent(m, m', t.l, bin); }
    if t.r.Node? { Reparent(m, m', t.r, bin); }
  }

  // --------------------------------------------------------- leaving a ring

  lemma RingOutSame(m: Links, x: nat, a: nat)
    requires a != Get(m.fd, x) && a != Get(m.bk, x)
    ensures SameAt(m, RingOut(m, x), a)
  {
  }

  lemma {:induction false} WithoutAt(ring: seq<nat>, k: nat)
    requires NoDup(ring) && k < |ring|
    ensures Without(ring, ring[k]) == ring[..k] + ring[k + 1..]
    decreases |ring|
  {
    if k > 0 {
      var x, rest := ring[k], ring[1..];
      assert ring[0] != x && rest[k - 1] == x;
      WithoutAt(rest, k - 1);
      calc {
        Without(ring, x);
        [ring[0]] + Without(rest, x);
        [ring[0]] + (rest[..k - 1] + rest[k..]);
        ring[..k] + ring[k + 1..];
      }
    }
  }

  /** A chained chunk leaves: the others stay in their order. */
  lemma UnchainRing(m: Links, ring: seq<nat>, k: nat, bin: nat)
    requires NoDup(ring) && 1 <= k < |ring| && RingLinks(m, ring, bin)
    ensures RingLinks(RingOut(m, ring[k]), ring[..k] + ring[k + 1..], bin)
  {
    var m', r := RingOut(m, ring[k]), ring[..k] + ring[k + 1..];
    assert RingAt(m, ring, k) && RingAt(m, ring, k - 1);
    forall i: nat | i < |r|
      ensures RingAt(m', r, i)
    {
      var j := if i < k then i else i + 1;
      assert r[i] == ring[j] && RingAt(m, ring, j);
      if i != k - 1 {
        assert After(r, i) == After(ring, j);
      } else {
        assert After(r, i) == After(ring, k);
      }
    }
    forall i: nat | i < |r|
      ensures Get(m'.index, r[i]) == bin
      ensures i >= 1 ==> Get(m'.parent, r[i]) == 0 && Get(m'.left, r[i]) == 0 && Get(m'.right, r[i]) == 0
    {
      assert r[i] == ring[if i < k then i else i + 1];
    }
  }

  /** The first chunk leaves: the last one comes to the front. */
  lemma UnheadRing(m: Links, ring: seq<nat>, bin: nat)
    requires NoDup(ring) && |ring| > 1 && RingLinks(m, ring, bin)
    ensures RingLinks(RingOut(m, ring[0]), RingWithout(ring, ring[0]), bin)
    ensures Get(m.bk, ring[0]) == ring[|ring| - 1]
  {
    var n := |ring|;
    var m', r := RingOut(m, ring[0]), [ring[n - 1]] + ring[1..n - 1];
    assert RingAt(m, ring, 0) && RingAt(m, ring, n - 1);
    forall i: nat | i < |r|
      ensures RingAt(m', r, i)
    {
      if i > 0 {
        assert r[i] == ring[i] && RingAt(m, ring, i);
        assert After(r, i) == After(ring, i);
      } else if n > 2 {
        assert After(r, 0) == ring[1];
      }
    }
    forall i: nat | i < |r|
      ensures Get(m'.index, r[i]) == bin
      ensures i >= 1 ==> Get(m'.parent, r[i]) == 0 && Get(m'.left, r[i]) == 0 && Get(m'.right, r[i]) == 0
    {
      assert i > 0 ==> r[i] == ring[i];
    }
  }

  // ------------------------------------------------------------ a node leaves

  /** What Remove leaves of a node whose first chunk goes */
  function NodeAfter(n: Trie): Trie
    requires n.Node?
  {
    if |n.ring| > 1 then n.(ring := RingWithout(n.ring, n.ring[0])) else DropNode(n)
  }

  /** The chunk that takes its place, 0 if there is none */
  function Heir(n: Trie): nat
    requires n.Node?
  {
    if |n.ring| > 1 then n.ring[|n.ring| - 1]
    else if n.r.Node? then Root(TakeLeaf(n.r).0)
    else if n.l.Node? then Root(TakeLeaf(n.l).0)
    else 0
  }

  /** The heir is taken from where it was */
  function Detached(m: Links, n: Trie): Links
    requires n.Node?
  {
    if |n.ring| > 1 then RingOut(m, n.ring[0])
    else if n.r.Node? then
      var q := LeafSlot(n.r, Root(n), true);
      ZeroSlot(m, q.0, q.1)
    else if n.l.Node? then
      var q := LeafSlot(n.l, Root(n), false);
      ZeroSlot(m, q.0, q.1)
    else m
  }

  /** After the heir is detached, the node to be has its ring, and the old node
      points at its children. */
  ghost predicate ReadyToSeat(m: Links, x: nat, t: Trie, bin: nat) {
    && t.Node? && t.ring != [] && Separate(t) && RingLinks(m, t.ring, bin)
    && Rep(m, t.l, bin) && Rep(m, t.r, bin) && x !in Addrs(t)
    && Get(m.left, t.ring[0]) == 0 && Get(m.right, t.ring[0]) == 0
    && Get(m.left, x) == Root(t.l) && Get(m.right, x) == Root(t.r) && Get(m.parent, x) != 0
  }

  lemma HeadOut(m: Links, n: Trie, bin: nat)
    requires Rep(m, n, bin) && n.Node? && |n.ring| > 1
    ensures ReadyToSeat(Detached(m, n), n.ring[0], NodeAfter(n), bin)
    ensures Heir(n) == Root(NodeAfter(n)) && Addrs(NodeAfter(n)) == Addrs(n) - {n.ring[0]}
  {
    var x, m', n' := n.ring[0], Detached(m, n), NodeAfter(n);
    assert RingAt(m, n.ring, 0) && RingAt(m, n.ring, |n.ring| - 1);
    UnheadRing(m, n.ring, bin);
    RingWithoutIs(n.ring, x);
    forall a | a in Addrs(n.l) || a in Addrs(n.r)
      ensures SameAt(m, m', a)
    {
      RingOutSame(m, x, a);
    }
    RepFrame(m, m', n.l, bin);
    RepFrame(m, m', n.r, bin);
  }

  /** A node with one chunk and a child: the leaf's ring over what is left */
  ghost predicate LeafUpTo(n: Trie, c: Trie, right: bool)
    requires n.Node? && n.ring != [] && c.Node?
  {
    var p, n' := TakeLeaf(c), NodeAfter(n);
    && p.0.Node? && p.0.ring != []
    && n' == Node(p.0.size, p.0.ring, if right then n.l else p.1, if right then p.1 else n.r)
    && Separate(n') && Heir(n) == Root(n') && Addrs(n') == Addrs(n) - {n.ring[0]}
  }

  lemma LeafUpRight(m: Links, n: Trie, bin: nat)
    requires Rep(m, n, bin) && n.Node? && |n.ring| == 1 && n.r.Node?
    ensures LeafUpTo(n, n.r, true)
  {
    assert n.ring == [n.ring[0]] && n.ring[0] in n.ring;
    TakeLeafRep(m, n.r, bin, n.ring[0], true);
    TakeLeafAddrs(n.r);
  }

  lemma LeafUpLeft(m: Links, n: Trie, bin: nat)
    requires Rep(m, n, bin) && n.Node? && |n.ring| == 1 && n.r.Nil? && n.l.Node?
    ensures LeafUpTo(n, n.l, false)
  {
    assert n.ring == [n.ring[0]] && n.ring[0] in n.ring;
    TakeLeafRep(m, n.l, bin, n.ring[0], false);
    TakeLeafAddrs(n.l);
  }

  lemma LeafUp(m: Links, n: Trie, right: bool, bin: nat)
    requires Rep(m, n, bin) && n.Node? && |n.ring| == 1
    requires if right then n.r.Node? else n.r.Nil? && n.l.Node?
    ensures ReadyToSeat(Detached(m, n), n.ring[0], NodeAfter(n), bin)
    ensures Heir(n) == Root(NodeAfter(n)) && Addrs(NodeAfter(n)) == Addrs(n) - {n.ring[0]}
  {
    var x, m', c := n.ring[0], Detached(m, n), if right then n.r else n.l;
    var q := LeafSlot(c, x, right);
    assert x in n.ring;
    if right { LeafUpRight(m, n, bin); } else { LeafUpLeft(m, n, bin); }
    TakeLeafRep(m, c, bin, x, right);
    TakeLeafUp(m, m', n, c, right, q, bin);
  }

  lemma NodeReady(m: Links, n: Trie, bin: nat)
    requires Rep(m, n, bin) && n.Node?
    ensures NodeAfter(n).Node? ==> ReadyToSeat(Detached(m, n), n.ring[0], NodeAfter(n), bin)
    ensures Heir(n) == Root(NodeAfter(n)) && Addrs(NodeAfter(n)) == Addrs(n) - {n.ring[0]}
    ensures NodeAfter(n).Node? <==> Heir(n) != 0
  {
    assert n.ring[0] in n.ring;
    if |n.ring| > 1 {
      HeadOut(m, n, bin);
      assert RingAt(m, n.ring, |n.ring| - 1);
    } else if n.r.Node? {
      LeafUp(m, n, true, bin);
      assert RingAt(Detached(m, n), NodeAfter(n).ring, 0);
    } else if n.l.Node? {
      LeafUp(m, n, false, bin);
      assert RingAt(Detached(m, n), NodeAfter(n).ring, 0);
    } else {
      assert n.ring == [n.ring[0]];
      assert Addrs(n) == {n.ring[0]};
    }
  }

  lemma DetachSame(m: Links, n: Trie, bin: nat, a: nat)
    requires Rep(m, n, bin) && n.Node? && a !in Addrs(n)
    ensures SameAt(m, Detached(m, n), a)
  {
    assert n.ring[0] in n.ring;
    if |n.ring| > 1 {
      assert RingAt(m, n.ring, 0) && RingAt(m, n.ring, |n.ring| - 1);
      assert After(n.ring, 0) in n.ring && n.ring[|n.ring| - 1] in n.ring;
      RingOutSame(m, n.ring[0], a);
    } else if n.r.Node? {
      var q := LeafSlot(n.r, Root(n), true);
      if n.r.r.Node? || n.r.l.Node? { SlotInside(m, n.r, bin, Root(n), true); }
      ZeroSame(m, q.0, q.1, a);
    } else if n.l.Node? {
      var q := LeafSlot(n.l, Root(n), false);
      if n.l.r.Node? || n.l.l.Node? { SlotInside(m, n.l, bin, Root(n), false); }
      ZeroSame(m, q.0, q.1, a);
    }
  }

  // ------------------------------------------------------------ the whole bin

  /** unlink_large_chunk of the first chunk of node n: at the root of a bin no
      parent has to be told */
  function Unlinked(m: Links, n: Trie, atRoot: bool): Links
    requires n.Node?
  {
    var x, r, m1 := Root(n), Heir(n), Detached(m, n);
    Seat(if atRoot then m1 else Slot(m1, Get(m.parent, x), x, r), x, r)
  }

  lemma {:induction false} RootOut(m: Links, n: Trie, bin: nat)
    requires Rep(m, n, bin) && n.Node?
    ensures Rep(Unlinked(m, n, true), NodeAfter(n), bin)
    ensures Heir(n) != 0 ==> Get(Unlinked(m, n, true).parent, Heir(n)) == Get(m.parent, Root(n))
  {
    NodeReady(m, n, bin);
    if NodeAfter(n).Node? {
      SeatRep(Detached(m, n), Root(n), NodeAfter(n), bin);
      DetachParent(m, n);
    }
  }

  lemma DetachParent(m: Links, n: Trie)
    requires n.Node?
    ensures Detached(m, n).parent == m.parent
  {
    if |n.ring| == 1 && n.r.Node? {
      var q := LeafSlot(n.r, Root(n), true);
      ZeroKeepsParents(m, q.0, q.1);
    } else if |n.ring| == 1 && n.l.Node? {
      var q := LeafSlot(n.l, Root(n), false);
      ZeroKeepsParents(m, q.0, q.1);
    }
  }

  lemma ZeroKeepsParents(m: Links, p: nat, right: bool)
    ensures ZeroSlot(m, p, right).parent == m.parent
  {
  }

  lemma RootOutSame(m: Links, n: Trie, bin: nat, a: nat)
    requires Rep(m, n, bin) && n.Node? && a !in Addrs(n) && a != 0
    ensures SameAt(m, Unlinked(m, n, true), a)
  {
    DetachSame(m, n, bin, a);
    NodeReady(m, n, bin);
    var m1, x, r := Detached(m, n), Root(n), Heir(n);
    if r != 0 {
      var n' := NodeAfter(n);
      RootIn(n'.l, m1, bin);
      RootIn(n'.r, m1, bin);
      assert n'.ring[0] in n'.ring;
      SeatSame(m1, x, r, a);
    }
  }

  ghost predicate AlikeAt(m: Links, s: Links, a: nat) {
    && m.parent == s.parent && m.fd == s.fd && m.bk == s.bk && m.index == s.index
    && Get(m.left, a) == Get(s.left, a) && Get(m.right, a) == Get(s.right, a)
  }

  lemma AdoptAlike(m: Links, s: Links, r: nat, c: nat, right: bool, a: nat)
    requires AlikeAt(m, s, a)
    ensures AlikeAt(Adopt(m, r, c, right), Adopt(s, r, c, right), a)
  {
  }

  lemma SlotAlike(m: Links, p: nat, x: nat, r: nat, a: nat)
    requires a != p
    ensures AlikeAt(m, Slot(m, p, x, r), a)
  {
  }

  /** Telling the parent and seating the heir do not get in each other's way. */
  lemma SlotSeat(m: Links, p: nat, x: nat, r: nat, a: nat)
    requires p != x && a != p
    ensures SameAt(Seat(m, x, r), Seat(Slot(m, p, x, r), x, r), a)
  {
    var s := Slot(m, p, x, r);
    SlotAlike(m, p, x, r, a);
    SlotAlike(m, p, x, r, x);
    if r != 0 {
      var m1 := m.(parent := m.parent[r := Get(m.parent, x)]);
      var s1 := s.(parent := s.parent[r := Get(s.parent, x)]);
      var c0, c1 := Get(m.left, x), Get(m.right, x);
      AdoptAlike(m1, s1, r, c0, false, a);
      AdoptAlike(Adopt(m1, r, c0, false), Adopt(s1, r, c0, false), r, c1, true, a);
    }
  }

  lemma SlotAt(m: Links, p: nat, x: nat, r: nat)
    requires p != x && p != r && x != 0 && p != Get(m.left, x) && p != Get(m.right, x)
    ensures var m' := Seat(Slot(m, p, x, r), x, r);
      && Get(m'.parent, p) == Get(m.parent, p) && Get(m'.index, p) == Get(m.index, p)
      && Get(m'.fd, p) == Get(m.fd, p) && Get(m'.bk, p) == Get(m.bk, p)
      && Get(m'.left, p) == (if Get(m.left, p) == x then r else Get(m.left, p))
      && Get(m'.right, p) == (if Get(m.left, p) == x then Get(m.right, p) else r)
  {
    var s := Slot(m, p, x, r);
    SlotOnly(m, s, p, x, r);
    SeatSame(s, x, r, p);
  }

  lemma SlotOnly(m: Links, s: Links, p: nat, x: nat, r: nat)
    requires s == Slot(m, p, x, r)
    ensures s.parent == m.parent && s.index == m.index && s.fd == m.fd && s.bk == m.bk
    ensures Get(s.left, p) == if Get(m.left, p) == x then r else Get(m.left, p)
    ensures Get(s.right, p) == if Get(m.left, p) == x then Get(m.right, p) else r
    ensures forall a :: a != p ==> Get(s.left, a) == Get(m.left, a) && Get(s.right, a) == Get(m.right, a)
  {
  }

  /** A child is replaced and the node's pointer to it follows. */
  lemma Rehang(m: Links, m': Links, t: Trie, right: bool, c': Trie, bin: nat)
    requires Rep(m, t, bin) && t.Node? && Rep(m', c', bin) && ChildOf(m', c', t.ring[0])
    requires var c := if right then t.r else t.l;
      && (forall a :: a != t.ring[0] && (a in t.ring || (a in Addrs(t) && a !in Addrs(c))) ==> SameAt(m, m', a))
      && (forall a :: a in Addrs(c') ==> a in Addrs(c))
    requires var p := t.ring[0];
      && Get(m'.parent, p) == Get(m.parent, p) && Get(m'.index, p) == Get(m.index, p)
      && Get(m'.fd, p) == Get(m.fd, p) && Get(m'.bk, p) == Get(m.bk, p)
      && Get(m'.left, p) == (if right then Root(t.l) else Root(c'))
      && Get(m'.right, p) == (if right then Root(c') else Root(t.r))
    ensures Rep(m', if right then t.(r := c') else t.(l := c'), bin)
  {
    var other := if right then t.l else t.r;
    assert t.ring[0] in t.ring;
    SeatRing(m, m', t.ring, bin);
    RepFrame(m, m', other, bin);
    RootIn(other, m, bin);
  }

  lemma ChildOutSame(m: Links, t: Trie, c: Trie, bin: nat, a: nat)
    requires Rep(m, t, bin) && t.Node? && (c == t.l || c == t.r) && c.Node?
    requires a != t.ring[0] && a !in Addrs(c) && a != 0
    ensures SameAt(m, Unlinked(m, c, false), a)
  {
    var p, x, r := t.ring[0], Root(c), Heir(c);
    RootIn(c, m, bin);
    assert p in t.ring;
    NodeReady(m, c, bin);
    HeirInside(m, c, bin);
    RootOutSame(m, c, bin, a);
    SlotSeat(Detached(m, c), p, x, r, a);
  }

  lemma HeirInside(m: Links, n: Trie, bin: nat)
    requires Rep(m, n, bin) && n.Node?
    ensures Heir(n) != 0 ==> Heir(n) in Addrs(n) && Heir(n) != Root(n)
  {
    NodeReady(m, n, bin);
    if NodeAfter(n).Node? {
      assert NodeAfter(n).ring[0] in NodeAfter(n).ring;
    }
  }

  /** A child's first chunk is unlinked. */
  lemma ChildOut(m: Links, t: Trie, right: bool, bin: nat)
    requires Rep(m, t, bin) && t.Node? && (if right then t.r.Node? else t.l.Node?)
    ensures var c := if right then t.r else t.l;
      Rep(Unlinked(m, c, false), if right then t.(r := NodeAfter(c)) else t.(l := NodeAfter(c)), bin)
  {
    var c := if right then t.r else t.l;
    var p, x, r, m', c' := t.ring[0], Root(c), Heir(c), Unlinked(m, c, false), NodeAfter(c);
    assert p in t.ring && RingAt(m, t.ring, 0);
    RootIn(t.l, m, bin);
    RootIn(t.r, m, bin);
    NodeReady(m, c, bin);
    HeirInside(m, c, bin);
    ChildOutRep(m, t, c, bin);
    forall a | a != p && (a in t.ring || (a in Addrs(t) && a !in Addrs(c)))
      ensures SameAt(m, m', a)
    {
      AddrNonzero(m, t, bin, a);
      ChildOutSame(m, t, c, bin, a);
    }
    ChildOutParent(m, t, c, bin);
    Rehang(m, m', t, right, c', bin);
  }

  lemma {:induction false} AddrNonzero(m: Links, t: Trie, bin: nat, a: nat)
    requires Rep(m, t, bin) && a in Addrs(t)
    ensures a != 0
    decreases t
  {
    if a in t.ring {
      var i :| 0 <= i < |t.ring| && t.ring[i] == a;
      assert RingAt(m, t.ring, i);
    } else if a in Addrs(t.l) {
      AddrNonzero(m, t.l, bin, a);
    } else {
      AddrNonzero(m, t.r, bin, a);
    }
  }

  lemma ChildOutRep(m: Links, t: Trie, c: Trie, bin: nat)
    requires Rep(m, t, bin) && t.Node? && (c == t.l || c == t.r) && c.Node?
    ensures Rep(Unlinked(m, c, false), NodeAfter(c), bin) && ChildOf(Unlinked(m, c, false), NodeAfter(c), t.ring[0])
  {
    var p, x, r := t.ring[0], Root(c), Heir(c);
    var m', m0 := Unlinked(m, c, false), Unlinked(m, c, true);
    assert p in t.ring;
    RootIn(c, m, bin);
    NodeReady(m, c, bin);
    HeirInside(m, c, bin);
    RootOut(m, c, bin);
    forall a | a in Addrs(NodeAfter(c))
      ensures SameAt(m0, m', a)
    {
      SlotSeat(Detached(m, c), p, x, r, a);
    }
    RepFrame(m0, m', NodeAfter(c), bin);
    if NodeAfter(c).Node? {
      assert SameAt(m0, m', r);
    }
  }

  lemma ChildOutParent(m: Links, t: Trie, c: Trie, bin: nat)
    requires Rep(m, t, bin) && t.Node? && (c == t.l || c == t.r) && c.Node?
    ensures var m', p, r := Unlinked(m, c, false), t.ring[0], Heir(c);
      && Get(m'.parent, p) == Get(m.parent, p) && Get(m'.index, p) == Get(m.index, p)
      && Get(m'.fd, p) == Get(m.fd, p) && Get(m'.bk, p) == Get(m.bk, p)
      && Get(m'.left, p) == (if c == t.l then r else Root(t.l))
      && Get(m'.right, p) == (if c == t.l then Root(t.r) else r)
  {
    var m1, p, x, r := Detached(m, c), t.ring[0], Root(c), Heir(c);
    assert p in t.ring;
    RootIn(t.l, m, bin);
    RootIn(t.r, m, bin);
    NodeReady(m, c, bin);
    HeirInside(m, c, bin);
    DetachSame(m, c, bin, p);
    DetachedChildren(m, c, bin);
    SlotAt(m1, p, x, r);
  }

  lemma DetachedChildren(m: Links, n: Trie, bin: nat)
    requires Rep(m, n, bin) && n.Node?
    ensures var m1, x := Detached(m, n), Root(n);
      && (Get(m1.left, x) == 0 || Get(m1.left, x) in Addrs(n))
      && (Get(m1.right, x) == 0 || Get(m1.right, x) in Addrs(n))
  {
    NodeReady(m, n, bin);
    RootIn(n.l, m, bin);
    RootIn(n.r, m, bin);
    if NodeAfter(n).Node? {
      var n' := NodeAfter(n);
      RootIn(n'.l, Detached(m, n), bin);
      RootIn(n'.r, Detached(m, n), bin);
    }
  }

  /** The descent for a chunk's size ends at the node that holds it. */
  lemma {:induction false} FindNode(t: Trie, x: nat, s: nat, lo: nat, b: nat)
    requires Sound(t, lo, b) && Chunk(x, s) in Chunks(t)
    ensures var n := StopAt(t, s, lo, b); n.Node? && n.size == s && x in n.ring
    decreases t
  {
    if t.size == s {
      HereOnly(t, x, lo, b);
    } else {
      SideOf(t, Chunk(x, s), lo, b);
      if s < lo + Pow2(b - 1) {
        FindNode(t.l, x, s, lo, b - 1);
      } else {
        FindNode(t.r, x, s, lo + Pow2(b - 1), b - 1);
      }
    }
  }

  lemma {:induction false} ChunkAddr(t: Trie, c: Chunk)
    requires c in Chunks(t)
    ensures c.at in Addrs(t)
    decreases t
  {
    RingHas(t.ring, t.size, c.at);
    if c in Chunks(t.l) {
      ChunkAddr(t.l, c);
    } else if c in Chunks(t.r) {
      ChunkAddr(t.r, c);
    }
  }

  lemma ChainOut(m: Links, t: Trie, x: nat, bin: nat)
    requires Rep(m, t, bin) && t.Node? && x in t.ring && x != t.ring[0]
    ensures |t.ring| > 1 && Rep(RingOut(m, x), t.(ring := RingWithout(t.ring, x)), bin)
    ensures forall a :: a in RingWithout(t.ring, x) ==> a in t.ring
    ensures RingWithout(t.ring, x) != [] && RingWithout(t.ring, x)[0] == t.ring[0]
    ensures forall a :: a !in t.ring ==> SameAt(m, RingOut(m, x), a)
  {
    var m' := RingOut(m, x);
    var k: nat :| k < |t.ring| && t.ring[k] == x;
    UnchainRing(m, t.ring, k, bin);
    WithoutAt(t.ring, k);
    RingWithoutIs(t.ring, x);
    assert RingAt(m, t.ring, k) && RingAt(m, t.ring, k - 1);
    assert After(t.ring, k) in t.ring && t.ring[k - 1] in t.ring;
    forall a | a !in t.ring
      ensures SameAt(m, m', a)
    {
      RingOutSame(m, x, a);
    }
    RepFrame(m, m', t.l, bin);
    RepFrame(m, m', t.r, bin);
  }

  /** What unlinking x, of size s, from below or beside t's root does to memory */
  function UnlinkedBelow(m: Links, t: Trie, x: nat, s: nat, lo: nat, b: nat): Links {
    var n := StopAt(t, s, lo, b);
    if n.Node? && x == Root(n) then Unlinked(m, n, false) else RingOut(m, x)
  }

  ghost predicate BelowKept(m: Links, m': Links, t: Trie, t': Trie, bin: nat) {
    && t.Node? && t'.Node? && Rep(m', t', bin) && Root(t') == Root(t)
    && Get(m'.parent, Root(t)) == Get(m.parent, Root(t))
    && (forall a :: a in Addrs(t') ==> a in Addrs(t))
    && (forall a :: a !in Addrs(t) && a != 0 ==> SameAt(m, m', a))
  }

  lemma {:induction false} RemoveBelow(m: Links, t: Trie, x: nat, s: nat, lo: nat, b: nat, bin: nat)
    requires Rep(m, t, bin) && Sound(t, lo, b) && Chunk(x, s) in Chunks(t) && x != Root(t)
    ensures BelowKept(m, UnlinkedBelow(m, t, x, s, lo, b), t, Remove(t, x, s, lo, b), bin)
    decreases t, 1
  {
    if t.size == s {
      HereOnly(t, x, lo, b);
      RemoveBeside(m, t, x, s, lo, b, bin);
    } else {
      SideOf(t, Chunk(x, s), lo, b);
      var right := s >= lo + Pow2(b - 1);
      var c, lo' := if right then t.r else t.l, if right then lo + Pow2(b - 1) else lo;
      var c' := Remove(c, x, s, lo', b - 1);
      assert Remove(t, x, s, lo, b) == if right then t.(r := c') else t.(l := c');
      assert StopAt(t, s, lo, b) == StopAt(c, s, lo', b - 1);
      RemoveFrom(m, t, right, c, c', x, s, lo', b - 1, bin);
    }
  }

  lemma {:induction false} RemoveFrom(
    m: Links, t: Trie, right: bool, c: Trie, c': Trie, x: nat, s: nat, lo: nat, b: nat, bin: nat)
    requires Rep(m, t, bin) && t.Node? && c == (if right then t.r else t.l)
    requires Sound(c, lo, b) && Chunk(x, s) in Chunks(c) && c' == Remove(c, x, s, lo, b)
    ensures BelowKept(m, UnlinkedBelow(m, c, x, s, lo, b), t, if right then t.(r := c') else t.(l := c'), bin)
    decreases t, 0
  {
    if x == Root(c) {
      RootHolds(m, c, x, s, lo, b, bin);
      RemoveChild(m, t, right, bin);
    } else {
      RemoveBelow(m, c, x, s, lo, b, bin);
      RemoveDeeper(m, UnlinkedBelow(m, c, x, s, lo, b), t, c, c', bin);
    }
  }

  lemma RemoveBeside(m: Links, t: Trie, x: nat, s: nat, lo: nat, b: nat, bin: nat)
    requires Rep(m, t, bin) && t.Node? && t.size == s && x in t.ring && x != Root(t)
    ensures BelowKept(m, UnlinkedBelow(m, t, x, s, lo, b), t, Remove(t, x, s, lo, b), bin)
  {
    ChainOut(m, t, x, bin);
  }

  /** A root's first chunk can only be of the root's size. */
  lemma RootHolds(m: Links, t: Trie, x: nat, s: nat, lo: nat, b: nat, bin: nat)
    requires Rep(m, t, bin) && Sound(t, lo, b) && Chunk(x, s) in Chunks(t) && x == Root(t)
    ensures t.Node? && t.size == s && StopAt(t, s, lo, b) == t
  {
    assert t.ring[0] in t.ring;
    if t.size != s {
      SideOf(t, Chunk(x, s), lo, b);
      if Chunk(x, s) in Chunks(t.l) {
        ChunkAddr(t.l, Chunk(x, s));
      } else {
        ChunkAddr(t.r, Chunk(x, s));
      }
    }
  }

  lemma RemoveChild(m: Links, t: Trie, right: bool, bin: nat)
    requires Rep(m, t, bin) && t.Node? && (if right then t.r.Node? else t.l.Node?)
    ensures var c := if right then t.r else t.l;
      BelowKept(m, Unlinked(m, c, false), t, if right then t.(r := NodeAfter(c)) else t.(l := NodeAfter(c)), bin)
  {
    var c := if right then t.r else t.l;
    ChildOut(m, t, right, bin);
    ChildOutParent(m, t, c, bin);
    NodeReady(m, c, bin);
    assert t.ring[0] in t.ring;
    forall a | a !in Addrs(t) && a != 0
      ensures SameAt(m, Unlinked(m, c, false), a)
    {
      ChildOutSame(m, t, c, bin, a);
    }
  }

  lemma RemoveDeeper(m: Links, m': Links, t: Trie, c: Trie, c': Trie, bin: nat)
    requires Rep(m, t, bin) && t.Node? && (c == t.l || c == t.r) && BelowKept(m, m', c, c', bin)
    ensures c == t.l ==> BelowKept(m, m', t, t.(l := c'), bin)
    ensures c == t.r ==> BelowKept(m, m', t, t.(r := c'), bin)
  {
    forall a | a in t.ring || (a in Addrs(t) && a !in Addrs(c))
      ensures SameAt(m, m', a)
    {
      AddrNonzero(m, t, bin, a);
    }
    Reroot(m, m', t, c, c', bin);
    assert t.ring[0] in t.ring && SameAt(m, m', t.ring[0]);
  }
}
