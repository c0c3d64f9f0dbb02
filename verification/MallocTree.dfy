/** Tree bins in memory: tries whose nodes are linked through the child, parent,
    fd and bk fields of free chunks. Address 0 is the null pointer. */
module MallocTree {
  import opened Collections
  import opened Bits
  import opened MallocTrie

  /** The link fields of free chunks; a field never written reads as 0 */
  datatype Links = Links(
    left: map<nat, nat>, right: map<nat, nat>, parent: map<nat, nat>,
    fd: map<nat, nat>, bk: map<nat, nat>, index: map<nat, nat>)

  function Get(f: map<nat, nat>, a: nat): nat {
    if a in f then f[a] else 0
  }

  function Root(t: Trie): nat {
    if t.Node? && t.ring != [] then t.ring[0] else 0
  }

  ghost function Addrs(t: Trie): set<nat> {
    if t.Nil? then {} else (set a | a in t.ring) + Addrs(t.l) + Addrs(t.r)
  }

  /** The one after position i, going round */
  function After(ring: seq<nat>, i: nat): nat
    requires i < |ring|
  {
    if i == |ring| - 1 then ring[0] else ring[i + 1]
  }

  ghost predicate RingAt(m: Links, ring: seq<nat>, i: nat)
    requires i < |ring|
  {
    && Get(m.fd, ring[i]) == After(ring, i) && Get(m.bk, After(ring, i)) == ring[i]
    && ring[i] != 0
  }

  /** fd and bk lead round the ring; only the first chunk has tree links. */
  ghost predicate RingLinks(m: Links, ring: seq<nat>, bin: nat) {
    && (forall i {:trigger RingAt(m, ring, i)} :: 0 <= i < |ring| ==> RingAt(m, ring, i))
    && (forall i :: 1 <= i < |ring| ==>
          Get(m.parent, ring[i]) == 0 && Get(m.left, ring[i]) == 0 && Get(m.right, ring[i]) == 0)
    && (forall i :: 0 <= i < |ring| ==> Get(m.index, ring[i]) == bin)
  }

  ghost predicate Separate(t: Trie)
    requires t.Node?
  {
    && NoDup(t.ring) && Addrs(t.l) !! Addrs(t.r)
    && (forall a :: a in t.ring ==> a !in Addrs(t.l) && a !in Addrs(t.r))
  }

  ghost predicate ChildOf(m: Links, c: Trie, a: nat) {
    c.Node? && c.ring != [] ==> Get(m.parent, c.ring[0]) == a
  }

  /** The links in memory are those of t. What a root's parent is does not
      matter, as long as it is not null. */
  ghost predicate Rep(m: Links, t: Trie, bin: nat) {
    t.Node? ==>
      && t.ring != [] && Separate(t) && RingLinks(m, t.ring, bin)
      && Get(m.left, t.ring[0]) == Root(t.l) && Get(m.right, t.ring[0]) == Root(t.r)
      && Get(m.parent, t.ring[0]) != 0
      && ChildOf(m, t.l, t.ring[0]) && ChildOf(m, t.r, t.ring[0])
      && Rep(m, t.l, bin) && Rep(m, t.r, bin)
  }

  ghost predicate SameAt(m: Links, m': Links, a: nat) {
    && Get(m'.left, a) == Get(m.left, a) && Get(m'.right, a) == Get(m.right, a)
    && Get(m'.parent, a) == Get(m.parent, a) && Get(m'.index, a) == Get(m.index, a)
    && Get(m'.fd, a) == Get(m.fd, a) && Get(m'.bk, a) == Get(m.bk, a)
  }

  lemma RingFrame(m: Links, m': Links, ring: seq<nat>, bin: nat)
    requires RingLinks(m, ring, bin) && forall a :: a in ring ==> SameAt(m, m', a)
    ensures RingLinks(m', ring, bin)
  {
    forall i: nat | i < |ring|
      ensures RingAt(m', ring, i)
    {
      assert RingAt(m, ring, i) && SameAt(m, m', ring[i]) && SameAt(m, m', After(ring, i));
    }
    forall i: nat | i < |ring|
      ensures Get(m'.index, ring[i]) == bin
      ensures i >= 1 ==> Get(m'.parent, ring[i]) == 0 && Get(m'.left, ring[i]) == 0 && Get(m'.right, ring[i]) == 0
    {
      assert SameAt(m, m', ring[i]);
    }
  }

  lemma {:induction false} RepFrame(m: Links, m': Links, t: Trie, bin: nat)
    requires Rep(m, t, bin) && forall a :: a in Addrs(t) ==> SameAt(m, m', a)
    ensures Rep(m', t, bin)
    decreases t
  {
    if t.Node? {
      RingFrame(m, m', t.ring, bin);
      RepFrame(m, m', t.l, bin);
      RepFrame(m, m', t.r, bin);
      RootIn(t.l, m, bin);
      RootIn(t.r, m, bin);
      assert SameAt(m, m', t.ring[0]);
      if t.l.Node? { assert SameAt(m, m', t.l.ring[0]); }
      if t.r.Node? { assert SameAt(m, m', t.r.ring[0]); }
    }
  }

  lemma RootIn(t: Trie, m: Links, bin: nat)
    requires Rep(m, t, bin)
    ensures t.Node? <==> Root(t) != 0
    ensures t.Node? ==> t.ring != [] && Root(t) == t.ring[0] && t.ring[0] in Addrs(t)
  {
    if t.Node? { assert RingAt(m, t.ring, 0); }
  }

  // ------------------------------------------------------------------ insertion

  /** Where the descent for a chunk of size s ends: at a node of that size, or
      at one with no child on the side the size belongs to */
  function StopAt(t: Trie, s: nat, lo: nat, b: nat): Trie
    decreases t
  {
    if t.Nil? || t.size == s || b == 0 then t
    else if s < lo + Pow2(b - 1) then if t.l.Nil? then t else StopAt(t.l, s, lo, b - 1)
    else if t.r.Nil? then t else StopAt(t.r, s, lo + Pow2(b - 1), b - 1)
  }

  /** Whether the side it belongs to there is the right */
  function StopsRight(t: Trie, s: nat, lo: nat, b: nat): bool
    decreases t
  {
    if t.Nil? || t.size == s || b == 0 then false
    else if s < lo + Pow2(b - 1) then if t.l.Nil? then false else StopsRight(t.l, s, lo, b - 1)
    else if t.r.Nil? then true else StopsRight(t.r, s, lo + Pow2(b - 1), b - 1)
  }

  /** x becomes a leaf below p */
  function Attached(m: Links, p: nat, x: nat, right: bool, bin: nat): Links {
    var left, r := m.left[x := 0], m.right[x := 0];
    Links(if right then left else left[p := x], if right then r[p := x] else r,
          m.parent[x := p], m.fd[x := x], m.bk[x := x], m.index[x := bin])
  }

  /** x joins the ring right after p */
  function Chained(m: Links, p: nat, x: nat, bin: nat): Links {
    var f := Get(m.fd, p);
    Links(m.left[x := 0], m.right[x := 0], m.parent[x := 0],
          m.fd[p := x][x := f], m.bk[f := x][x := p], m.index[x := bin])
  }

  /** Inserting x into the nonempty t turned m into m'. */
  ghost predicate Inserted(m: Links, m': Links, t: Trie, x: nat, s: nat, lo: nat, b: nat, bin: nat) {
    var p := StopAt(t, s, lo, b);
    && p.Node? && p.ring != []
    && m' == if p.size == s then Chained(m, p.ring[0], x, bin)
             else Attached(m, p.ring[0], x, StopsRight(t, s, lo, b), bin)
  }

  lemma {:induction false} InsertAddrs(t: Trie, x: nat, s: nat, lo: nat, b: nat)
    requires Sound(t, lo, b) && lo <= s < lo + Pow2(b)
    ensures Addrs(Insert(t, x, s, lo, b)) == Addrs(t) + {x}
    ensures t.Node? ==> Root(Insert(t, x, s, lo, b)) == Root(t)
    decreases t
  {
    if t.Node? {
      if t.size == s {
        assert t.ring == [t.ring[0]] + t.ring[1..];
      } else if s < lo + Pow2(b - 1) {
        assert Insert(t, x, s, lo, b) == t.(l := Insert(t.l, x, s, lo, b - 1));
        InsertAddrs(t.l, x, s, lo, b - 1);
      } else {
        assert Insert(t, x, s, lo, b) == t.(r := Insert(t.r, x, s, lo + Pow2(b - 1), b - 1));
        InsertAddrs(t.r, x, s, lo + Pow2(b - 1), b - 1);
      }
    }
  }

  lemma {:induction false} StopInside(m: Links, t: Trie, s: nat, lo: nat, b: nat, bin: nat)
    requires Rep(m, t, bin) && t.Node?
    ensures StopAt(t, s, lo, b).Node? && StopAt(t, s, lo, b).ring != []
    ensures forall a :: a in StopAt(t, s, lo, b).ring ==> a in Addrs(t)
    ensures RingLinks(m, StopAt(t, s, lo, b).ring, bin)
    decreases t
  {
    if t.size != s && b > 0 {
      if s < lo + Pow2(b - 1) {
        if t.l.Node? { StopInside(m, t.l, s, lo, b - 1, bin); }
      } else {
        if t.r.Node? { StopInside(m, t.r, s, lo + Pow2(b - 1), b - 1, bin); }
      }
    }
  }

  lemma ChainSame(m: Links, p: nat, x: nat, bin: nat, a: nat)
    requires a != x && a != p && a != Get(m.fd, p)
    ensures SameAt(m, Chained(m, p, x, bin), a)
  {
  }

  lemma AttachSame(m: Links, p: nat, x: nat, right: bool, bin: nat, a: nat)
    requires a != x && a != p
    ensures SameAt(m, Attached(m, p, x, right, bin), a)
  {
  }

  /** Only the new chunk and the ring of the stopping node are touched. */
  lemma InsertTouches(m: Links, m': Links, t: Trie, x: nat, s: nat, lo: nat, b: nat, bin: nat, a: nat)
    requires Inserted(m, m', t, x, s, lo, b, bin) && RingLinks(m, StopAt(t, s, lo, b).ring, bin)
    requires a != x && a !in StopAt(t, s, lo, b).ring
    ensures SameAt(m, m', a)
  {
    var p := StopAt(t, s, lo, b);
    assert RingAt(m, p.ring, 0);
    assert After(p.ring, 0) in p.ring && p.ring[0] in p.ring;
    if p.size == s {
      ChainSame(m, p.ring[0], x, bin, a);
    } else {
      AttachSame(m, p.ring[0], x, StopsRight(t, s, lo, b), bin, a);
    }
  }

  lemma NewLeaf(x: nat, s: nat, bin: nat, m: Links)
    requires x != 0 && Get(m.left, x) == 0 && Get(m.right, x) == 0 && Get(m.parent, x) != 0
    requires Get(m.fd, x) == x && Get(m.bk, x) == x && Get(m.index, x) == bin
    ensures Rep(m, Node(s, [x], Nil, Nil), bin)
  {
    assert RingAt(m, [x], 0);
  }

  lemma ChainRing(m: Links, ring: seq<nat>, x: nat, bin: nat)
    requires ring != [] && NoDup(ring) && RingLinks(m, ring, bin) && x !in ring && x != 0
    ensures RingLinks(Chained(m, ring[0], x, bin), [ring[0], x] + ring[1..], bin)
  {
    var m', r := Chained(m, ring[0], x, bin), [ring[0], x] + ring[1..];
    assert RingAt(m, ring, 0);
    forall i: nat | i < |r|
      ensures RingAt(m', r, i)
    {
      if i >= 2 {
        assert r[i] == ring[i - 1] && RingAt(m, ring, i - 1);
        assert After(r, i) == After(ring, i - 1);
      } else if i == 1 {
        assert After(r, 1) == After(ring, 0);
      }
    }
    forall i: nat | 1 <= i < |r|
      ensures Get(m'.parent, r[i]) == 0 && Get(m'.left, r[i]) == 0 && Get(m'.right, r[i]) == 0
      ensures Get(m'.index, r[i]) == bin
    {
      if i >= 2 { assert r[i] == ring[i - 1]; }
    }
  }

  lemma ChainRep(m: Links, t: Trie, x: nat, bin: nat)
    requires Rep(m, t, bin) && t.Node? && x !in Addrs(t) && x != 0
    ensures Rep(Chained(m, t.ring[0], x, bin), t.(ring := [t.ring[0], x] + t.ring[1..]), bin)
  {
    var m', r := Chained(m, t.ring[0], x, bin), [t.ring[0], x] + t.ring[1..];
    ChainRing(m, t.ring, x, bin);
    RingGrows(t.ring, x);
    assert RingAt(m, t.ring, 0);
    assert After(t.ring, 0) in t.ring;
    forall a | a in Addrs(t.l) || a in Addrs(t.r)
      ensures SameAt(m, m', a)
    {
      ChainSame(m, t.ring[0], x, bin, a);
    }
    RepFrame(m, m', t.l, bin);
    RepFrame(m, m', t.r, bin);
    RootIn(t.l, m, bin);
    RootIn(t.r, m, bin);
  }

  lemma AttachRep(m: Links, t: Trie, x: nat, s: nat, right: bool, bin: nat)
    requires Rep(m, t, bin) && t.Node? && x !in Addrs(t) && x != 0
    requires if right then t.r.Nil? else t.l.Nil?
    ensures var n := Node(s, [x], Nil, Nil);
      Rep(Attached(m, t.ring[0], x, right, bin), if right then t.(r := n) else t.(l := n), bin)
  {
    var m', n := Attached(m, t.ring[0], x, right, bin), Node(s, [x], Nil, Nil);
    var t' := if right then t.(r := n) else t.(l := n);
    assert RingAt(m, t.ring, 0);
    assert t.ring[0] in t.ring;
    NewLeaf(x, s, bin, m');
    assert Addrs(n) == {x};
    AttachRing(m, t.ring, x, right, bin);
    forall a | a in Addrs(t.l) || a in Addrs(t.r)
      ensures SameAt(m, m', a)
    {
      AttachSame(m, t.ring[0], x, right, bin, a);
    }
    RepFrame(m, m', t.l, bin);
    RepFrame(m, m', t.r, bin);
    RootIn(t.l, m, bin);
    RootIn(t.r, m, bin);
  }

  lemma AttachRing(m: Links, ring: seq<nat>, x: nat, right: bool, bin: nat)
    requires ring != [] && NoDup(ring) && RingLinks(m, ring, bin) && x !in ring
    ensures RingLinks(Attached(m, ring[0], x, right, bin), ring, bin)
  {
    var m' := Attached(m, ring[0], x, right, bin);
    forall i: nat | i < |ring|
      ensures RingAt(m', ring, i)
    {
      assert RingAt(m, ring, i);
    }
  }

  /** Inserting in place represents inserting into the trie. */
  lemma {:induction false} InsertRep(m: Links, m': Links, t: Trie, x: nat, s: nat, lo: nat, b: nat, bin: nat)
    requires Rep(m, t, bin) && Sound(t, lo, b) && t.Node? && x !in Addrs(t) && x != 0 && lo <= s < lo + Pow2(b)
    requires Inserted(m, m', t, x, s, lo, b, bin)
    ensures Rep(m', Insert(t, x, s, lo, b), bin)
    decreases t
  {
    if t.size == s {
      ChainRep(m, t, x, bin);
    } else if s < lo + Pow2(b - 1) {
      if t.l.Nil? {
        AttachRep(m, t, x, s, false, bin);
      } else {
        InsertRep(m, m', t.l, x, s, lo, b - 1, bin);
        InsertBelow(m, m', t, t.l, x, s, lo, b - 1, bin);
      }
    } else {
      if t.r.Nil? {
        AttachRep(m, t, x, s, true, bin);
      } else {
        InsertRep(m, m', t.r, x, s, lo + Pow2(b - 1), b - 1, bin);
        InsertBelow(m, m', t, t.r, x, s, lo + Pow2(b - 1), b - 1, bin);
      }
    }
  }

  lemma InsertOutside(m: Links, m': Links, t: Trie, x: nat, s: nat, lo: nat, b: nat, bin: nat)
    requires Rep(m, t, bin) && t.Node? && Inserted(m, m', t, x, s, lo, b, bin)
    ensures forall a :: a !in Addrs(t) && a != x ==> SameAt(m, m', a)
    ensures forall a :: a != x ==> Get(m'.parent, a) == Get(m.parent, a)
  {
    StopInside(m, t, s, lo, b, bin);
    forall a | a !in Addrs(t) && a != x
      ensures SameAt(m, m', a)
    {
      InsertTouches(m, m', t, x, s, lo, b, bin, a);
    }
  }

  /** Insertion into one child c leaves the node and its other child as they are. */
  lemma InsertBelow(m: Links, m': Links, t: Trie, c: Trie, x: nat, s: nat, lo: nat, b: nat, bin: nat)
    requires Rep(m, t, bin) && t.Node? && x !in Addrs(t) && (c == t.l || c == t.r) && c.Node?
    requires Sound(c, lo, b) && lo <= s < lo + Pow2(b)
    requires Inserted(m, m', c, x, s, lo, b, bin) && Rep(m', Insert(c, x, s, lo, b), bin)
    ensures c == t.l ==> Rep(m', t.(l := Insert(c, x, s, lo, b)), bin)
    ensures c == t.r ==> Rep(m', t.(r := Insert(c, x, s, lo, b)), bin)
  {
    InsertOutside(m, m', c, x, s, lo, b, bin);
    InsertAddrs(c, x, s, lo, b);
    RootIn(c, m, bin);
    var c' := Insert(c, x, s, lo, b);
    assert Root(c) != x;
    Reroot(m, m', t, c, c', bin);
  }

  /** Replacing a child by another with the same root address and parent, and
      leaving the rest alone, replaces it in the trie. */
  lemma Reroot(m: Links, m': Links, t: Trie, c: Trie, c': Trie, bin: nat)
    requires Rep(m, t, bin) && t.Node? && (c == t.l || c == t.r) && c.Node? && c'.Node?
    requires Rep(m', c', bin) && Root(c') == Root(c) && Get(m'.parent, Root(c)) == Get(m.parent, Root(c))
    requires forall a :: a in t.ring || (a in Addrs(t) && a !in Addrs(c)) ==> SameAt(m, m', a)
    requires forall a :: a in Addrs(c') ==> a in Addrs(c) || a !in Addrs(t)
    ensures c == t.l ==> Rep(m', t.(l := c'), bin)
    ensures c == t.r ==> Rep(m', t.(r := c'), bin)
  {
    RingFrame(m, m', t.ring, bin);
    RootIn(t.l, m, bin);
    RootIn(t.r, m, bin);
    assert SameAt(m, m', t.ring[0]);
    if c == t.l {
      RepFrame(m, m', t.r, bin);
    }
    if c == t.r {
      RepFrame(m, m', t.l, bin);
    }
  }
}
