/** One tree bin as a value: a trie over chunk sizes whose nodes carry a ring of
    equally large chunks. A node may hold any size of its range; what is below it
    to the left and right is split by the next bit. */
module MallocTrie {
  import opened Collections
  import opened Bits

  datatype Trie = Nil | Node(size: nat, ring: seq<nat>, l: Trie, r: Trie)

  datatype Chunk = Chunk(at: nat, size: nat)

  ghost function RingChunks(ring: seq<nat>, size: nat): set<Chunk> {
    set a | a in ring :: Chunk(a, size)
  }

  lemma RingHas(ring: seq<nat>, size: nat, a: nat)
    ensures Chunk(a, size) in RingChunks(ring, size) <==> a in ring
  {
  }

  /** Every chunk in the trie */
  ghost function Chunks(t: Trie): set<Chunk> {
    if t.Nil? then {} else RingChunks(t.ring, t.size) + Chunks(t.l) + Chunks(t.r)
  }

  ghost predicate Within(t: Trie, lo: nat, hi: nat) {
    forall c :: c in Chunks(t) ==> lo <= c.size < hi
  }

  ghost predicate Lacks(t: Trie, size: nat) {
    forall c :: c in Chunks(t) ==> c.size != size
  }

  /** t is a prefix trie for the 2^b sizes from lo on, with no size in two nodes
      and no chunk twice in a ring. */
  ghost predicate Sound(t: Trie, lo: nat, b: nat) {
    t.Node? ==>
      && t.ring != [] && NoDup(t.ring) && lo <= t.size < lo + Pow2(b)
      && Lacks(t.l, t.size) && Lacks(t.r, t.size)
      && if b == 0 then t.l.Nil? && t.r.Nil? else Sound(t.l, lo, b - 1) && Sound(t.r, lo + Pow2(b - 1), b - 1)
  }

  lemma {:induction false} SoundWithin(t: Trie, lo: nat, b: nat)
    requires Sound(t, lo, b)
    ensures Within(t, lo, lo + Pow2(b))
  {
    if t.Node? && b > 0 {
      SoundWithin(t.l, lo, b - 1);
      SoundWithin(t.r, lo + Pow2(b - 1), b - 1);
    }
  }

  // ------------------------------------------------------------------ insertion

  /** insert_large_chunk below a bin's head */
  function Insert(t: Trie, a: nat, s: nat, lo: nat, b: nat): Trie
    decreases t
  {
    if t.Nil? then Node(s, [a], Nil, Nil)
    else if t.size == s then t.(ring := if t.ring == [] then [a] else [t.ring[0], a] + t.ring[1..])
    else if b == 0 then t
    else if s < lo + Pow2(b - 1) then t.(l := Insert(t.l, a, s, lo, b - 1))
    else t.(r := Insert(t.r, a, s, lo + Pow2(b - 1), b - 1))
  }

  lemma RingGrows(ring: seq<nat>, a: nat)
    requires ring != [] && NoDup(ring) && a !in ring
    ensures var r := [ring[0], a] + ring[1..]; NoDup(r) && forall x :: x in r <==> x in ring || x == a
  {
    var r := [ring[0], a] + ring[1..];
    assert ring == [ring[0]] + ring[1..];
    forall i, j | 0 <= i < j < |r|
      ensures r[i] != r[j]
    {
      assert j >= 2 ==> r[j] == ring[j - 1];
      assert i >= 2 ==> r[i] == ring[i - 1];
    }
  }

  lemma {:induction false} InsertChunks(t: Trie, a: nat, s: nat, lo: nat, b: nat)
    requires Sound(t, lo, b) && Chunk(a, s) !in Chunks(t) && lo <= s < lo + Pow2(b)
    ensures Chunks(Insert(t, a, s, lo, b)) == Chunks(t) + {Chunk(a, s)}
    decreases t
  {
    if t.Node? {
      if t.size == s {
        RingHas(t.ring, s, a);
        RingGrows(t.ring, a);
        assert RingChunks([t.ring[0], a] + t.ring[1..], s) == RingChunks(t.ring, s) + {Chunk(a, s)};
      } else if s < lo + Pow2(b - 1) {
        InsertChunks(t.l, a, s, lo, b - 1);
      } else {
        InsertChunks(t.r, a, s, lo + Pow2(b - 1), b - 1);
      }
    } else {
      assert Chunks(Node(s, [a], Nil, Nil)) == {Chunk(a, s)};
    }
  }

  lemma InsertHere(t: Trie, a: nat, lo: nat, b: nat)
    requires Sound(t, lo, b) && t.Node? && Chunk(a, t.size) !in Chunks(t)
    ensures Sound(t.(ring := [t.ring[0], a] + t.ring[1..]), lo, b)
  {
    RingHas(t.ring, t.size, a);
    RingGrows(t.ring, a);
  }

  lemma {:induction false} InsertSound(t: Trie, a: nat, s: nat, lo: nat, b: nat)
    requires Sound(t, lo, b) && Chunk(a, s) !in Chunks(t) && lo <= s < lo + Pow2(b)
    ensures Sound(Insert(t, a, s, lo, b), lo, b)
    decreases t, 1
  {
    if t.Node? {
      if t.size == s {
        InsertHere(t, a, lo, b);
      } else if s < lo + Pow2(b - 1) {
        InsertSide(t, false, t.l, Insert(t.l, a, s, lo, b - 1), a, s, lo, lo, b);
      } else {
        var mid := lo + Pow2(b - 1);
        InsertSide(t, true, t.r, Insert(t.r, a, s, mid, b - 1), a, s, lo, mid, b);
      }
    }
  }

  lemma {:induction false} InsertSide(
    t: Trie, right: bool, c: Trie, c': Trie, a: nat, s: nat, lo: nat, at: nat, b: nat)
    requires Sound(t, lo, b) && t.Node? && b > 0 && Chunk(a, s) !in Chunks(t) && s != t.size
    requires c == (if right then t.r else t.l) && at == (if right then lo + Pow2(b - 1) else lo)
    requires at <= s < at + Pow2(b - 1) && c' == Insert(c, a, s, at, b - 1)
    ensures Sound(if right then t.(r := c') else t.(l := c'), lo, b)
    decreases t, 0
  {
    InsertChunks(c, a, s, at, b - 1);
    InsertSound(c, a, s, at, b - 1);
    SideSound(t, right, c', lo, b);
  }

  /** A child may be replaced by a sound one that has no chunk of this size. */
  lemma SideSound(t: Trie, right: bool, c: Trie, lo: nat, b: nat)
    requires Sound(t, lo, b) && t.Node? && b > 0 && Sound(c, if right then lo + Pow2(b - 1) else lo, b - 1)
    requires Lacks(c, t.size)
    ensures Sound(if right then t.(r := c) else t.(l := c), lo, b)
  {
  }

  // -------------------------------------------------------------------- removal

  /** The leaf reached by going right where possible, else left, and the rest */
  function TakeLeaf(t: Trie): (Trie, Trie)
    requires t.Node?
    decreases t
  {
    if t.r.Node? then
      var p := TakeLeaf(t.r);
      (p.0, t.(r := p.1))
    else if t.l.Node? then
      var p := TakeLeaf(t.l);
      (p.0, t.(l := p.1))
    else (t, Nil)
  }

  /** A node whose last chunk goes: a leaf from below takes its place */
  function DropNode(t: Trie): Trie
    requires t.Node?
  {
    if t.r.Node? then
      var p := TakeLeaf(t.r);
      if p.0.Node? then Node(p.0.size, p.0.ring, t.l, p.1) else Nil
    else if t.l.Node? then
      var p := TakeLeaf(t.l);
      if p.0.Node? then Node(p.0.size, p.0.ring, p.1, t.r) else Nil
    else Nil
  }

  /** The ring without a; if a was in front, the one behind it comes to the front */
  function RingWithout(ring: seq<nat>, a: nat): seq<nat>
    requires |ring| > 1
  {
    if a == ring[0] then [ring[|ring| - 1]] + ring[1..|ring| - 1] else Without(ring, a)
  }

  function Without(ring: seq<nat>, a: nat): seq<nat>
    decreases |ring|
  {
    if ring == [] then [] else if ring[0] == a then ring[1..] else [ring[0]] + Without(ring[1..], a)
  }

  /** unlink_large_chunk of chunk a, of size s */
  function Remove(t: Trie, a: nat, s: nat, lo: nat, b: nat): Trie
    decreases t
  {
    if t.Nil? then Nil
    else if t.size == s then if |t.ring| > 1 then t.(ring := RingWithout(t.ring, a)) else DropNode(t)
    else if b == 0 then t
    else if s < lo + Pow2(b - 1) then t.(l := Remove(t.l, a, s, lo, b - 1))
    else t.(r := Remove(t.r, a, s, lo + Pow2(b - 1), b - 1))
  }

  lemma {:induction false} WithoutIs(ring: seq<nat>, a: nat)
    requires NoDup(ring)
    ensures NoDup(Without(ring, a)) && forall x :: x in Without(ring, a) <==> x in ring && x != a
    ensures a in ring ==> |Without(ring, a)| == |ring| - 1
    decreases |ring|
  {
    if ring != [] {
      var rest := ring[1..];
      assert ring == [ring[0]] + rest;
      assert forall j :: 1 <= j < |ring| ==> ring[0] != ring[j];
      assert ring[0] !in rest;
      WithoutIs(rest, a);
    }
  }

  lemma RingWithoutIs(ring: seq<nat>, a: nat)
    requires NoDup(ring) && |ring| > 1 && a in ring
    ensures RingWithout(ring, a) != [] && NoDup(RingWithout(ring, a))
    ensures forall x :: x in RingWithout(ring, a) <==> x in ring && x != a
  {
    if a == ring[0] {
      var n := |ring|;
      var r := [ring[n - 1]] + ring[1..n - 1];
      assert forall i :: 1 <= i < |r| ==> r[i] == ring[i];
      assert ring == [a] + ring[1..n - 1] + [ring[n - 1]];
    } else {
      WithoutIs(ring, a);
      assert ring[0] in Without(ring, a);
    }
  }

  /** The leaf taken is one node of the trie; the rest is all but that node. */
  lemma {:induction false} TakeLeafIs(t: Trie, lo: nat, b: nat)
    requires Sound(t, lo, b) && t.Node?
    ensures var (leaf, rest) := TakeLeaf(t);
      && leaf.Node? && leaf.l.Nil? && leaf.r.Nil? && leaf.ring != [] && NoDup(leaf.ring)
      && lo <= leaf.size < lo + Pow2(b) && Sound(rest, lo, b) && Lacks(rest, leaf.size)
      && Chunks(t) == RingChunks(leaf.ring, leaf.size) + Chunks(rest)
    decreases t
  {
    if t.r.Node? {
      TakeLeafIs(t.r, lo + Pow2(b - 1), b - 1);
      SoundWithin(t.l, lo, b - 1);
      LeafThere(t.r, lo + Pow2(b - 1), b - 1);
    } else if t.l.Node? {
      TakeLeafIs(t.l, lo, b - 1);
      LeafThere(t.l, lo, b - 1);
    }
  }

  lemma LeafThere(t: Trie, lo: nat, b: nat)
    requires t.Node?
    requires var (leaf, rest) := TakeLeaf(t);
      leaf.Node? && leaf.ring != [] && Chunks(t) == RingChunks(leaf.ring, leaf.size) + Chunks(rest)
    ensures exists c :: c in Chunks(t) && c.size == TakeLeaf(t).0.size
  {
    var leaf := TakeLeaf(t).0;
    assert Chunk(leaf.ring[0], leaf.size) in RingChunks(leaf.ring, leaf.size);
  }

  lemma DropNodeIs(t: Trie, lo: nat, b: nat)
    requires Sound(t, lo, b) && t.Node?
    ensures Sound(DropNode(t), lo, b) && Chunks(DropNode(t)) == Chunks(t.l) + Chunks(t.r)
  {
    if t.r.Node? {
      TakeLeafIs(t.r, lo + Pow2(b - 1), b - 1);
      SoundWithin(t.l, lo, b - 1);
    } else if t.l.Node? {
      TakeLeafIs(t.l, lo, b - 1);
    }
  }

  /** What is split off to one side of a node is not at the node or on the other
      side. */
  lemma SideOf(t: Trie, c: Chunk, lo: nat, b: nat)
    requires Sound(t, lo, b) && t.Node? && c in Chunks(t) && c.size != t.size
    ensures b > 0
    ensures if c.size < lo + Pow2(b - 1) then c in Chunks(t.l) && c !in Chunks(t.r)
            else c in Chunks(t.r) && c !in Chunks(t.l)
  {
    RingHas(t.ring, t.size, c.at);
    if b > 0 {
      SoundWithin(t.l, lo, b - 1);
      SoundWithin(t.r, lo + Pow2(b - 1), b - 1);
    }
  }

  lemma HereOnly(t: Trie, a: nat, lo: nat, b: nat)
    requires Sound(t, lo, b) && t.Node? && Chunk(a, t.size) in Chunks(t)
    ensures a in t.ring && Chunk(a, t.size) !in Chunks(t.l) + Chunks(t.r)
  {
    RingHas(t.ring, t.size, a);
  }

  lemma RemoveHere(t: Trie, a: nat, lo: nat, b: nat)
    requires Sound(t, lo, b) && t.Node? && Chunk(a, t.size) in Chunks(t)
    ensures Chunks(Remove(t, a, t.size, lo, b)) == Chunks(t) - {Chunk(a, t.size)}
  {
    HereOnly(t, a, lo, b);
    if |t.ring| > 1 {
      RingWithoutIs(t.ring, a);
      assert RingChunks(RingWithout(t.ring, a), t.size) == RingChunks(t.ring, t.size) - {Chunk(a, t.size)};
    } else {
      DropNodeIs(t, lo, b);
      assert t.ring == [a];
      assert RingChunks([a], t.size) == {Chunk(a, t.size)};
    }
  }

  lemma {:induction false} RemoveChunks(t: Trie, a: nat, s: nat, lo: nat, b: nat)
    requires Sound(t, lo, b) && Chunk(a, s) in Chunks(t)
    ensures Chunks(Remove(t, a, s, lo, b)) == Chunks(t) - {Chunk(a, s)}
    decreases t
  {
    if t.size == s {
      RemoveHere(t, a, lo, b);
    } else {
      SideOf(t, Chunk(a, s), lo, b);
      RingHas(t.ring, t.size, a);
      if s < lo + Pow2(b - 1) {
        RemoveChunks(t.l, a, s, lo, b - 1);
      } else {
        RemoveChunks(t.r, a, s, lo + Pow2(b - 1), b - 1);
      }
    }
  }

  lemma RemoveHereSound(t: Trie, a: nat, lo: nat, b: nat)
    requires Sound(t, lo, b) && t.Node? && Chunk(a, t.size) in Chunks(t)
    ensures Sound(Remove(t, a, t.size, lo, b), lo, b)
  {
    HereOnly(t, a, lo, b);
    if |t.ring| > 1 {
      RingWithoutIs(t.ring, a);
    } else {
      DropNodeIs(t, lo, b);
    }
  }

  lemma {:induction false} RemoveSound(t: Trie, a: nat, s: nat, lo: nat, b: nat)
    requires Sound(t, lo, b) && Chunk(a, s) in Chunks(t)
    ensures Sound(Remove(t, a, s, lo, b), lo, b)
    decreases t, 1
  {
    if t.size == s {
      RemoveHereSound(t, a, lo, b);
    } else {
      SideOf(t, Chunk(a, s), lo, b);
      if s < lo + Pow2(b - 1) {
        RemoveSide(t, false, t.l, Remove(t.l, a, s, lo, b - 1), a, s, lo, lo, b);
      } else {
        var mid := lo + Pow2(b - 1);
        RemoveSide(t, true, t.r, Remove(t.r, a, s, mid, b - 1), a, s, lo, mid, b);
      }
    }
  }

  lemma {:induction false} RemoveSide(
    t: Trie, right: bool, c: Trie, c': Trie, a: nat, s: nat, lo: nat, at: nat, b: nat)
    requires Sound(t, lo, b) && t.Node? && b > 0 && Chunk(a, s) in Chunks(c)
    requires c == (if right then t.r else t.l) && at == (if right then lo + Pow2(b - 1) else lo)
    requires c' == Remove(c, a, s, at, b - 1)
    ensures Sound(if right then t.(r := c') else t.(l := c'), lo, b)
    decreases t, 0
  {
    RemoveChunks(c, a, s, at, b - 1);
    RemoveSound(c, a, s, at, b - 1);
    SideSound(t, right, c', lo, b);
  }
}
