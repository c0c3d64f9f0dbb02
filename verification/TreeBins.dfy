/** The 32 tree bins for free chunks of 256 bytes and more. */
module TreeBins {
  import opened Collections
  import opened Bits
  import opened BinMaps
  import opened MallocIndex
  import opened MallocTrie
  import opened MallocTree
  import opened MallocUnlink
  import opened BestFit

  /** A chunk's head word: its size and the two in-use bits */
  datatype Head = Head(size: nat, pinuse: bool, cinuse: bool)

  ghost predicate SizesOk(h: map<nat, Head>, t: Trie) {
    forall c :: c in Chunks(t) ==> c.at in h && h[c.at].size == c.size
  }

  ghost predicate BinOk(h: map<nat, Head>, m: Links, root: nat, treemap: nat, t: Trie, i: nat)
  {
    && Sound(t, BinLo(i), BinBits(i)) && Rep(m, t, i) && root == Root(t)
    && (Bit(treemap, i) <==> t.Node?)
    && SizesOk(h, t) && (forall c :: c in Chunks(t) ==> InBin(c.size, i) && c.size < TWO40)
  }

  /** The heads, links, roots and map describe these tries, one a bin. */
  ghost predicate BinsOk(h: map<nat, Head>, m: Links, roots: seq<nat>, treemap: nat, tries: seq<Trie>) {
    && |roots| == |tries| == BINS && treemap < Pow2(BINS)
    && (forall i {:trigger BinOk(h, m, roots[i], treemap, tries[i], i)} ::
          0 <= i < BINS ==> BinOk(h, m, roots[i], treemap, tries[i], i))
    && (forall i, j :: 0 <= i < j < BINS ==> Addrs(tries[i]) !! Addrs(tries[j]))
  }

  /** Every chunk in a tree bin */
  ghost function Binned(tries: seq<Trie>): set<Chunk> {
    set i, c | 0 <= i < |tries| && c in Chunks(tries[i]) :: c
  }

  lemma BinnedUpdate(tries: seq<Trie>, i: nat, t: Trie, c: Chunk)
    requires i < |tries|
    ensures Chunks(t) == Chunks(tries[i]) + {c} ==> Binned(tries[i := t]) == Binned(tries) + {c}
    ensures Chunks(t) == Chunks(tries[i]) - {c} && c in Chunks(tries[i])
            && (forall j :: 0 <= j < |tries| && j != i ==> c !in Chunks(tries[j]))
            ==> Binned(tries[i := t]) == Binned(tries) - {c}
  {
    var tries' := tries[i := t];
    if Chunks(t) == Chunks(tries[i]) + {c} {
      forall x
        ensures x in Binned(tries') <==> x in Binned(tries) || x == c
      {
        if x in Binned(tries) {
          var j :| 0 <= j < |tries| && x in Chunks(tries[j]);
          assert x in Chunks(tries'[j]);
        }
        assert c in Chunks(tries'[i]);
      }
    }
    if Chunks(t) == Chunks(tries[i]) - {c} && c in Chunks(tries[i])
       && (forall j :: 0 <= j < |tries| && j != i ==> c !in Chunks(tries[j])) {
      forall x
        ensures x in Binned(tries') <==> x in Binned(tries) && x != c
      {
        if x in Binned(tries) && x != c {
          var j :| 0 <= j < |tries| && x in Chunks(tries[j]);
          assert x in Chunks(tries'[j]);
        }
        if x in Binned(tries') {
          var j :| 0 <= j < |tries'| && x in Chunks(tries'[j]);
          assert x in Chunks(tries[j]);
        }
      }
    }
  }

  /** A bin nobody touched stays as it is. */
  lemma OtherBin(h: map<nat, Head>, m: Links, m': Links, root: nat, treemap: nat, treemap': nat, t: Trie, i: nat)
    requires BinOk(h, m, root, treemap, t, i) && (Bit(treemap', i) <==> Bit(treemap, i))
    requires forall a :: a in Addrs(t) ==> SameAt(m, m', a)
    ensures BinOk(h, m', root, treemap', t, i)
  {
    RepFrame(m, m', t, i);
  }

  ghost predicate SoundSome(t: Trie) {
    exists lo: nat, b: nat :: Sound(t, lo, b)
  }

  lemma SoundChildren(t: Trie)
    requires SoundSome(t) && t.Node?
    ensures SoundSome(t.l) && SoundSome(t.r)
  {
    var lo: nat, b: nat :| Sound(t, lo, b);
    if b > 0 {
      assert Sound(t.l, lo, b - 1) && Sound(t.r, lo + Pow2(b - 1), b - 1);
    } else {
      assert Sound(t.l, 0, 0) && Sound(t.r, 0, 0);
    }
  }

  /** t is the root in memory of cur, a part of the trie whose chunks are all. */
  ghost predicate Sees(h: map<nat, Head>, m: Links, i: nat, all: set<Chunk>, t: nat, cur: Trie) {
    && Rep(m, cur, i) && SizesOk(h, cur) && t == Root(cur) && Chunks(cur) <= all && SoundSome(cur)
    && forall c :: c in Chunks(cur) ==> c.size < TWO40
  }

  lemma SeesRoot(h: map<nat, Head>, m: Links, i: nat, all: set<Chunk>, t: nat, cur: Trie)
    requires Sees(h, m, i, all, t, cur)
    ensures t == 0 <==> cur.Nil?
    ensures cur.Node? ==>
      cur.ring != [] && t == cur.ring[0] != 0 && t in h && h[t].size == cur.size < TWO40 && Chunk(t, cur.size) in all
  {
    RootIn(cur, m, i);
    if cur.Node? {
      RootHead(h, cur);
      RingHas(cur.ring, cur.size, cur.ring[0]);
      assert Chunk(t, cur.size) in Chunks(cur);
    }
  }

  lemma SeesChildren(h: map<nat, Head>, m: Links, i: nat, all: set<Chunk>, t: nat, cur: Trie)
    requires Sees(h, m, i, all, t, cur) && cur.Node?
    ensures Sees(h, m, i, all, Get(m.left, t), cur.l) && Sees(h, m, i, all, Get(m.right, t), cur.r)
    ensures cur.l.Node? && cur.r.Node? ==> Root(cur.l) != Root(cur.r)
  {
    SoundChildren(cur);
    RootIn(cur.l, m, i);
    RootIn(cur.r, m, i);
  }

  /** Phase one of the search, at t with the deepest right subtree passed at rst */
  ghost predicate Seeking(
    h: map<nat, Head>, m: Links, i: nat, nb: nat, all: set<Chunk>, t: nat, key: nat, v: nat, rsize: nat, rst: nat,
    cur: Trie, rstT: Trie, lo: nat, b: nat)
  {
    && Sees(h, m, i, all, t, cur) && cur.Node? && Sees(h, m, i, all, rst, rstT)
    && SeekBest(nb, all, key, v, rsize, cur, rstT, lo, b)
  }

  /** The part of it that is about sizes, not about links */
  ghost predicate SeekBest(
    nb: nat, all: set<Chunk>, key: nat, v: nat, rsize: nat, cur: Trie, rstT: Trie, lo: nat, b: nat)
  {
    && Candidate(all, nb, v, rsize) && rsize != 0 && Sound(cur, lo, b)
    && if nb < TWO40 then
         && KeyAt(key, nb, lo, b) && AtLeast(rstT, lo + Pow2(b))
         && AllSettled(all, nb, v, rsize, Chunks(cur) + Chunks(rstT))
       else forall c :: c in all ==> c.size < nb
  }

  /** What is left to look at is the trie at t. */
  ghost predicate Ready(
    h: map<nat, Head>, m: Links, i: nat, nb: nat, all: set<Chunk>, t: nat, v: nat, rsize: nat, rest: Trie)
  {
    Sees(h, m, i, all, t, rest) && ReadyBest(nb, all, v, rsize, rest)
  }

  ghost predicate ReadyBest(nb: nat, all: set<Chunk>, v: nat, rsize: nat, rest: Trie) {
    && Candidate(all, nb, v, rsize)
    && AllSettled(all, nb, v, rsize, Chunks(rest)) && Hunting(all, nb, v, rsize, Chunks(rest))
  }

  /** Where the sizes of a child start, and how many bits tell them apart */
  ghost function ChildLo(lo: nat, b: nat, right: bool): nat {
    if right && b > 0 then lo + Pow2(b - 1) else lo
  }

  ghost function ChildBits(b: nat): nat {
    if b > 0 then b - 1 else 0
  }

  lemma SeekStep(
    h: map<nat, Head>, m: Links, i: nat, nb: nat, all: set<Chunk>, t: nat, key: nat, v: nat, rsize: nat, rst: nat,
    cur: Trie, rstT: Trie, lo: nat, b: nat, right: bool, c: nat, v': nat, rsize': nat, rst': nat, cur': Trie,
    rstT': Trie,
    key': nat, lo': nat, b': nat)
    requires Seeking(h, m, i, nb, all, t, key, v, rsize, rst, cur, rstT, lo, b)
    requires cur.size < WORD && v' == VisitV(cur, nb, v, rsize) && rsize' == VisitR(cur, nb, rsize) != 0
    requires right == (key >= WORD / 2) && c == if right then Get(m.right, t) else Get(m.left, t)
    requires rst' == if Get(m.right, t) != 0 && Get(m.right, t) != c then Get(m.right, t) else rst
    requires cur' == NextCur(cur, right) && rstT' == NextRst(cur, rstT, right)
    requires key' == 2 * key % WORD && lo' == ChildLo(lo, b, right) && b' == ChildBits(b)
    ensures c == 0 ==> Ready(h, m, i, nb, all, rst', v', rsize', rstT')
    ensures c != 0 ==> Seeking(h, m, i, nb, all, c, key', v', rsize', rst', cur', rstT', lo', b')
  {
    SeesRoot(h, m, i, all, t, cur);
    SeekTree(h, m, i, all, t, rst, cur, rstT, right, c, rst', cur', rstT');
    SeekStepBest(nb, all, key, v, rsize, cur, rstT, lo, b, right, v', rsize', cur', rstT', key', lo', b');
  }

  /** The links part of a step */
  lemma SeekTree(
    h: map<nat, Head>, m: Links, i: nat, all: set<Chunk>, t: nat, rst: nat, cur: Trie, rstT: Trie,
    right: bool, c: nat, rst': nat, cur': Trie, rstT': Trie)
    requires Sees(h, m, i, all, t, cur) && cur.Node? && Sees(h, m, i, all, rst, rstT)
    requires c == if right then Get(m.right, t) else Get(m.left, t)
    requires rst' == if Get(m.right, t) != 0 && Get(m.right, t) != c then Get(m.right, t) else rst
    requires cur' == NextCur(cur, right) && rstT' == NextRst(cur, rstT, right)
    ensures (c == 0 <==> cur'.Nil?) && Sees(h, m, i, all, c, cur') && Sees(h, m, i, all, rst', rstT')
  {
    SeesChildren(h, m, i, all, t, cur);
    SeesRoot(h, m, i, all, Get(m.left, t), cur.l);
    SeesRoot(h, m, i, all, Get(m.right, t), cur.r);
  }

  /** The sizes part of a step */
  lemma SeekStepBest(
    nb: nat, all: set<Chunk>, key: nat, v: nat, rsize: nat, cur: Trie, rstT: Trie, lo: nat, b: nat,
    right: bool, v': nat, rsize': nat, cur': Trie, rstT': Trie, key': nat, lo': nat, b': nat)
    requires SeekBest(nb, all, key, v, rsize, cur, rstT, lo, b) && cur.Node? && cur.size < WORD
    requires cur.ring[0] != 0 && Chunk(cur.ring[0], cur.size) in all
    requires v' == VisitV(cur, nb, v, rsize) && rsize' == VisitR(cur, nb, rsize) != 0
    requires right == (key >= WORD / 2) && cur' == NextCur(cur, right) && rstT' == NextRst(cur, rstT, right)
    requires key' == 2 * key % WORD && lo' == ChildLo(lo, b, right) && b' == ChildBits(b)
    ensures cur'.Nil? ==> ReadyBest(nb, all, v', rsize', rstT')
    ensures cur'.Node? ==> SeekBest(nb, all, key', v', rsize', cur', rstT', lo', b')
  {
    Visit(all, cur, nb, v, rsize);
    if nb < TWO40 {
      SeekSettles(all, nb, key, v, rsize, cur, rstT, lo, b, right, v', rsize', cur', rstT');
    } else {
      TriviallySettled(all, nb, v', rsize', Chunks(rstT'));
    }
  }

  lemma ExactFit(all: set<Chunk>, nb: nat, v: nat, rsize: nat, cur: Trie, lo: nat, b: nat)
    requires cur.Node? && Sound(cur, lo, b) && cur.size < WORD && Candidate(all, nb, v, rsize)
    requires lo <= nb < lo + Pow2(b)
    requires VisitR(cur, nb, rsize) != 0
    ensures b > 0
  {
    assert Pow2(0) == 1;
  }

  lemma SeekSettles(
    all: set<Chunk>, nb: nat, key: nat, v: nat, rsize: nat, cur: Trie, rstT: Trie, lo: nat, b: nat,
    right: bool, v': nat, rsize': nat, cur': Trie, rstT': Trie)
    requires cur.Node? && Sound(cur, lo, b) && cur.ring[0] != 0 && cur.size < WORD
    requires Chunk(cur.ring[0], cur.size) in all
    requires Candidate(all, nb, v, rsize) && KeyAt(key, nb, lo, b) && AtLeast(rstT, lo + Pow2(b))
    requires AllSettled(all, nb, v, rsize, Chunks(cur) + Chunks(rstT))
    requires v' == VisitV(cur, nb, v, rsize) && rsize' == VisitR(cur, nb, rsize) != 0
    requires right == (key >= WORD / 2) && cur' == NextCur(cur, right) && rstT' == NextRst(cur, rstT, right)
    ensures b > 0
    ensures var lo' := if right then lo + Pow2(b - 1) else lo;
      KeyAt(2 * key % WORD, nb, lo', b - 1) && AtLeast(rstT', lo' + Pow2(b - 1))
    ensures AllSettled(all, nb, v', rsize', Chunks(cur') + Chunks(rstT'))
    ensures cur'.Nil? ==> AllSettled(all, nb, v', rsize', Chunks(rstT'))
    ensures forall d :: d in Chunks(rstT') ==> nb <= d.size
  {
    ExactFit(all, nb, v, rsize, cur, lo, b);
    KeyStep(key, nb, lo, b);
    ExactBounds(cur, rstT, lo, b, nb);
    SeekLeft(all, nb, v, rsize, cur, rstT, lo, b, right);
  }

  lemma SeekLeft(
    all: set<Chunk>, nb: nat, v: nat, rsize: nat, cur: Trie, rstT: Trie, lo: nat, b: nat, right: bool)
    requires cur.Node? && Sound(cur, lo, b) && cur.ring[0] != 0 && cur.size < WORD
    requires Chunk(cur.ring[0], cur.size) in all
    requires b > 0 && lo <= nb < lo + Pow2(b) && AtLeast(rstT, lo + Pow2(b)) && right == (nb >= lo + Pow2(b - 1))
    requires Candidate(all, nb, v, rsize) && AllSettled(all, nb, v, rsize, Chunks(cur) + Chunks(rstT))
    ensures var v', rsize', cur', rstT' :=
        VisitV(cur, nb, v, rsize), VisitR(cur, nb, rsize), NextCur(cur, right), NextRst(cur, rstT, right);
      && AllSettled(all, nb, v', rsize', Chunks(cur') + Chunks(rstT'))
      && (cur'.Nil? ==> AllSettled(all, nb, v', rsize', Chunks(rstT')))
  {
    var left' := Chunks(NextCur(cur, right)) + Chunks(NextRst(cur, rstT, right));
    ExactSettles(all, cur, rstT, lo, b, nb, v, rsize, left');
    if NextCur(cur, right).Nil? { assert left' == Chunks(NextRst(cur, rstT, right)); }
  }

  /** A descent for size s in bin i has come to t, the root of cur. */
  ghost predicate Descending(
    h: map<nat, Head>, m: Links, i: nat, s: nat, t: nat, key: nat, cur: Trie, lo: nat, b: nat)
  {
    && cur.Node? && Rep(m, cur, i) && Sound(cur, lo, b) && SizesOk(h, cur)
    && t == Root(cur) && t in h && h[t].size == cur.size && KeyAt(key, s, lo, b)
  }

  lemma RootHead(h: map<nat, Head>, t: Trie)
    requires t.Node? && t.ring != [] && SizesOk(h, t)
    ensures Root(t) in h && h[Root(t)].size == t.size
  {
    RingHas(t.ring, t.size, t.ring[0]);
    assert Chunk(t.ring[0], t.size) in Chunks(t);
  }

  lemma DescendStart(h: map<nat, Head>, m: Links, root: nat, treemap: nat, t: Trie, i: nat, s: nat)
    requires BinOk(h, m, root, treemap, t, i) && t.Node? && i < BINS && s < WORD && InBin(s, i)
    ensures LeftShift(i) >= 0
    ensures Descending(h, m, i, s, root, s * Pow2(LeftShift(i)) % WORD, t, BinLo(i), BinBits(i))
  {
    KeyStart(s, i);
    RootHead(h, t);
  }

  /** The key's top bit picks the child on the size's side; if there is one the
      descent goes on there, otherwise it stops here. */
  lemma DescendStep(
    h: map<nat, Head>, m: Links, i: nat, s: nat, t: nat, key: nat, cur: Trie, lo: nat, b: nat,
    right: bool, c: nat, key': nat, next: Trie, lo': nat, b': int)
    requires Descending(h, m, i, s, t, key, cur, lo, b) && cur.size != s && right == (key >= WORD / 2)
    requires c == (if right then Get(m.right, t) else Get(m.left, t)) && next == (if right then cur.r else cur.l)
    requires b' == b - 1 && key' == 2 * key % WORD && (b > 0 ==> lo' == if right then lo + Pow2(b - 1) else lo)
    ensures b' >= 0 && (c == 0 <==> next.Nil?)
    ensures next.Nil? ==> StopAt(cur, s, lo, b) == cur && StopsRight(cur, s, lo, b) == right
    ensures next.Node? ==>
      && Descending(h, m, i, s, c, key', next, lo', b')
      && StopAt(cur, s, lo, b) == StopAt(next, s, lo', b') && StopsRight(cur, s, lo, b) == StopsRight(next, s, lo', b')
  {
    assert Pow2(0) == 1;
    if b > 0 {
      KeyStep(key, s, lo, b);
      RootIn(cur.l, m, i);
      RootIn(cur.r, m, i);
      assert SizesOk(h, cur.l) && SizesOk(h, cur.r);
      if next.Node? { RootHead(h, next); }
    }
  }

  lemma {:induction false} AddrChunk(t: Trie, a: nat) returns (c: Chunk)
    requires a in Addrs(t)
    ensures c in Chunks(t) && c.at == a
    decreases t
  {
    if a in t.ring {
      RingHas(t.ring, t.size, a);
      c := Chunk(a, t.size);
    } else if a in Addrs(t.l) {
      c := AddrChunk(t.l, a);
    } else {
      c := AddrChunk(t.r, a);
    }
  }

  /** No binned chunk is at x. */
  ghost predicate Unbinned(tries: seq<Trie>, x: nat) {
    forall c :: c in Binned(tries) ==> c.at != x
  }

  lemma UnbinnedAddr(tries: seq<Trie>, x: nat, i: nat)
    requires Unbinned(tries, x) && i < |tries|
    ensures x !in Addrs(tries[i])
  {
    if x in Addrs(tries[i]) {
      var c := AddrBinned(tries, x, i);
    }
  }

  lemma AddrBinned(tries: seq<Trie>, a: nat, i: nat) returns (c: Chunk)
    requires i < |tries| && a in Addrs(tries[i])
    ensures c in Binned(tries) && c.at == a
  {
    c := AddrChunk(tries[i], a);
  }

  ghost predicate Inserts(
    h: map<nat, Head>, m: Links, roots: seq<nat>, treemap: nat, tries: seq<Trie>, i: nat, x: nat, s: nat)
  {
    && BinsOk(h, m, roots, treemap, tries) && Unbinned(tries, x)
    && i < BINS && InBin(s, i) && s < TWO40 && x != 0 && x in h && h[x].size == s
  }

  /** The chunk is new to its bin and fits its range. */
  lemma InsertsOne(h: map<nat, Head>, m: Links, roots: seq<nat>, treemap: nat, tries: seq<Trie>, i: nat, x: nat, s: nat)
    requires Inserts(h, m, roots, treemap, tries, i, x, s)
    ensures x !in Addrs(tries[i]) && Chunk(x, s) !in Chunks(tries[i])
    ensures BinLo(i) <= s < BinLo(i) + Pow2(BinBits(i)) && BinOk(h, m, roots[i], treemap, tries[i], i)
    ensures var t' := Insert(tries[i], x, s, BinLo(i), BinBits(i));
      && Sound(t', BinLo(i), BinBits(i)) && Chunks(t') == Chunks(tries[i]) + {Chunk(x, s)}
      && Addrs(t') == Addrs(tries[i]) + {x} && t'.Node?
      && SizesOk(h, t') && (forall c :: c in Chunks(t') ==> InBin(c.size, i) && c.size < TWO40)
      && Binned(tries[i := t']) == Binned(tries) + {Chunk(x, s)}
  {
    UnbinnedAddr(tries, x, i);
    if Chunk(x, s) in Chunks(tries[i]) { ChunkAddr(tries[i], Chunk(x, s)); }
    BinRange(s, i);
    assert BinOk(h, m, roots[i], treemap, tries[i], i);
    var lo, b := BinLo(i), BinBits(i);
    InsertChunks(tries[i], x, s, lo, b);
    InsertSound(tries[i], x, s, lo, b);
    InsertAddrs(tries[i], x, s, lo, b);
    BinnedUpdate(tries, i, Insert(tries[i], x, s, lo, b), Chunk(x, s));
  }

  /** One bin has changed; the others have not been touched. */
  lemma OneBin(
    h: map<nat, Head>, m: Links, m': Links, roots: seq<nat>, roots': seq<nat>, treemap: nat, treemap': nat,
    tries: seq<Trie>, i: nat, t': Trie, x: nat)
    requires BinsOk(h, m, roots, treemap, tries) && i < BINS && Unbinned(tries[i := Nil], x)
    requires |roots'| == BINS && roots' == roots[i := roots'[i]] && treemap' < Pow2(BINS)
    requires forall j :: 0 <= j < BINS && j != i ==> (Bit(treemap', j) <==> Bit(treemap, j))
    requires BinOk(h, m', roots'[i], treemap', t', i)
    requires forall a :: a !in Addrs(tries[i]) && a != x && a != 0 ==> SameAt(m, m', a)
    requires forall a :: a in Addrs(t') ==> a in Addrs(tries[i]) || a == x
    ensures BinsOk(h, m', roots', treemap', tries[i := t'])
  {
    var tries' := tries[i := t'];
    forall j: nat | j < BINS
      ensures BinOk(h, m', roots'[j], treemap', tries'[j], j)
    {
      if j != i {
        BinStays(h, m, m', roots, treemap, treemap', tries, i, x, j);
        assert roots'[j] == roots[j] && tries'[j] == tries[j];
      }
    }
    StillApart(tries, i, t', x);
  }

  lemma BinStays(
    h: map<nat, Head>, m: Links, m': Links, roots: seq<nat>, treemap: nat, treemap': nat,
    tries: seq<Trie>, i: nat, x: nat, j: nat)
    requires BinsOk(h, m, roots, treemap, tries) && i < BINS && Unbinned(tries[i := Nil], x) && j < BINS && j != i
    requires Bit(treemap', j) <==> Bit(treemap, j)
    requires forall a :: a !in Addrs(tries[i]) && a != x && a != 0 ==> SameAt(m, m', a)
    ensures BinOk(h, m', roots[j], treemap', tries[j], j)
  {
    assert BinOk(h, m, roots[j], treemap, tries[j], j);
    ApartFrom(tries, i, x, j);
    forall a | a in Addrs(tries[j])
      ensures SameAt(m, m', a)
    {
      AddrNonzero(m, tries[j], j, a);
    }
    OtherBin(h, m, m', roots[j], treemap, treemap', tries[j], j);
  }

  lemma ApartFrom(tries: seq<Trie>, i: nat, x: nat, j: nat)
    requires |tries| == BINS && i < BINS && j < BINS && i != j && Unbinned(tries[i := Nil], x)
    requires forall k, l :: 0 <= k < l < BINS ==> Addrs(tries[k]) !! Addrs(tries[l])
    ensures x !in Addrs(tries[j]) && Addrs(tries[j]) !! Addrs(tries[i])
  {
    UnbinnedAddr(tries[i := Nil], x, j);
    assert Addrs(tries[if i < j then i else j]) !! Addrs(tries[if i < j then j else i]);
  }

  lemma StillApart(tries: seq<Trie>, i: nat, t': Trie, x: nat)
    requires |tries| == BINS && i < BINS && Unbinned(tries[i := Nil], x)
    requires forall k, l :: 0 <= k < l < BINS ==> Addrs(tries[k]) !! Addrs(tries[l])
    requires forall a :: a in Addrs(t') ==> a in Addrs(tries[i]) || a == x
    ensures var tries' := tries[i := t']; forall k, l :: 0 <= k < l < BINS ==> Addrs(tries'[k]) !! Addrs(tries'[l])
  {
    var tries' := tries[i := t'];
    forall k, l | 0 <= k < l < BINS
      ensures Addrs(tries'[k]) !! Addrs(tries'[l])
    {
      if k == i {
        ApartFrom(tries, i, x, l);
      } else if l == i {
        ApartFrom(tries, i, x, k);
      }
    }
  }

  lemma {:induction false} StopRooted(h: map<nat, Head>, m: Links, t: Trie, s: nat, lo: nat, b: nat, bin: nat)
    requires Rep(m, t, bin) && t.Node? && SizesOk(h, t)
    ensures var p := StopAt(t, s, lo, b);
      p.Node? && p.ring != [] && p.ring[0] in h && h[p.ring[0]].size == p.size
    decreases t
  {
    RootHead(h, t);
    if t.size != s && b > 0 {
      if s < lo + Pow2(b - 1) {
        if t.l.Node? { StopRooted(h, m, t.l, s, lo, b - 1, bin); }
      } else {
        if t.r.Node? { StopRooted(h, m, t.r, s, lo + Pow2(b - 1), b - 1, bin); }
      }
    }
  }

  /** A descent for s has ended at address t. */
  ghost predicate Stopped(h: map<nat, Head>, trie: Trie, s: nat, lo: nat, b: nat, t: nat, right: bool) {
    var p := StopAt(trie, s, lo, b);
    && p.Node? && p.ring != [] && t == p.ring[0] && t in h && h[t].size == p.size
    && (p.size != s ==> right == StopsRight(trie, s, lo, b))
  }

  class Trees {
    var left: map<nat, nat>
    var right: map<nat, nat>
    var parent: map<nat, nat>
    var fd: map<nat, nat>
    var bk: map<nat, nat>
    var index: map<nat, nat>
    var roots: seq<nat>
    var treemap: nat
    ghost var tries: seq<Trie>

    function M(): Links
      reads this
    {
      Links(left, right, parent, fd, bk, index)
    }

    ghost predicate Valid(h: map<nat, Head>)
      reads this
    {
      BinsOk(h, M(), roots, treemap, tries)
    }

    constructor ()
      ensures forall h :: Valid(h)
      ensures Binned(tries) == {}
    {
      left, right, parent, fd, bk, index := map[], map[], map[], map[], map[], map[];
      roots, treemap := seq(BINS, _ => 0), 0;
      tries := seq(BINS, _ => Nil);
      new;
      forall h
        ensures Valid(h)
      {
        forall i | 0 <= i < BINS
          ensures BinOk(h, M(), roots[i], treemap, tries[i], i)
        {
          ZeroBit(i);
        }
      }
    }

    /** Follow the bits of s from the root of its bin down to where a chunk of
        that size is or would be. */
    method Descend(h: map<nat, Head>, i: nat, s: nat) returns (t: nat, right: bool)
      requires Valid(h) && i < BINS && InBin(s, i) && s < WORD && tries[i].Node?
      ensures Stopped(h, tries[i], s, BinLo(i), BinBits(i), t, right)
    {
      assert BinOk(h, M(), roots[i], treemap, tries[i], i);
      DescendStart(h, M(), roots[i], treemap, tries[i], i, s);
      StopRooted(h, M(), tries[i], s, BinLo(i), BinBits(i), i);
      t, right := roots[i], false;
      var key: nat := s * Pow2(LeftShift(i)) % WORD;
      ghost var cur: Trie, lo: nat, b: nat := tries[i], BinLo(i), BinBits(i);
      while h[t].size != s
        invariant Descending(h, M(), i, s, t, key, cur, lo, b)
        invariant StopAt(tries[i], s, BinLo(i), BinBits(i)) == StopAt(cur, s, lo, b)
        invariant StopsRight(tries[i], s, BinLo(i), BinBits(i)) == StopsRight(cur, s, lo, b)
        decreases cur
      {
        right := key >= WORD / 2;
        var c := if right then Get(this.right, t) else Get(left, t);
        ghost var next, lo', b': int := if right then cur.r else cur.l, if right then lo + Pow2(b - 1) else lo, b - 1;
        DescendStep(h, M(), i, s, t, key, cur, lo, b, right, c, 2 * key % WORD, next, lo', b');
        if c == 0 {
          return;
        }
        t, key := c, 2 * key % WORD;
        cur, lo, b := next, lo', b';
      }
    }

    /** insert_large_chunk */
    method InsertLarge(h: map<nat, Head>, x: nat, s: nat)
      requires Valid(h) && Unbinned(tries, x) && x != 0 && x in h && h[x].size == s && MIN_LARGE <= s < TWO40
      modifies this
      ensures Valid(h) && Binned(tries) == old(Binned(tries)) + {Chunk(x, s)}
    {
      TreeIndexBelow(s);
      var i := TreeIndex(s);
      assert BinOk(h, M(), roots[i], treemap, tries[i], i);
      InsertsOne(h, M(), roots, treemap, tries, i, x, s);
      if Bit(treemap, i) {
        InsertBelow(h, x, s, i);
      } else {
        InsertFirst(h, x, s, i);
      }
    }

    method InsertBelow(h: map<nat, Head>, x: nat, s: nat, i: nat)
      requires Inserts(h, M(), roots, treemap, tries, i, x, s) && tries[i].Node?
      modifies this
      ensures Valid(h) && tries == old(tries)[i := Insert(old(tries)[i], x, s, BinLo(i), BinBits(i))]
    {
      ghost var m := M();
      assert s < WORD;
      var t, r := Descend(h, i, s);
      Link(t, x, r, i, h[t].size == s);
      InsertedBin(h, m, M(), roots, treemap, tries, i, x, s);
      tries := tries[i := Insert(tries[i], x, s, BinLo(i), BinBits(i))];
    }

    method InsertFirst(h: map<nat, Head>, x: nat, s: nat, i: nat)
      requires Inserts(h, M(), roots, treemap, tries, i, x, s) && tries[i].Nil?
      modifies this
      ensures Valid(h) && tries == old(tries)[i := Insert(old(tries)[i], x, s, BinLo(i), BinBits(i))]
    {
      ghost var m, roots0, map0 := M(), roots, treemap;
      treemap := Mark(treemap, i);
      roots := roots[i := x];
      LinkRoot(x, i);
      NewBin(h, m, M(), roots0, map0, tries, i, x, s);
      tries := tries[i := Insert(tries[i], x, s, BinLo(i), BinBits(i))];
    }

    method LinkRoot(x: nat, i: nat)
      modifies this`left, this`right, this`parent, this`fd, this`bk, this`index
      ensures M() == Rooted(old(M()), x, i)
    {
      index := index[x := i];
      left, right := left[x := 0], right[x := 0];
      parent := parent[x := x];
      fd, bk := fd[x := x], bk[x := x];
    }

    /** Below t on the given side, or into t's ring if it has the same size */
    method Link(t: nat, x: nat, r: bool, i: nat, same: bool)
      modifies this`left, this`right, this`parent, this`fd, this`bk, this`index
      ensures M() == if same then Chained(old(M()), t, x, i) else Attached(old(M()), t, x, r, i)
    {
      index := index[x := i];
      left, right := left[x := 0], right[x := 0];
      if same {
        var f := Get(fd, t);
        fd, bk := fd[t := x], bk[f := x];
        fd, bk := fd[x := f], bk[x := t];
        parent := parent[x := 0];
      } else {
        if r {
          right := right[t := x];
        } else {
          left := left[t := x];
        }
        parent := parent[x := t];
        fd, bk := fd[x := x], bk[x := x];
      }
    }

    // --------------------------------------------------------------- unlinking

    /** The leaf below c reached by going right where possible, else left, and
        the field it hangs in; c itself hangs in field (q0, qr0). */
    method FindLeaf(ghost c: Trie, c0: nat, q0: nat, qr0: bool, ghost bin: nat) returns (r: nat, q: nat, qr: bool)
      requires Rep(M(), c, bin) && c.Node? && c0 == Root(c)
      ensures r == Root(TakeLeaf(c).0) && (q, qr) == LeafSlot(c, q0, qr0)
    {
      r, q, qr := c0, q0, qr0;
      ghost var cur := c;
      RootIn(cur.l, M(), bin);
      RootIn(cur.r, M(), bin);
      while Get(right, r) != 0 || Get(left, r) != 0
        invariant Rep(M(), cur, bin) && cur.Node? && r == Root(cur)
        invariant Get(right, r) != 0 <==> cur.r.Node?
        invariant Get(left, r) != 0 <==> cur.l.Node?
        invariant TakeLeaf(c).0 == TakeLeaf(cur).0 && LeafSlot(c, q0, qr0) == LeafSlot(cur, q, qr)
        decreases cur
      {
        if Get(right, r) != 0 {
          q, qr, r := r, true, Get(right, r);
          cur := cur.r;
        } else {
          q, qr, r := r, false, Get(left, r);
          cur := cur.l;
        }
        RootIn(cur.l, M(), bin);
        RootIn(cur.r, M(), bin);
      }
    }

    /** First half of unlink_large_chunk: out of the ring, or a leaf in its place */
    method Detach(x: nat, ghost n: Trie, ghost bin: nat) returns (r: nat)
      requires Rep(M(), n, bin) && n.Node? && x in n.ring
      modifies this`left, this`right, this`fd, this`bk
      ensures x == Root(n) ==> M() == Detached(old(M()), n) && r == Heir(n)
      ensures x != Root(n) ==> M() == RingOut(old(M()), x)
    {
      RingNext(M(), n.ring, x, bin);
      if Get(bk, x) != x {
        var f := Get(fd, x);
        r := Get(bk, x);
        bk, fd := bk[f := r], fd[r := f];
      } else {
        RootIn(n.l, M(), bin);
        RootIn(n.r, M(), bin);
        var q, qr;
        if Get(right, x) != 0 {
          r, q, qr := FindLeaf(n.r, Get(right, x), x, true, bin);
          ClearField(q, qr);
        } else if Get(left, x) != 0 {
          r, q, qr := FindLeaf(n.l, Get(left, x), x, false, bin);
          ClearField(q, qr);
        } else {
          r := 0;
        }
      }
    }

    method ClearField(q: nat, qr: bool)
      modifies this`left, this`right
      ensures M() == ZeroSlot(old(M()), q, qr)
    {
      if qr {
        right := right[q := 0];
      } else {
        left := left[q := 0];
      }
    }

    /** unlink_large_chunk */
    method UnlinkLarge(h: map<nat, Head>, x: nat)
      requires Valid(h) && x in h && Chunk(x, h[x].size) in Binned(tries)
      modifies this
      ensures Valid(h) && Binned(tries) == old(Binned(tries)) - {Chunk(x, h[x].size)}
    {
      ghost var s, m, roots0, map0 := h[x].size, M(), roots, treemap;
      ghost var i: nat :| i < BINS && Chunk(x, s) in Chunks(tries[i]);
      ghost var n := StopAt(tries[i], s, BinLo(i), BinBits(i));
      Located(h, m, roots, treemap, tries, i, x, s);
      var xp := Get(parent, x);
      var r := Detach(x, n, i);
      if xp != 0 {
        Reseat(x, r, Get(index, x));
      }
      tries := tries[i := Remove(tries[i], x, s, BinLo(i), BinBits(i))];
      UnlinkedBin(h, m, M(), roots0, roots, map0, treemap, old(tries), i, x, s);
    }

    /** The heir takes x's place as root of the bin or below x's parent */
    method Reseat(x: nat, r: nat, bin: nat)
      requires bin < BINS == |roots|
      modifies this`left, this`right, this`parent, this`roots, this`treemap
      ensures var m := old(M());
        if x == old(roots[bin]) then
          && M() == Seat(m, x, r) && roots == old(roots)[bin := r]
          && treemap == (if r == 0 then Clear(old(treemap), bin, BINS) else old(treemap))
        else M() == Seat(Slot(m, Get(m.parent, x), x, r), x, r) && roots == old(roots) && treemap == old(treemap)
    {
      if x == roots[bin] {
        roots := roots[bin := r];
        if r == 0 {
          treemap := Clear(treemap, bin, BINS);
        }
        Replace(x, r, true);
      } else {
        Replace(x, r, false);
      }
    }

    /** Second half: the heir takes x's place between parent and children */
    method Replace(x: nat, r: nat, atRoot: bool)
      modifies this`left, this`right, this`parent
      ensures var m := old(M());
        M() == Seat(if atRoot then m else Slot(m, Get(m.parent, x), x, r), x, r)
    {
      var xp := Get(parent, x);
      if !atRoot {
        if Get(left, xp) == x {
          left := left[xp := r];
        } else {
          right := right[xp := r];
        }
      }
      if r != 0 {
        parent := parent[r := Get(parent, x)];
        var c0, c1 := Get(left, x), Get(right, x);
        if c0 != 0 {
          left, parent := left[r := c0], parent[c0 := r];
        }
        if c1 != 0 {
          right, parent := right[r := c1], parent[c1 := r];
        }
      }
    }

    // ---------------------------------------------------------------- searching

    /** First loop of tmalloc_large: down the path of nb's bits, keeping the best
        fit on it and the deepest right subtree passed by */
    method SearchBin(h: map<nat, Head>, i: nat, nb: nat) returns (t: nat, v: nat, rsize: nat, ghost rest: Trie)
      requires Valid(h) && i < BINS && tries[i].Node? && MIN_LARGE <= nb < WORD && (nb < TWO40 ==> InBin(nb, i))
      ensures Ready(h, M(), i, nb, Chunks(tries[i]), t, v, rsize, rest)
    {
      ghost var all, cur: Trie, rstT: Trie, lo: nat, b: nat := Chunks(tries[i]), tries[i], Nil, BinLo(i), BinBits(i);
      assert BinOk(h, M(), roots[i], treemap, tries[i], i);
      SeekStart(h, M(), roots[i], treemap, tries[i], i, nb);
      v, rsize, t := 0, WORD - nb, roots[i];
      var key: nat, rst: nat, done := nb * Pow2(LeftShift(i)) % WORD, 0, false;
      while !done
        invariant if done then Ready(h, M(), i, nb, all, t, v, rsize, cur)
                  else Seeking(h, M(), i, nb, all, t, key, v, rsize, rst, cur, rstT, lo, b)
        decreases !done, cur
      {
        done, t, key, v, rsize, rst, cur, rstT, lo, b :=
          SearchStep(h, i, nb, t, key, v, rsize, rst, all, cur, rstT, lo, b);
      }
      rest := cur;
    }

    /** The better of the candidate v and the chunk t of the given size */
    method Closer(size: nat, nb: nat, t: nat, v: nat, rsize: nat) returns (v': nat, rsize': nat)
      requires size < WORD && nb < WORD
      ensures v' == if Sub64(size, nb) < rsize then t else v
      ensures rsize' == if Sub64(size, nb) < rsize then Sub64(size, nb) else rsize
    {
      v', rsize' := v, rsize;
      var trem := Sub64(size, nb);
      if trem < rsize {
        v', rsize' := t, trem;
      }
    }

    /** One round of that loop */
    method SearchStep(
      h: map<nat, Head>, ghost i: nat, nb: nat, t: nat, key: nat, v: nat, rsize: nat, rst: nat,
      ghost all: set<Chunk>, ghost cur: Trie, ghost rstT: Trie, ghost lo: nat, ghost b: nat)
      returns (done: bool, t': nat, key': nat, v': nat, rsize': nat, rst': nat,
               ghost cur': Trie, ghost rstT': Trie, ghost lo': nat, ghost b': nat)
      requires nb < WORD && Seeking(h, M(), i, nb, all, t, key, v, rsize, rst, cur, rstT, lo, b)
      ensures done ==> Ready(h, M(), i, nb, all, t', v', rsize', cur')
      ensures !done ==> Seeking(h, M(), i, nb, all, t', key', v', rsize', rst', cur', rstT', lo', b')
      ensures !done ==> cur' == cur.l || cur' == cur.r
    {
      done, t', key', v', rsize', rst', cur', rstT', lo', b' := true, t, key, v, rsize, rst, cur, rstT, lo, b;
      SeesRoot(h, M(), i, all, t, cur);
      v', rsize' := Closer(h[t].size, nb, t, v, rsize);
      if rsize' == 0 {
        SeekStop(h, M(), i, nb, all, t, key, v, rsize, rst, cur, rstT, lo, b);
        return;
      }
      var rt, goRight := Get(right, t), key >= WORD / 2;
      t' := if goRight then rt else Get(left, t);
      rst' := if rt != 0 && rt != t' then rt else rst;
      key' := 2 * key % WORD;
      rstT', cur', lo', b' := NextRst(cur, rstT, goRight), NextCur(cur, goRight), ChildLo(lo, b, goRight), ChildBits(b);
      SeekStep(h, M(), i, nb, all, t, key, v, rsize, rst, cur, rstT, lo, b,
               goRight, t', v', rsize', rst', cur', rstT', key', lo', b');
      done := t' == 0;
      if done {
        t', cur' := rst', rstT';
      }
    }

    /** Last loop of tmalloc_large: the smallest chunk lies on the leftmost path */
    method Leftmost(
      h: map<nat, Head>, t0: nat, nb: nat, v0: nat, rsize0: nat, ghost i: nat, ghost all: set<Chunk>,
      ghost rest: Trie)
      returns (v: nat, rsize: nat)
      requires nb < WORD && Ready(h, M(), i, nb, all, t0, v0, rsize0, rest)
      ensures Candidate(all, nb, v, rsize) && AllSettled(all, nb, v, rsize, {})
    {
      v, rsize := v0, rsize0;
      var t: nat := t0;
      ghost var cur := rest;
      SeesRoot(h, M(), i, all, t, cur);
      while t != 0
        invariant Ready(h, M(), i, nb, all, t, v, rsize, cur) && (t == 0 <==> cur.Nil?)
        decreases cur
      {
        SeesRoot(h, M(), i, all, t, cur);
        ghost var t1, v1, rsize1, cur1 := t, v, rsize, cur;
        v, rsize := Closer(h[t].size, nb, t, v, rsize);
        t := if Get(left, t) != 0 then Get(left, t) else Get(right, t);
        cur := LeftmostChild(cur);
        ReadyStep(h, M(), i, nb, all, t1, v1, rsize1, cur1, t, v, rsize, cur);
        SeesRoot(h, M(), i, all, t, cur);
      }
      assert Chunks(cur) == {};
    }

    /** tmalloc_large up to its choice: the tree-binned chunk of least size that
        is at least nb */
    method FindLarge(h: map<nat, Head>, nb: nat) returns (v: nat, rsize: nat)
      requires Valid(h) && MIN_LARGE <= nb < WORD
      ensures v == 0 ==> forall c :: c in Binned(tries) ==> c.size < nb
      ensures v != 0 ==> Chunk(v, nb + rsize) in Binned(tries)
      ensures v != 0 ==> forall c :: c in Binned(tries) && c.size >= nb ==> nb + rsize <= c.size
    {
      TreeIndexRange(nb);
      if nb < TWO40 { TreeIndexBelow(nb); }
      var idx := TreeIndex(nb);
      assert BinOk(h, M(), roots[idx], treemap, tries[idx], idx);
      RootIn(tries[idx], M(), idx);
      var t: nat := roots[idx];
      v, rsize := 0, WORD - nb;
      ghost var rest := Nil;
      if t != 0 {
        t, v, rsize, rest := SearchBin(h, idx, nb);
      } else {
        NothingThere(h, M(), idx, nb, tries[idx]);
      }
      ghost var bin := idx;
      if t == 0 && v == 0 {
        t, bin, rest := NextTree(h, idx, nb, rest);
      } else {
        WholeRange(h, M(), roots, treemap, tries, idx, nb, t, v, rsize, rest);
      }
      v, rsize := Leftmost(h, t, nb, v, rsize, bin, Binned(tries), rest);
      LeastFit(Binned(tries), nb, v, rsize);
    }

    /** The root of the next nonempty bin above idx, where nothing fits */
    method NextTree(
      h: map<nat, Head>, idx: nat, nb: nat, ghost none: Trie)
      returns (t: nat, ghost bin: nat, ghost rest: Trie)
      requires Valid(h) && idx < BINS && MIN_LARGE <= nb < WORD && (nb < TWO40 ==> InBin(nb, idx))
      requires Ready(h, M(), idx, nb, Chunks(tries[idx]), 0, 0, WORD - nb, none)
      ensures Ready(h, M(), bin, nb, Binned(tries), t, 0, WORD - nb, rest)
    {
      var leftbits := BinsAbove(treemap, idx, BINS);
      NextBin(treemap, idx, BINS);
      EmptyBin(h, M(), idx, nb, Chunks(tries[idx]), none);
      if leftbits != 0 {
        var i := FirstBin(leftbits, BINS);
        t, bin, rest := roots[i], i, tries[i];
        NextBinReady(h, M(), roots, treemap, tries, idx, nb, i);
      } else {
        t, bin, rest := 0, idx, Nil;
        NoBinReady(h, M(), roots, treemap, tries, idx, nb);
      }
    }

    method LowestBin() returns (i: nat)
      requires 0 < treemap < Pow2(BINS)
      ensures i < BINS && Bit(treemap, i) && forall j :: 0 <= j < i ==> !Bit(treemap, j)
    {
      FirstBinIs(treemap, BINS);
      i := FirstBin(treemap, BINS);
    }

    /** The root of the first nonempty bin is the first candidate */
    method SmallStart(h: map<nat, Head>, nb: nat) returns (t: nat, v: nat, rsize: nat, ghost i: nat, ghost rest: Trie)
      requires Valid(h) && 0 < nb < MIN_LARGE && treemap != 0
      ensures Ready(h, M(), i, nb, Binned(tries), t, v, rsize, rest)
      ensures exists c :: c in Binned(tries)
    {
      var first := LowestBin();
      i := first;
      ghost var cur := tries[i];
      FirstBinReady(h, M(), roots, treemap, tries, nb, i);
      SeesRoot(h, M(), i, Binned(tries), roots[i], cur);
      t := roots[first];
      v, rsize := t, h[t].size - nb;
      t := if Get(left, v) != 0 then Get(left, v) else Get(right, v);
      rest := LeftmostChild(cur);
      SmallestOfFirst(h, M(), i, nb, Binned(tries), v, rsize, cur, t, rest);
    }

    /** tmalloc_small up to its choice: the smallest tree-binned chunk */
    method FindSmallest(h: map<nat, Head>, nb: nat) returns (v: nat, rsize: nat)
      requires Valid(h) && 0 < nb < MIN_LARGE && treemap != 0
      ensures v != 0 && Chunk(v, nb + rsize) in Binned(tries)
      ensures forall c :: c in Binned(tries) ==> nb + rsize <= c.size
    {
      ghost var i, rest;
      var t;
      t, v, rsize, i, rest := SmallStart(h, nb);
      v, rsize := Leftmost(h, t, nb, v, rsize, i, Binned(tries), rest);
      LeastFit(Binned(tries), nb, v, rsize);
      AllLarge(h, M(), roots, treemap, tries);
    }
  }

  lemma SmallestOfFirst(
    h: map<nat, Head>, m: Links, i: nat, nb: nat, all: set<Chunk>, t: nat, rsize: nat, cur: Trie, next: nat, rest: Trie)
    requires nb < WORD && Ready(h, m, i, nb, all, t, 0, WORD - nb, cur) && cur.Node?
    requires nb < MIN_LARGE <= cur.size < WORD
    requires t in h && h[t].size == cur.size && rsize == h[t].size - nb && rest == LeftmostChild(cur)
    requires next == if Get(m.left, t) != 0 then Get(m.left, t) else Get(m.right, t)
    ensures Ready(h, m, i, nb, all, next, t, rsize, rest)
  {
    SeesRoot(h, m, i, all, t, cur);
    ReadyStep(h, m, i, nb, all, t, 0, WORD - nb, cur, next, t, rsize, rest);
  }

  lemma AllLarge(h: map<nat, Head>, m: Links, roots: seq<nat>, treemap: nat, tries: seq<Trie>)
    requires BinsOk(h, m, roots, treemap, tries)
    ensures forall c :: c in Binned(tries) ==> c.size >= MIN_LARGE
  {
    forall c | c in Binned(tries)
      ensures c.size >= MIN_LARGE
    {
      var j: nat :| j < BINS && c in Chunks(tries[j]);
      BinHas(h, m, roots, treemap, tries, j, c);
      FitsAll(c.size, j);
    }
  }

  lemma TreeIndexRange(s: nat)
    ensures TreeIndex(s) < BINS
  {
    var x := s / 256 % 0x1_0000_0000;
    Pow2At(16);
    if 0 < x <= 0xFFFF { BsrBelow(x, 16); }
  }

  lemma NothingThere(h: map<nat, Head>, m: Links, i: nat, nb: nat, t: Trie)
    requires t.Nil? && 0 < nb < WORD
    ensures Ready(h, m, i, nb, Chunks(t), 0, 0, WORD - nb, Nil)
  {
    assert Sound(Nil, 0, 0);
  }

  /** A bin with no candidate and nothing left to look at holds nothing that fits. */
  lemma EmptyBin(h: map<nat, Head>, m: Links, i: nat, nb: nat, all: set<Chunk>, none: Trie)
    requires nb < WORD && Ready(h, m, i, nb, all, 0, 0, WORD - nb, none)
    ensures forall c :: c in all ==> c.size < nb
  {
    SeesRoot(h, m, i, all, 0, none);
    forall c | c in all
      ensures c.size < nb
    {
      assert Settled(c, nb, 0, WORD - nb, Chunks(none));
    }
  }

  /** Sizes grow with the bin. */
  lemma BinsOrdered(s: nat, i: nat, s': nat, j: nat)
    requires InBin(s, i) && InBin(s', j) && i < j
    ensures s < s'
  {
    MinSizeMono(i + 1, j);
  }

  lemma WholeRange(
    h: map<nat, Head>, m: Links, roots: seq<nat>, treemap: nat, tries: seq<Trie>, idx: nat, nb: nat,
    t: nat, v: nat, rsize: nat, rest: Trie)
    requires BinsOk(h, m, roots, treemap, tries) && idx < BINS && (nb < TWO40 ==> InBin(nb, idx))
    requires Ready(h, m, idx, nb, Chunks(tries[idx]), t, v, rsize, rest) && (t != 0 || v != 0)
    ensures Ready(h, m, idx, nb, Binned(tries), t, v, rsize, rest)
  {
    var all := Chunks(tries[idx]);
    assert all <= Binned(tries);
    SeesRoot(h, m, idx, all, t, rest);
    forall c | c in Binned(tries)
      ensures Settled(c, nb, v, rsize, Chunks(rest)) && c.size < TWO40
    {
      var j: nat :| j < BINS && c in Chunks(tries[j]);
      RangeSettled(h, m, roots, treemap, tries, idx, nb, t, v, rsize, rest, j, c);
    }
  }

  lemma RangeSettled(
    h: map<nat, Head>, m: Links, roots: seq<nat>, treemap: nat, tries: seq<Trie>, idx: nat, nb: nat,
    t: nat, v: nat, rsize: nat, rest: Trie, j: nat, c: Chunk)
    requires BinsOk(h, m, roots, treemap, tries) && idx < BINS && (nb < TWO40 ==> InBin(nb, idx))
    requires Ready(h, m, idx, nb, Chunks(tries[idx]), t, v, rsize, rest) && (v != 0 || rest.Node?)
    requires j < BINS && c in Chunks(tries[j])
    ensures Settled(c, nb, v, rsize, Chunks(rest)) && c.size < TWO40
  {
    BinHas(h, m, roots, treemap, tries, j, c);
    if nb < TWO40 && j < idx {
      BinsOrdered(c.size, j, nb, idx);
    } else if nb < TWO40 && j > idx {
      AllInBin(h, m, roots, treemap, tries, idx);
      HigherSettled(h, m, idx, nb, Chunks(tries[idx]), t, v, rsize, rest, j, c);
    }
  }

  lemma AllInBin(h: map<nat, Head>, m: Links, roots: seq<nat>, treemap: nat, tries: seq<Trie>, j: nat)
    requires BinsOk(h, m, roots, treemap, tries) && j < BINS
    ensures forall d :: d in Chunks(tries[j]) ==> InBin(d.size, j)
  {
    forall d | d in Chunks(tries[j])
      ensures InBin(d.size, j)
    {
      BinHas(h, m, roots, treemap, tries, j, d);
    }
  }

  /** What a bin offers is no worse than anything in a higher bin. */
  lemma HigherSettled(
    h: map<nat, Head>, m: Links, idx: nat, nb: nat, all: set<Chunk>, t: nat, v: nat, rsize: nat, rest: Trie, j: nat,
    c: Chunk)
    requires nb < TWO40 && idx < j && InBin(c.size, j) && (forall d :: d in all ==> InBin(d.size, idx))
    requires Ready(h, m, idx, nb, all, t, v, rsize, rest) && (v != 0 || rest.Node?)
    ensures Settled(c, nb, v, rsize, Chunks(rest))
  {
    if v != 0 {
      BinsOrdered(nb + rsize, idx, c.size, j);
    } else {
      RootIn(rest, m, idx);
      var d := SomeChunk(rest);
      BinsOrdered(d.size, idx, c.size, j);
    }
  }

  /** Every chunk of a bin above idx fits. */
  lemma AboveFits(
    h: map<nat, Head>, m: Links, roots: seq<nat>, treemap: nat, tries: seq<Trie>, idx: nat, nb: nat, i: nat,
    c: Chunk)
    requires BinsOk(h, m, roots, treemap, tries) && idx < i < BINS && InBin(nb, idx) && c in Chunks(tries[i])
    ensures nb < c.size
  {
    BinHas(h, m, roots, treemap, tries, i, c);
    BinsOrdered(nb, idx, c.size, i);
  }

  lemma NextSettled(
    h: map<nat, Head>, m: Links, roots: seq<nat>, treemap: nat, tries: seq<Trie>, idx: nat, nb: nat, i: nat, j: nat,
    c: Chunk)
    requires BinsOk(h, m, roots, treemap, tries) && idx < i < BINS && 0 < nb < TWO40 && InBin(nb, idx)
    requires (forall d :: d in Chunks(tries[idx]) ==> d.size < nb)
    requires Bit(treemap, i) && forall k :: idx < k < i ==> !Bit(treemap, k)
    requires j < BINS && c in Chunks(tries[j])
    ensures Settled(c, nb, 0, WORD - nb, Chunks(tries[i]))
  {
    BinHas(h, m, roots, treemap, tries, j, c);
    if j < idx {
      BinsOrdered(c.size, j, nb, idx);
    } else if j == i {
      AboveFits(h, m, roots, treemap, tries, idx, nb, i, c);
    } else if j > i {
      var d := InMarked(h, m, roots, treemap, tries, i);
      AboveFits(h, m, roots, treemap, tries, idx, nb, i, d);
      BinHas(h, m, roots, treemap, tries, i, d);
      BinsOrdered(d.size, i, c.size, j);
    }
  }

  /** A marked bin holds something. */
  lemma InMarked(
    h: map<nat, Head>, m: Links, roots: seq<nat>, treemap: nat, tries: seq<Trie>, i: nat)
    returns (d: Chunk)
    requires BinsOk(h, m, roots, treemap, tries) && i < BINS && Bit(treemap, i)
    ensures d in Chunks(tries[i])
  {
    assert BinOk(h, m, roots[i], treemap, tries[i], i);
    d := SomeChunk(tries[i]);
  }

  lemma NextBinReady(
    h: map<nat, Head>, m: Links, roots: seq<nat>, treemap: nat, tries: seq<Trie>, idx: nat, nb: nat, i: nat)
    requires BinsOk(h, m, roots, treemap, tries) && idx < i < BINS && 0 < nb < WORD && (nb < TWO40 ==> InBin(nb, idx))
    requires (forall c :: c in Chunks(tries[idx]) ==> c.size < nb)
    requires Bit(treemap, i) && forall j :: idx < j < i ==> !Bit(treemap, j)
    ensures Ready(h, m, i, nb, Binned(tries), roots[i], 0, WORD - nb, tries[i])
  {
    var rest := tries[i];
    assert BinOk(h, m, roots[i], treemap, rest, i);
    forall c | c in Binned(tries)
      ensures Settled(c, nb, 0, WORD - nb, Chunks(rest)) && c.size < TWO40
    {
      var j: nat :| j < BINS && c in Chunks(tries[j]);
      BinHas(h, m, roots, treemap, tries, j, c);
      if nb < TWO40 { NextSettled(h, m, roots, treemap, tries, idx, nb, i, j, c); }
    }
    if nb < TWO40 {
      forall d | d in Chunks(rest)
        ensures nb <= d.size
      {
        AboveFits(h, m, roots, treemap, tries, idx, nb, i, d);
      }
    }
    assert Chunks(rest) <= Binned(tries);
  }

  lemma NoBinReady(h: map<nat, Head>, m: Links, roots: seq<nat>, treemap: nat, tries: seq<Trie>, idx: nat, nb: nat)
    requires BinsOk(h, m, roots, treemap, tries) && idx < BINS && 0 < nb < WORD && (nb < TWO40 ==> InBin(nb, idx))
    requires (forall c :: c in Chunks(tries[idx]) ==> c.size < nb) && forall j :: idx < j < BINS ==> !Bit(treemap, j)
    ensures Ready(h, m, idx, nb, Binned(tries), 0, 0, WORD - nb, Nil)
  {
    assert Sound(Nil, 0, 0);
    forall c | c in Binned(tries)
      ensures c.size < nb
    {
      BelowAll(h, m, roots, treemap, tries, idx, nb, c);
    }
  }

  lemma BelowAll(
    h: map<nat, Head>, m: Links, roots: seq<nat>, treemap: nat, tries: seq<Trie>, idx: nat, nb: nat, c: Chunk)
    requires BinsOk(h, m, roots, treemap, tries) && idx < BINS && (nb < TWO40 ==> InBin(nb, idx)) && c in Binned(tries)
    requires (forall c :: c in Chunks(tries[idx]) ==> c.size < nb) && forall j :: idx < j < BINS ==> !Bit(treemap, j)
    ensures c.size < nb
  {
    var j: nat :| j < BINS && c in Chunks(tries[j]);
    BinHas(h, m, roots, treemap, tries, j, c);
    if j < idx && nb < TWO40 { BinsOrdered(c.size, j, nb, idx); }
  }

  lemma FirstBinReady(h: map<nat, Head>, m: Links, roots: seq<nat>, treemap: nat, tries: seq<Trie>, nb: nat, i: nat)
    requires BinsOk(h, m, roots, treemap, tries) && i < BINS && 0 < nb < MIN_LARGE
    requires Bit(treemap, i) && forall j :: 0 <= j < i ==> !Bit(treemap, j)
    ensures Ready(h, m, i, nb, Binned(tries), roots[i], 0, WORD - nb, tries[i])
    ensures tries[i].Node? && MIN_LARGE <= tries[i].size < WORD && exists c :: c in Binned(tries)
  {
    var rest := tries[i];
    assert BinOk(h, m, roots[i], treemap, rest, i);
    var d := SomeChunk(rest);
    assert d in Binned(tries);
    AllLarge(h, m, roots, treemap, tries);
    forall c | c in Binned(tries)
      ensures Settled(c, nb, 0, WORD - nb, Chunks(rest))
    {
      FirstSettled(h, m, roots, treemap, tries, nb, i, d, c);
    }
    assert Chunks(rest) <= Binned(tries);
  }

  lemma FirstSettled(
    h: map<nat, Head>, m: Links, roots: seq<nat>, treemap: nat, tries: seq<Trie>, nb: nat, i: nat, d: Chunk, c: Chunk)
    requires BinsOk(h, m, roots, treemap, tries) && i < BINS && 0 < nb < MIN_LARGE
    requires forall j :: 0 <= j < i ==> !Bit(treemap, j)
    requires d in Chunks(tries[i]) && d.size >= nb && c in Binned(tries) && c.size >= nb
    ensures Settled(c, nb, 0, WORD - nb, Chunks(tries[i]))
  {
    var j: nat :| j < BINS && c in Chunks(tries[j]);
    BinHas(h, m, roots, treemap, tries, j, c);
    BinHas(h, m, roots, treemap, tries, i, d);
    if j > i {
      BinsOrdered(d.size, i, c.size, j);
    }
  }

  /** What is in bin j belongs there, and the map says so. */
  lemma BinHas(h: map<nat, Head>, m: Links, roots: seq<nat>, treemap: nat, tries: seq<Trie>, j: nat, c: Chunk)
    requires BinsOk(h, m, roots, treemap, tries) && j < BINS && c in Chunks(tries[j])
    ensures InBin(c.size, j) && c.size < TWO40 && Bit(treemap, j)
  {
    assert BinOk(h, m, roots[j], treemap, tries[j], j);
  }

  lemma FitsAll(s: nat, i: nat)
    requires InBin(s, i)
    ensures s >= MIN_LARGE
  {
    MinSizeMono(0, i);
    assert Pow2(8) == 256;
  }

  lemma SeekStart(h: map<nat, Head>, m: Links, root: nat, treemap: nat, t: Trie, i: nat, nb: nat)
    requires BinOk(h, m, root, treemap, t, i) && i < BINS && t.Node? && 0 < nb < WORD && (nb < TWO40 ==> InBin(nb, i))
    ensures LeftShift(i) >= 0
    ensures Seeking(h, m, i, nb, Chunks(t), root, nb * Pow2(LeftShift(i)) % WORD, 0, WORD - nb, 0,
                    t, Nil, BinLo(i), BinBits(i))
  {
    assert Sound(Nil, 0, 0);
    if nb < TWO40 {
      KeyStart(nb, i);
      forall c | c in Chunks(t)
        ensures Settled(c, nb, 0, WORD - nb, Chunks(t) + Chunks(Nil))
      {
        assert c in Chunks(t) + Chunks(Nil);
      }
    }
  }

  lemma SeekStop(
    h: map<nat, Head>, m: Links, i: nat, nb: nat, all: set<Chunk>, t: nat, key: nat, v: nat, rsize: nat, rst: nat,
    cur: Trie, rstT: Trie, lo: nat, b: nat)
    requires Seeking(h, m, i, nb, all, t, key, v, rsize, rst, cur, rstT, lo, b)
    requires cur.size < WORD && VisitR(cur, nb, rsize) == 0 && t == VisitV(cur, nb, v, rsize)
    ensures Ready(h, m, i, nb, all, t, t, 0, cur)
  {
    SeesRoot(h, m, i, all, t, cur);
    Visit(all, cur, nb, v, rsize);
    TriviallySettled(all, nb, t, 0, Chunks(cur));
  }

  lemma ReadyStep(
    h: map<nat, Head>, m: Links, i: nat, nb: nat, all: set<Chunk>, t: nat, v: nat, rsize: nat, cur: Trie,
    next: nat, v': nat, rsize': nat, rest: Trie)
    requires Ready(h, m, i, nb, all, t, v, rsize, cur) && cur.Node? && cur.size < WORD && nb < WORD
    requires next == if Get(m.left, t) != 0 then Get(m.left, t) else Get(m.right, t)
    requires v' == VisitV(cur, nb, v, rsize) && rsize' == VisitR(cur, nb, rsize) && rest == LeftmostChild(cur)
    ensures Ready(h, m, i, nb, all, next, v', rsize', rest)
  {
    SeesRoot(h, m, i, all, t, cur);
    SeesChildren(h, m, i, all, t, cur);
    SeesRoot(h, m, i, all, Get(m.left, t), cur.l);
    var lo: nat, b: nat :| Sound(cur, lo, b);
    LeftmostStep(all, cur, lo, b, nb, v, rsize);
  }

  /** A ring of one points at itself; only the first of a ring is a node. */
  lemma RingNext(m: Links, ring: seq<nat>, x: nat, bin: nat)
    requires NoDup(ring) && ring != [] && RingLinks(m, ring, bin) && x in ring
    ensures Get(m.bk, x) == x <==> |ring| == 1
    ensures x == ring[0] && |ring| > 1 ==> Get(m.bk, x) == ring[|ring| - 1]
    ensures x != ring[0] ==> Get(m.parent, x) == 0
  {
    var k: nat :| k < |ring| && ring[k] == x;
    if k > 0 {
      assert RingAt(m, ring, k - 1);
    } else {
      assert RingAt(m, ring, |ring| - 1);
    }
  }

  lemma {:induction false} StopRep(m: Links, t: Trie, s: nat, lo: nat, b: nat, bin: nat)
    requires Rep(m, t, bin)
    ensures Rep(m, StopAt(t, s, lo, b), bin)
    decreases t
  {
    if t.Node? && t.size != s && b > 0 {
      if s < lo + Pow2(b - 1) {
        if t.l.Node? { StopRep(m, t.l, s, lo, b - 1, bin); }
      } else {
        if t.r.Node? { StopRep(m, t.r, s, lo + Pow2(b - 1), b - 1, bin); }
      }
    }
  }

  lemma RingIndex(m: Links, ring: seq<nat>, x: nat, bin: nat)
    requires RingLinks(m, ring, bin) && x in ring
    ensures Get(m.index, x) == bin
  {
    var k: nat :| k < |ring| && ring[k] == x;
  }

  /** A binned chunk sits in the node its size leads to, and its fields say so. */
  lemma Located(h: map<nat, Head>, m: Links, roots: seq<nat>, treemap: nat, tries: seq<Trie>, i: nat, x: nat, s: nat)
    requires BinsOk(h, m, roots, treemap, tries) && i < BINS && Chunk(x, s) in Chunks(tries[i])
    ensures var n := StopAt(tries[i], s, BinLo(i), BinBits(i));
      && n.Node? && n.size == s && x in n.ring && Rep(m, n, i)
      && Get(m.index, x) == i && (Get(m.parent, x) != 0 <==> x == Root(n))
      && (x == Root(n) ==> (x == roots[i] <==> n == tries[i]))
      && (x == Root(tries[i]) ==> n == tries[i])
  {
    var t, lo, b := tries[i], BinLo(i), BinBits(i);
    var n := StopAt(t, s, lo, b);
    assert BinOk(h, m, roots[i], treemap, t, i);
    FindNode(t, x, s, lo, b);
    StopRep(m, t, s, lo, b, i);
    RingNext(m, n.ring, x, i);
    RingIndex(m, n.ring, x, i);
    if x == Root(t) { RootHolds(m, t, x, s, lo, b, i); }
  }

  lemma UnbinnedElsewhere(h: map<nat, Head>, m: Links, roots: seq<nat>, treemap: nat, tries: seq<Trie>, i: nat, x: nat)
    requires BinsOk(h, m, roots, treemap, tries) && i < BINS && x in Addrs(tries[i])
    ensures Unbinned(tries[i := Nil], x)
    ensures forall j, c :: 0 <= j < BINS && j != i && c in Chunks(tries[j]) ==> c.at != x
  {
    forall j: nat, c | j < BINS && j != i && c in Chunks(tries[j])
      ensures c.at != x
    {
      ChunkAddr(tries[j], c);
      assert Addrs(tries[if i < j then i else j]) !! Addrs(tries[if i < j then j else i]);
    }
    forall c | c in Binned(tries[i := Nil])
      ensures c.at != x
    {
      var j: nat :| j < BINS && c in Chunks(tries[i := Nil][j]);
    }
  }

  /** What unlinking x from bin i does to links, roots and map */
  ghost predicate Unlinks(
    m: Links, m': Links, roots: seq<nat>, roots': seq<nat>, treemap: nat, treemap': nat, t: Trie, i: nat, x: nat,
    s: nat)
    requires i < |roots| == BINS
  {
    if x == Root(t) then
      && t.Node? && m' == Unlinked(m, t, true) && roots' == roots[i := Heir(t)]
      && treemap' == (if Heir(t) == 0 then Clear(treemap, i, BINS) else treemap)
    else m' == UnlinkedBelow(m, t, x, s, BinLo(i), BinBits(i)) && roots' == roots && treemap' == treemap
  }

  lemma RemovedOk(
    h: map<nat, Head>, m: Links, m': Links, root: nat, root': nat, treemap: nat, treemap': nat, t: Trie, i: nat,
    x: nat, s: nat)
    requires BinOk(h, m, root, treemap, t, i) && Chunk(x, s) in Chunks(t) && i < BINS
    requires var t' := Remove(t, x, s, BinLo(i), BinBits(i));
      Rep(m', t', i) && root' == Root(t') && (Bit(treemap', i) <==> t'.Node?)
    ensures BinOk(h, m', root', treemap', Remove(t, x, s, BinLo(i), BinBits(i)), i)
  {
    RemoveSound(t, x, s, BinLo(i), BinBits(i));
    RemoveChunks(t, x, s, BinLo(i), BinBits(i));
  }

  lemma UnlinkedBin(
    h: map<nat, Head>, m: Links, m': Links, roots: seq<nat>, roots': seq<nat>, treemap: nat, treemap': nat,
    tries: seq<Trie>, i: nat, x: nat, s: nat)
    requires BinsOk(h, m, roots, treemap, tries) && i < BINS && Chunk(x, s) in Chunks(tries[i])
    requires Unlinks(m, m', roots, roots', treemap, treemap', tries[i], i, x, s)
    ensures var tries' := tries[i := Remove(tries[i], x, s, BinLo(i), BinBits(i))];
      BinsOk(h, m', roots', treemap', tries') && Binned(tries') == Binned(tries) - {Chunk(x, s)}
  {
    var t, t' := tries[i], Remove(tries[i], x, s, BinLo(i), BinBits(i));
    assert BinOk(h, m, roots[i], treemap, t, i);
    ChunkAddr(t, Chunk(x, s));
    UnbinnedElsewhere(h, m, roots, treemap, tries, i, x);
    RemoveChunks(t, x, s, BinLo(i), BinBits(i));
    BinnedUpdate(tries, i, t', Chunk(x, s));
    if x == Root(t) {
      UnlinkedRoot(h, m, m', roots, roots', treemap, treemap', tries, i, x, s);
    } else {
      UnlinkedInside(h, m, m', roots, treemap, tries, i, x, s);
    }
  }

  lemma UnlinkedInside(
    h: map<nat, Head>, m: Links, m': Links, roots: seq<nat>, treemap: nat, tries: seq<Trie>, i: nat, x: nat, s: nat)
    requires BinsOk(h, m, roots, treemap, tries) && i < BINS && Chunk(x, s) in Chunks(tries[i])
    requires x != Root(tries[i]) && m' == UnlinkedBelow(m, tries[i], x, s, BinLo(i), BinBits(i))
    requires Unbinned(tries[i := Nil], x)
    ensures BinsOk(h, m', roots, treemap, tries[i := Remove(tries[i], x, s, BinLo(i), BinBits(i))])
  {
    var t, t' := tries[i], Remove(tries[i], x, s, BinLo(i), BinBits(i));
    assert BinOk(h, m, roots[i], treemap, t, i);
    RemoveBelow(m, t, x, s, BinLo(i), BinBits(i), i);
    RemovedOk(h, m, m', roots[i], roots[i], treemap, treemap, t, i, x, s);
    OneBin(h, m, m', roots, roots, treemap, treemap, tries, i, t', x);
  }

  lemma UnlinkedRoot(
    h: map<nat, Head>, m: Links, m': Links, roots: seq<nat>, roots': seq<nat>, treemap: nat, treemap': nat,
    tries: seq<Trie>, i: nat, x: nat, s: nat)
    requires BinsOk(h, m, roots, treemap, tries) && i < BINS && Chunk(x, s) in Chunks(tries[i]) && x == Root(tries[i])
    requires Unlinks(m, m', roots, roots', treemap, treemap', tries[i], i, x, s)
    requires Unbinned(tries[i := Nil], x)
    ensures BinsOk(h, m', roots', treemap', tries[i := Remove(tries[i], x, s, BinLo(i), BinBits(i))])
  {
    var t, t' := tries[i], Remove(tries[i], x, s, BinLo(i), BinBits(i));
    assert BinOk(h, m, roots[i], treemap, t, i);
    RootHolds(m, t, x, s, BinLo(i), BinBits(i), i);
    assert t' == NodeAfter(t);
    NodeReady(m, t, i);
    RootOut(m, t, i);
    MapAfter(treemap, treemap', i, Heir(t));
    RemovedOk(h, m, m', roots[i], roots'[i], treemap, treemap', t, i, x, s);
    forall a | a !in Addrs(t) && a != x && a != 0
      ensures SameAt(m, m', a)
    {
      RootOutSame(m, t, i, a);
    }
    OneBin(h, m, m', roots, roots', treemap, treemap', tries, i, t', x);
  }

  lemma MapAfter(treemap: nat, treemap': nat, i: nat, heir: nat)
    requires treemap < Pow2(BINS) && i < BINS
    requires treemap' == if heir == 0 then Clear(treemap, i, BINS) else treemap
    ensures treemap' < Pow2(BINS)
    ensures forall j :: 0 <= j < BINS ==> (Bit(treemap', j) <==> Bit(treemap, j) && (j != i || heir != 0))
  {
    forall j: nat | j < BINS
      ensures Bit(treemap', j) <==> Bit(treemap, j) && (j != i || heir != 0)
    {
      ClearBit(treemap, i, BINS, j);
    }
  }

  lemma InsertedOk(
    h: map<nat, Head>, m: Links, m': Links, roots: seq<nat>, treemap: nat, tries: seq<Trie>, i: nat, x: nat, s: nat,
    t': Trie)
    requires Inserts(h, m, roots, treemap, tries, i, x, s) && tries[i].Node?
    requires Inserted(m, m', tries[i], x, s, BinLo(i), BinBits(i), i)
    requires t' == Insert(tries[i], x, s, BinLo(i), BinBits(i))
    ensures BinOk(h, m', roots[i], treemap, t', i) && Addrs(t') == Addrs(tries[i]) + {x}
    ensures forall a :: a !in Addrs(tries[i]) && a != x ==> SameAt(m, m', a)
  {
    var t, lo, b := tries[i], BinLo(i), BinBits(i);
    InsertsOne(h, m, roots, treemap, tries, i, x, s);
    InsertRep(m, m', t, x, s, lo, b, i);
    InsertOutside(m, m', t, x, s, lo, b, i);
    InsertAddrs(t, x, s, lo, b);
  }

  lemma InsertedBin(
    h: map<nat, Head>, m: Links, m': Links, roots: seq<nat>, treemap: nat, tries: seq<Trie>, i: nat, x: nat, s: nat)
    requires Inserts(h, m, roots, treemap, tries, i, x, s) && tries[i].Node?
    requires Inserted(m, m', tries[i], x, s, BinLo(i), BinBits(i), i)
    ensures BinsOk(h, m', roots, treemap, tries[i := Insert(tries[i], x, s, BinLo(i), BinBits(i))])
  {
    var t' := Insert(tries[i], x, s, BinLo(i), BinBits(i));
    InsertedOk(h, m, m', roots, treemap, tries, i, x, s, t');
    UnbinnedNil(tries, i, x);
    OneBin(h, m, m', roots, roots, treemap, treemap, tries, i, t', x);
  }

  lemma UnbinnedNil(tries: seq<Trie>, i: nat, x: nat)
    requires i < |tries| && Unbinned(tries, x)
    ensures Unbinned(tries[i := Nil], x)
  {
    forall c | c in Binned(tries[i := Nil])
      ensures c.at != x
    {
      var j :| 0 <= j < |tries| && c in Chunks(tries[i := Nil][j]);
      assert c in Chunks(tries[j]) && c in Binned(tries);
    }
  }

  lemma NewBinOk(h: map<nat, Head>, m: Links, treemap: nat, i: nat, x: nat, s: nat)
    requires x != 0 && x in h && h[x].size == s && InBin(s, i) && s < TWO40 && i < BINS && Bit(treemap, i)
    requires Get(m.left, x) == 0 && Get(m.right, x) == 0 && Get(m.parent, x) != 0
    requires Get(m.fd, x) == x && Get(m.bk, x) == x && Get(m.index, x) == i
    ensures BinOk(h, m, x, treemap, Node(s, [x], Nil, Nil), i)
  {
    NewLeaf(x, s, i, m);
    BinRange(s, i);
    assert Chunks(Node(s, [x], Nil, Nil)) == {Chunk(x, s)};
  }

  function Rooted(m: Links, x: nat, i: nat): Links {
    Links(m.left[x := 0], m.right[x := 0], m.parent[x := x], m.fd[x := x], m.bk[x := x], m.index[x := i])
  }

  lemma RootedSame(m: Links, x: nat, i: nat, a: nat)
    requires a != x
    ensures SameAt(m, Rooted(m, x, i), a)
  {
  }

  lemma NewBin(
    h: map<nat, Head>, m: Links, m': Links, roots: seq<nat>, treemap: nat, tries: seq<Trie>, i: nat, x: nat, s: nat)
    requires Inserts(h, m, roots, treemap, tries, i, x, s) && tries[i].Nil? && m' == Rooted(m, x, i)
    ensures BinsOk(h, m', roots[i := x], Mark(treemap, i), tries[i := Insert(tries[i], x, s, BinLo(i), BinBits(i))])
  {
    var treemap', t' := Mark(treemap, i), Node(s, [x], Nil, Nil);
    MarkBelow(treemap, i, BINS);
    forall j: nat | j < BINS
      ensures Bit(treemap', j) <==> Bit(treemap, j) || j == i
    {
      MarkBit(treemap, i, j);
    }
    NewBinOk(h, m', treemap', i, x, s);
    UnbinnedNil(tries, i, x);
    assert Addrs(t') == {x};
    forall a | a != x
      ensures SameAt(m, m', a)
    {
      RootedSame(m, x, i, a);
    }
    OneBin(h, m, m', roots, roots[i := x], treemap, treemap', tries, i, t', x);
  }
}
