/** Why the search of a tree bin ends at the best fit: every chunk is too small,
    no better than the best seen, or no better than one still to be looked at. */
module BestFit {
  import opened Bits
  import opened MallocIndex
  import opened MallocTrie

  /** Unsigned 64-bit subtraction */
  function Sub64(a: nat, b: nat): nat
    requires a < WORD && b < WORD
  {
    if a >= b then a - b else a + WORD - b
  }

  /** v fits best so far with rsize to spare; before any fit rsize is -nb. */
  ghost predicate Candidate(all: set<Chunk>, nb: nat, v: nat, rsize: nat) {
    && 0 < nb < WORD
    && if v == 0 then rsize == WORD - nb else rsize < WORD - nb && Chunk(v, nb + rsize) in all
  }

  /** A chunk that needs no more looking at: too small, no better than v, or no
      better than one of the fitting chunks in `left` */
  ghost predicate Settled(c: Chunk, nb: nat, v: nat, rsize: nat, left: set<Chunk>) {
    || c.size < nb
    || (v != 0 && nb + rsize <= c.size)
    || (exists d :: d in left && nb <= d.size <= c.size)
  }

  ghost predicate AllSettled(all: set<Chunk>, nb: nat, v: nat, rsize: nat, left: set<Chunk>) {
    forall c :: c in all ==> Settled(c, nb, v, rsize, left)
  }

  /** With nothing left to look at, v is the least chunk that fits. */
  lemma LeastFit(all: set<Chunk>, nb: nat, v: nat, rsize: nat)
    requires Candidate(all, nb, v, rsize) && AllSettled(all, nb, v, rsize, {})
    ensures v == 0 ==> forall c :: c in all ==> c.size < nb
    ensures v != 0 ==> Chunk(v, nb + rsize) in all && (forall c :: c in all && c.size >= nb ==> nb + rsize <= c.size)
  {
    forall c | c in all && c.size >= nb
      ensures v != 0 && nb + rsize <= c.size
    {
      assert Settled(c, nb, v, rsize, {});
    }
  }

  // ------------------------------------------------------------- one visit

  /** Taking the node's first chunk if it fits better */
  function VisitV(t: Trie, nb: nat, v: nat, rsize: nat): nat
    requires t.Node? && t.size < WORD && nb < WORD
  {
    if Sub64(t.size, nb) < rsize && t.ring != [] then t.ring[0] else v
  }

  function VisitR(t: Trie, nb: nat, rsize: nat): nat
    requires t.Node? && t.size < WORD && nb < WORD
  {
    if Sub64(t.size, nb) < rsize then Sub64(t.size, nb) else rsize
  }

  lemma Visit(all: set<Chunk>, t: Trie, nb: nat, v: nat, rsize: nat)
    requires t.Node? && t.ring != [] && t.ring[0] != 0 && t.size < WORD && Chunk(t.ring[0], t.size) in all
    requires Candidate(all, nb, v, rsize)
    ensures var v', rsize' := VisitV(t, nb, v, rsize), VisitR(t, nb, rsize);
      && Candidate(all, nb, v', rsize') && rsize' <= rsize && (v != 0 ==> v' != 0)
      && (t.size >= nb ==> v' != 0 && nb + rsize' <= t.size)
  {
  }

  /** After a visit, chunks of the node's size need no more looking at. */
  lemma VisitSettles(all: set<Chunk>, t: Trie, nb: nat, v: nat, rsize: nat, left: set<Chunk>, left': set<Chunk>)
    requires t.Node? && t.ring != [] && t.ring[0] != 0 && t.size < WORD && Chunk(t.ring[0], t.size) in all
    requires Candidate(all, nb, v, rsize) && AllSettled(all, nb, v, rsize, left)
    requires forall d :: d in left && d.size >= nb && d.size != t.size ==>
               exists e :: e in left' && nb <= e.size <= d.size
    ensures AllSettled(all, nb, VisitV(t, nb, v, rsize), VisitR(t, nb, rsize), left')
  {
    var v', rsize' := VisitV(t, nb, v, rsize), VisitR(t, nb, rsize);
    Visit(all, t, nb, v, rsize);
    forall c | c in all
      ensures Settled(c, nb, v', rsize', left')
    {
      assert Settled(c, nb, v, rsize, left);
      if c.size >= nb && !(v' != 0 && nb + rsize' <= c.size) {
        var d :| d in left && nb <= d.size <= c.size;
        var e :| e in left' && nb <= e.size <= d.size;
      }
    }
  }

  // ------------------------------------------------------------ leftmost descent

  function LeftmostChild(t: Trie): Trie
    requires t.Node?
  {
    if t.l.Node? then t.l else t.r
  }

  lemma SomeChunk(t: Trie) returns (c: Chunk)
    requires t.Node? && t.ring != []
    ensures c in Chunks(t) && c.size == t.size
  {
    RingHas(t.ring, t.size, t.ring[0]);
    c := Chunk(t.ring[0], t.size);
  }

  /** Whatever else is in t, something at least as small is down the leftmost
      path. */
  lemma LeftmostCovers(t: Trie, lo: nat, b: nat, d: Chunk) returns (e: Chunk)
    requires Sound(t, lo, b) && t.Node? && d in Chunks(t) && d.size != t.size
    ensures e in Chunks(LeftmostChild(t)) && e.size <= d.size
  {
    SideOf(t, d, lo, b);
    if d in Chunks(t.l) || t.l.Nil? {
      e := d;
    } else {
      e := SomeChunk(t.l);
    }
  }

  /** One step of the leftmost descent through a trie whose chunks all fit. */
  lemma LeftmostStep(all: set<Chunk>, t: Trie, lo: nat, b: nat, nb: nat, v: nat, rsize: nat)
    requires Sound(t, lo, b) && t.Node? && t.ring[0] != 0 && t.size < WORD && Chunk(t.ring[0], t.size) in all
    requires Candidate(all, nb, v, rsize) && AllSettled(all, nb, v, rsize, Chunks(t))
    requires Hunting(all, nb, v, rsize, Chunks(t))
    ensures var v', rsize' := VisitV(t, nb, v, rsize), VisitR(t, nb, rsize);
      && Candidate(all, nb, v', rsize') && AllSettled(all, nb, v', rsize', Chunks(LeftmostChild(t)))
      && Hunting(all, nb, v', rsize', Chunks(LeftmostChild(t)))
  {
    Visit(all, t, nb, v, rsize);
    if forall d :: d in Chunks(t) ==> nb <= d.size {
      forall d | d in Chunks(t) && d.size >= nb && d.size != t.size
        ensures exists e :: e in Chunks(LeftmostChild(t)) && nb <= e.size <= d.size
      {
        var e := LeftmostCovers(t, lo, b, d);
        assert e in Chunks(t);
      }
      VisitSettles(all, t, nb, v, rsize, Chunks(t), Chunks(LeftmostChild(t)));
    } else {
      forall c | c in all
        ensures Settled(c, nb, VisitV(t, nb, v, rsize), VisitR(t, nb, rsize), Chunks(LeftmostChild(t)))
      {
        assert Settled(c, nb, v, rsize, Chunks(t));
      }
    }
  }

  // -------------------------------------------------------------- exact descent

  /** The child on nb's side, and the deepest right subtree passed by so far */
  function NextCur(t: Trie, right: bool): Trie
    requires t.Node?
  {
    if right then t.r else t.l
  }

  function NextRst(t: Trie, rst: Trie, right: bool): Trie
    requires t.Node?
  {
    if !right && t.r.Node? then t.r else rst
  }

  ghost predicate AtLeast(t: Trie, s: nat) {
    forall c :: c in Chunks(t) ==> c.size >= s
  }

  /** Where a fitting chunk of t or rst is covered after one step down */
  lemma StepCovers(t: Trie, rst: Trie, lo: nat, b: nat, nb: nat, d: Chunk) returns (e: Chunk)
    requires Sound(t, lo, b) && t.Node? && b > 0 && lo <= nb < lo + Pow2(b) && AtLeast(rst, lo + Pow2(b))
    requires d in Chunks(t) + Chunks(rst) && d.size >= nb && d.size != t.size
    ensures var right := nb >= lo + Pow2(b - 1);
      e in Chunks(NextCur(t, right)) + Chunks(NextRst(t, rst, right)) && nb <= e.size <= d.size
  {
    var right := nb >= lo + Pow2(b - 1);
    e := d;
    if d in Chunks(t) {
      SideOf(t, d, lo, b);
    } else if !right && t.r.Node? {
      e := SomeChunk(t.r);
    }
  }

  lemma ExactSettles(
    all: set<Chunk>, t: Trie, rst: Trie, lo: nat, b: nat, nb: nat, v: nat, rsize: nat, left': set<Chunk>)
    requires Sound(t, lo, b) && t.Node? && t.ring[0] != 0 && t.size < WORD && Chunk(t.ring[0], t.size) in all
    requires b > 0 && lo <= nb < lo + Pow2(b) && AtLeast(rst, lo + Pow2(b))
    requires Candidate(all, nb, v, rsize) && AllSettled(all, nb, v, rsize, Chunks(t) + Chunks(rst))
    requires var right := nb >= lo + Pow2(b - 1); left' == Chunks(NextCur(t, right)) + Chunks(NextRst(t, rst, right))
    ensures AllSettled(all, nb, VisitV(t, nb, v, rsize), VisitR(t, nb, rsize), left')
  {
    var left := Chunks(t) + Chunks(rst);
    forall d | d in left && d.size >= nb && d.size != t.size
      ensures exists e :: e in left' && nb <= e.size <= d.size
    {
      var e := StepCovers(t, rst, lo, b, nb, d);
    }
    VisitSettles(all, t, nb, v, rsize, left, left');
  }

  lemma ExactBounds(t: Trie, rst: Trie, lo: nat, b: nat, nb: nat)
    requires Sound(t, lo, b) && t.Node? && b > 0 && lo <= nb < lo + Pow2(b) && AtLeast(rst, lo + Pow2(b))
    ensures var right := nb >= lo + Pow2(b - 1);
      var lo' := if right then lo + Pow2(b - 1) else lo;
      && AtLeast(NextRst(t, rst, right), lo' + Pow2(b - 1)) && lo' <= nb < lo' + Pow2(b - 1)
      && Sound(NextCur(t, right), lo', b - 1)
  {
    SoundWithin(t.r, lo + Pow2(b - 1), b - 1);
  }

  /** Nothing needs looking at once an exact fit is found, or if nothing fits. */
  lemma TriviallySettled(all: set<Chunk>, nb: nat, v: nat, rsize: nat, left: set<Chunk>)
    requires (v != 0 && rsize == 0) || (forall c :: c in all ==> c.size < nb)
    ensures AllSettled(all, nb, v, rsize, left)
  {
  }

  /** The remaining trie, if it matters at all, holds only chunks that fit. */
  ghost predicate Hunting(all: set<Chunk>, nb: nat, v: nat, rsize: nat, left: set<Chunk>) {
    || (v != 0 && rsize == 0)
    || (nb >= TWO40 && forall c :: c in all ==> c.size < nb)
    || (forall d :: d in left ==> nb <= d.size)
  }
}
