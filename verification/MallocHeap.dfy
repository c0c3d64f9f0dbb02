/** The chunks of an mspace: they tile the segment from its first chunk to the
    top chunk, with boundary tags that agree with their neighbours. */
module MallocHeap {
  import opened MallocIndex
  import opened MallocTrie
  import opened TreeBins

  /** head holds size and in-use bits by chunk address, foot the size a free
      chunk leaves at its end. prev and chunks are bookkeeping: the chunk before,
      and where chunks start. */
  datatype Heap = Heap(
    head: map<nat, Head>, foot: map<nat, nat>, prev: map<nat, nat>, chunks: set<nat>, first: nat, top: nat)

  function SizeOf(h: Heap, a: nat): nat {
    if a in h.head then h.head[a].size else 0
  }

  predicate Used(h: Heap, a: nat) {
    a in h.head && h.head[a].cinuse
  }

  predicate PrevUsed(h: Heap, a: nat) {
    a in h.head && h.head[a].pinuse
  }

  function End(h: Heap, a: nat): nat {
    a + SizeOf(h, a)
  }

  ghost predicate IsChunk(h: Heap, a: nat) {
    a in h.chunks || a == h.top
  }

  /** a is laid out as a chunk and linked to the one after it. */
  ghost predicate Shape(h: Heap, a: nat) {
    && a in h.head && a % 8 == 0 && SizeOf(h, a) % 8 == 0 && SizeOf(h, a) >= MIN_CHUNK
    && h.first <= a && End(h, a) <= h.top
    && IsChunk(h, End(h, a)) && End(h, a) in h.prev && h.prev[End(h, a)] == a
  }

  /** What comes before a, and that a's bit says whether it is in use. */
  ghost predicate Before(h: Heap, a: nat) {
    if a == h.first then PrevUsed(h, a)
    else
      && a in h.prev && h.prev[a] in h.chunks && End(h, h.prev[a]) == a
      && (PrevUsed(h, a) <==> Used(h, h.prev[a]))
  }

  /** A free chunk records its size at its end, and what follows is in use. */
  ghost predicate FreeTag(h: Heap, a: nat) {
    var e := End(h, a);
    !Used(h, a) ==> e in h.foot && h.foot[e] == SizeOf(h, a) && e != h.top && Used(h, e)
  }

  ghost predicate ChunkOk(h: Heap, a: nat) {
    Shape(h, a) && Before(h, a) && FreeTag(h, a)
  }

  ghost predicate Apart(h: Heap, a: nat, b: nat) {
    a < b ==> End(h, a) <= b
  }

  ghost predicate TopOk(h: Heap) {
    && h.top in h.head && h.top % 8 == 0 && h.first <= h.top && 0 < h.first
    && !Used(h, h.top) && PrevUsed(h, h.top) && Before(h, h.top) && h.top !in h.chunks
    && (h.first in h.chunks || h.first == h.top)
  }

  /** The whole heap */
  ghost predicate HeapOk(h: Heap) {
    && TopOk(h)
    && (forall a {:trigger ChunkOk(h, a)} :: a in h.chunks ==> ChunkOk(h, a))
    && (forall a, b {:trigger Apart(h, a, b)} :: a in h.chunks && b in h.chunks ==> Apart(h, a, b))
  }

  lemma BelowTop(h: Heap)
    requires HeapOk(h)
    ensures forall a :: a in h.chunks ==> 0 < h.first <= a && a + MIN_CHUNK <= End(h, a) <= h.top
  {
    forall a | a in h.chunks
      ensures 0 < h.first <= a && a + MIN_CHUNK <= End(h, a) <= h.top
    {
      assert ChunkOk(h, a);
    }
  }

  lemma NoneInside(h: Heap, p: nat)
    requires HeapOk(h) && p in h.chunks
    ensures forall a :: a in h.chunks ==> a <= p || End(h, p) <= a
  {
    forall a | a in h.chunks
      ensures a <= p || End(h, p) <= a
    {
      assert Apart(h, p, a);
    }
  }

  // ---------------------------------------------------------------- coalescing

  /** The chunks from q up to e become one free chunk. */
  ghost predicate Merged(h: Heap, h': Heap, q: nat, e: nat) {
    && q in h.chunks && e in h.chunks && q < e
    && h'.first == h.first && h'.top == h.top
    && h'.chunks == (set a | a in h.chunks && (a <= q || e <= a))
    && e in h.head && q in h'.head && h'.head[q] == Head(e - q, true, false)
    && e in h'.head && h'.head[e] == h.head[e].(pinuse := false)
    && (forall a :: a in h.head && a != q && a != e ==> a in h'.head && h'.head[a] == h.head[a])
    && h'.foot == h.foot[e := e - q] && h'.prev == h.prev[e := q]
  }

  lemma MergedChunk(h: Heap, h': Heap, q: nat, e: nat, a: nat)
    requires HeapOk(h) && Merged(h, h', q, e) && PrevUsed(h, q) && Used(h, e)
    requires (e - q) % 8 == 0 && e - q >= MIN_CHUNK && a in h'.chunks
    ensures ChunkOk(h', a)
  {
    assert ChunkOk(h, a) && ChunkOk(h, q) && ChunkOk(h, e);
    assert Apart(h, a, q) && Apart(h, a, e) && Apart(h, q, a) && Apart(h, e, a);
    if a != h.first {
      var p := h.prev[a];
      assert ChunkOk(h, p) && Apart(h, p, e) && Apart(h, p, q);
    }
  }

  lemma MergeKeeps(h: Heap, h': Heap, q: nat, e: nat)
    requires HeapOk(h) && Merged(h, h', q, e) && PrevUsed(h, q) && Used(h, e)
    requires (e - q) % 8 == 0 && e - q >= MIN_CHUNK
    ensures HeapOk(h')
  {
    forall a | a in h'.chunks
      ensures ChunkOk(h', a)
    {
      MergedChunk(h, h', q, e, a);
    }
    forall a, b | a in h'.chunks && b in h'.chunks
      ensures Apart(h', a, b)
    {
      assert ChunkOk(h, a) && Apart(h, a, b);
    }
    assert ChunkOk(h, q) && ChunkOk(h, e);
    if h.top != h.first {
      var p := h.prev[h.top];
      assert ChunkOk(h, p) && Apart(h, p, e) && Apart(h, q, p);
    }
  }

  /** The chunks from q on become part of the top chunk. */
  ghost predicate MergedTop(h: Heap, h': Heap, q: nat) {
    && q in h.chunks
    && h'.first == h.first && h'.top == q
    && h'.chunks == (set a | a in h.chunks && a < q)
    && q in h'.head && h'.head[q].pinuse && !h'.head[q].cinuse
    && (forall a :: a in h.head && a != q ==> a in h'.head && h'.head[a] == h.head[a])
    && h'.foot == h.foot && h'.prev == h.prev
  }

  lemma MergedTopChunk(h: Heap, h': Heap, q: nat, a: nat)
    requires HeapOk(h) && MergedTop(h, h', q) && PrevUsed(h, q) && a in h'.chunks
    ensures ChunkOk(h', a)
  {
    assert ChunkOk(h, q) && ChunkOk(h, a) && Apart(h, a, q);
    if a != h.first {
      var p := h.prev[a];
      assert ChunkOk(h, p) && Apart(h, p, q);
    }
  }

  lemma MergeTopKeeps(h: Heap, h': Heap, q: nat)
    requires HeapOk(h) && MergedTop(h, h', q) && PrevUsed(h, q)
    ensures HeapOk(h')
  {
    assert ChunkOk(h, q);
    forall a | a in h'.chunks
      ensures ChunkOk(h', a)
    {
      MergedTopChunk(h, h', q, a);
    }
    forall a, b | a in h'.chunks && b in h'.chunks
      ensures Apart(h', a, b)
    {
      assert ChunkOk(h, a) && Apart(h, a, b);
    }
    if q != h.first {
      var p := h.prev[q];
      assert ChunkOk(h, p) && Apart(h, p, q);
    }
  }

  // ------------------------------------------------------------------ allocating

  /** The free chunk p is used as it is. */
  ghost predicate Taken(h: Heap, h': Heap, p: nat) {
    var e := End(h, p);
    && p in h.chunks && e in h.head && p in h.head
    && h' == h.(head := h.head[p := Head(SizeOf(h, p), true, true)][e := h.head[e].(pinuse := true)])
  }

  lemma TakeKeeps(h: Heap, h': Heap, p: nat)
    requires HeapOk(h) && p in h.chunks && !Used(h, p) && Taken(h, h', p)
    ensures HeapOk(h')
  {
    var e := End(h, p);
    assert ChunkOk(h, p);
    forall a | a in h'.chunks
      ensures ChunkOk(h', a)
    {
      assert ChunkOk(h, a);
      FreeNeighbours(h, a);
      FreeNeighbours(h, p);
    }
    forall a, b | a in h'.chunks && b in h'.chunks
      ensures Apart(h', a, b)
    {
      assert Apart(h, a, b);
    }
    FreeNeighbours(h, p);
  }

  /** Around a free chunk everything is in use. */
  lemma FreeNeighbours(h: Heap, a: nat)
    requires HeapOk(h) && a in h.chunks
    ensures ChunkOk(h, a)
    ensures !Used(h, a) ==> PrevUsed(h, a) && End(h, a) in h.chunks && Used(h, End(h, a)) && !PrevUsed(h, End(h, a))
  {
    assert ChunkOk(h, a);
    if !Used(h, a) {
      var e := End(h, a);
      assert ChunkOk(h, e);
      if a != h.first {
        assert ChunkOk(h, h.prev[a]);
      }
    }
  }

  /** The first nb bytes of the free chunk p are used, the rest stays free. */
  ghost predicate Carved(h: Heap, h': Heap, p: nat, nb: nat) {
    var e, r := End(h, p), p + nb;
    && p in h.chunks && p in h.head && r < e
    && h' == h.(head := h.head[p := Head(nb, true, true)][r := Head(e - r, true, false)],
                foot := h.foot[e := e - r], prev := h.prev[r := p][e := r], chunks := h.chunks + {r})
  }

  lemma CarveKeeps(h: Heap, h': Heap, p: nat, nb: nat)
    requires HeapOk(h) && p in h.chunks && !Used(h, p) && Carved(h, h', p, nb)
    requires nb % 8 == 0 && nb >= MIN_CHUNK && SizeOf(h, p) - nb >= MIN_CHUNK
    ensures HeapOk(h')
  {
    var e, r := End(h, p), p + nb;
    FreeNeighbours(h, p);
    NoneInside(h, p);
    forall a | a in h'.chunks
      ensures ChunkOk(h', a)
    {
      CarvedChunk(h, h', p, nb, a);
    }
    forall a, b | a in h'.chunks && b in h'.chunks
      ensures Apart(h', a, b)
    {
      CarvedApart(h, h', p, nb, a, b);
    }
  }

  lemma CarvedApart(h: Heap, h': Heap, p: nat, nb: nat, a: nat, b: nat)
    requires HeapOk(h) && p in h.chunks && Carved(h, h', p, nb) && a in h'.chunks && b in h'.chunks
    requires forall x :: x in h.chunks ==> x <= p || End(h, p) <= x
    ensures Apart(h', a, b)
  {
    var r := p + nb;
    if a != r && b != r {
      assert ChunkOk(h, a) && Apart(h, a, b);
    } else if a == r && b != r {
      assert Apart(h, p, b);
    } else if b == r && a != r {
      assert ChunkOk(h, a) && Apart(h, a, p);
    }
  }

  lemma CarvedChunk(h: Heap, h': Heap, p: nat, nb: nat, a: nat)
    requires HeapOk(h) && p in h.chunks && !Used(h, p) && Carved(h, h', p, nb) && a in h'.chunks
    requires nb % 8 == 0 && nb >= MIN_CHUNK && SizeOf(h, p) - nb >= MIN_CHUNK
    requires forall x :: x in h.chunks ==> x <= p || End(h, p) <= x
    ensures ChunkOk(h', a)
  {
    var e, r := End(h, p), p + nb;
    FreeNeighbours(h, p);
    if a != r {
      assert ChunkOk(h, a);
      assert Apart(h, a, p);
      if a != h.first {
        assert ChunkOk(h, h.prev[a]);
      }
    }
  }

  /** The first nb bytes of the top chunk are used. */
  ghost predicate TopSplit(h: Heap, h': Heap, nb: nat) {
    var p, r := h.top, h.top + nb;
    && h'.first == h.first && h'.top == r && h'.chunks == h.chunks + {p}
    && p in h'.head && h'.head[p] == Head(nb, true, true)
    && r in h'.head && h'.head[r].pinuse && !h'.head[r].cinuse
    && (forall a :: a in h.head && a != p && a != r ==> a in h'.head && h'.head[a] == h.head[a])
    && h'.foot == h.foot && h'.prev == h.prev[r := p]
  }

  lemma TopSplitChunk(h: Heap, h': Heap, nb: nat, a: nat)
    requires HeapOk(h) && TopSplit(h, h', nb) && nb % 8 == 0 && nb >= MIN_CHUNK && a in h'.chunks
    ensures ChunkOk(h', a)
  {
    if a != h.top {
      assert ChunkOk(h, a);
    }
    if a != h.first {
      assert ChunkOk(h, h.prev[a]);
    }
  }

  lemma TopSplitApart(h: Heap, h': Heap, nb: nat, a: nat, b: nat)
    requires HeapOk(h) && TopSplit(h, h', nb) && a in h'.chunks && b in h'.chunks
    ensures Apart(h', a, b)
  {
    if a != h.top {
      assert ChunkOk(h, a);
    }
    if b != h.top {
      assert ChunkOk(h, b);
    }
    if a != h.top && b != h.top {
      assert Apart(h, a, b);
    }
  }

  lemma TopSplitKeeps(h: Heap, h': Heap, nb: nat)
    requires HeapOk(h) && TopSplit(h, h', nb) && nb % 8 == 0 && nb >= MIN_CHUNK
    ensures HeapOk(h')
  {
    forall a | a in h'.chunks
      ensures ChunkOk(h', a)
    {
      TopSplitChunk(h, h', nb, a);
    }
    forall a, b | a in h'.chunks && b in h'.chunks
      ensures Apart(h', a, b)
    {
      TopSplitApart(h, h', nb, a, b);
    }
    TopSplitTop(h, h', nb);
  }

  lemma TopSplitTop(h: Heap, h': Heap, nb: nat)
    requires HeapOk(h) && TopSplit(h, h', nb) && nb % 8 == 0 && nb >= MIN_CHUNK
    ensures TopOk(h')
  {
    BelowTop(h);
  }

  // -------------------------------------------------------------- live and free

  /** Address and size of every chunk in use */
  ghost function Live(h: Heap): map<nat, nat> {
    map a | a in h.chunks && Used(h, a) :: SizeOf(h, a)
  }

  ghost function Free(h: Heap): set<Chunk> {
    set a | a in h.chunks && !Used(h, a) :: Chunk(a, SizeOf(h, a))
  }

  lemma FreeHas(h: Heap, c: Chunk)
    ensures c in Free(h) <==> c.at in h.chunks && !Used(h, c.at) && SizeOf(h, c.at) == c.size
  {
  }

  lemma TakeMoves(h: Heap, h': Heap, p: nat)
    requires HeapOk(h) && p in h.chunks && !Used(h, p) && Taken(h, h', p)
    ensures p !in Live(h) && Live(h') == Live(h)[p := SizeOf(h, p)]
    ensures Free(h') == Free(h) - {Chunk(p, SizeOf(h, p))}
  {
    FreeNeighbours(h, p);
  }

  lemma CarveMoves(h: Heap, h': Heap, p: nat, nb: nat)
    requires HeapOk(h) && p in h.chunks && !Used(h, p) && Carved(h, h', p, nb) && nb > 0
    ensures p !in Live(h) && Live(h') == Live(h)[p := nb]
    ensures Free(h') == Free(h) - {Chunk(p, SizeOf(h, p))} + {Chunk(p + nb, SizeOf(h, p) - nb)}
    ensures p + nb !in h.chunks
  {
    FreeNeighbours(h, p);
    NoneInside(h, p);
  }

  lemma TopSplitMoves(h: Heap, h': Heap, nb: nat)
    requires HeapOk(h) && TopSplit(h, h', nb) && nb > 0
    ensures h.top !in Live(h) && Live(h') == Live(h)[h.top := nb] && Free(h') == Free(h)
  {
    BelowTop(h);
    forall a | a in h.chunks
      ensures SameChunk(h, h', a) && a < h.top
    {
      assert ChunkOk(h, a);
    }
    assert !Used(h, h.top) && Used(h', h.top) && SizeOf(h', h.top) == nb;
  }

  ghost predicate SameChunk(h: Heap, h': Heap, a: nat) {
    a in h'.chunks && SizeOf(h', a) == SizeOf(h, a) && (Used(h', a) <==> Used(h, a))
  }

  /** Freeing p may reach back over a free chunk before it and forward over one
      after it: from q to e. */
  ghost predicate Reach(h: Heap, p: nat, q: nat, e: nat) {
    && p in h.chunks && Used(h, p)
    && (if PrevUsed(h, p) then q == p else p in h.prev && q == h.prev[p])
    && (if End(h, p) != h.top && !Used(h, End(h, p)) then e == End(h, End(h, p)) else e == End(h, p))
  }

  /** Nothing but p and its free neighbours lies between q and e. */
  lemma ReachIs(h: Heap, p: nat, q: nat, e: nat)
    requires HeapOk(h) && Reach(h, p, q, e)
    ensures q in h.chunks && PrevUsed(h, q) && q <= p < e && (e - q) % 8 == 0 && e - q >= MIN_CHUNK
    ensures q != p ==> !Used(h, q) && End(h, q) == p && p in h.foot && h.foot[p] == p - q
    ensures e == h.top || (e in h.chunks && Used(h, e))
    ensures forall a :: a in h.chunks && q <= a < e ==> a == q || a == p || (a == End(h, p) && !Used(h, a))
  {
    var n := End(h, p);
    ReachBack(h, p, q);
    ReachAhead(h, p, n, e);
    forall a | a in h.chunks && q <= a < e
      ensures a == q || a == p || (a == n && !Used(h, a))
    {
      ReachHas(h, p, q, e, n, a);
    }
  }

  lemma ReachBack(h: Heap, p: nat, q: nat)
    requires HeapOk(h) && p in h.chunks && Used(h, p)
    requires if PrevUsed(h, p) then q == p else p in h.prev && q == h.prev[p]
    ensures q in h.chunks && PrevUsed(h, q) && q <= p && (p - q) % 8 == 0
    ensures q != p ==> !Used(h, q) && End(h, q) == p && p in h.foot && h.foot[p] == p - q
  {
    assert ChunkOk(h, p);
    if q != p {
      FreeNeighbours(h, q);
    }
  }

  lemma ReachAhead(h: Heap, p: nat, n: nat, e: nat)
    requires HeapOk(h) && p in h.chunks && n == End(h, p)
    requires if n != h.top && !Used(h, n) then e == End(h, n) else e == n
    ensures p + MIN_CHUNK <= n <= e && (e - p) % 8 == 0 && (n == h.top || n in h.chunks)
    ensures e == h.top || (e in h.chunks && Used(h, e))
  {
    assert ChunkOk(h, p);
    if n in h.chunks {
      FreeNeighbours(h, n);
    }
  }

  lemma ReachHas(h: Heap, p: nat, q: nat, e: nat, n: nat, a: nat)
    requires HeapOk(h) && p in h.chunks && q in h.chunks && n == End(h, p) && a in h.chunks && q <= a < e
    requires q == p || End(h, q) == p
    requires if n != h.top && !Used(h, n) then n in h.chunks && e == End(h, n) else e == n
    ensures a == q || a == p || (a == n && !Used(h, a))
  {
    assert Apart(h, q, a) && Apart(h, p, a) && (n in h.chunks ==> Apart(h, n, a));
  }

  /** The free chunks a merge swallows */
  ghost function Swallowed(h: Heap, q: nat, e: nat): set<Chunk> {
    set a | a in h.chunks && !Used(h, a) && q <= a < e :: Chunk(a, SizeOf(h, a))
  }

  lemma MergeMoves(h: Heap, h': Heap, p: nat, q: nat, e: nat)
    requires HeapOk(h) && Reach(h, p, q, e) && Merged(h, h', q, e)
    ensures p in Live(h) && Live(h') == Live(h) - {p}
    ensures Free(h') == Free(h) - Swallowed(h, q, e) + {Chunk(q, e - q)}
  {
    ReachIs(h, p, q, e);
    forall a | a in h.chunks && (a < q || e <= a)
      ensures SameChunk(h, h', a)
    {
      assert ChunkOk(h, a);
    }
    assert !Used(h', q) && SizeOf(h', q) == e - q;
    assert forall a :: a in h'.chunks ==> a in h.chunks && (a == q || a < q || e <= a);
  }

  lemma MergeTopMoves(h: Heap, h': Heap, p: nat, q: nat)
    requires HeapOk(h) && Reach(h, p, q, h.top) && MergedTop(h, h', q)
    ensures p in Live(h) && Live(h') == Live(h) - {p}
    ensures Free(h') == Free(h) - Swallowed(h, q, h.top)
  {
    ReachIs(h, p, q, h.top);
    BelowTop(h);
    forall a | a in h.chunks && a < q
      ensures SameChunk(h, h', a)
    {
      assert ChunkOk(h, a);
    }
    assert forall a :: a in h'.chunks ==> a in h.chunks && a < q;
  }

  // --------------------------------------------------------------------- totals

  /** The sum of a finite map's values */
  ghost function Total(m: map<nat, nat>): nat
    decreases |m|
  {
    if m == map[] then 0
    else
      var a :| a in m;
      m[a] + Total(m - {a})
  }

  lemma {:induction false} TotalSplit(m: map<nat, nat>, a: nat)
    requires a in m
    ensures Total(m) == m[a] + Total(m - {a})
    decreases |m|
  {
    var b :| b in m && Total(m) == m[b] + Total(m - {b});
    if a != b {
      TotalSplit(m - {b}, a);
      TotalSplit(m - {a}, b);
      assert m - {a} - {b} == m - {b} - {a};
    }
  }

  lemma TotalAdd(m: map<nat, nat>, a: nat, s: nat)
    requires a !in m
    ensures Total(m[a := s]) == Total(m) + s
  {
    TotalSplit(m[a := s], a);
    assert m[a := s] - {a} == m;
  }
}
