/** An mspace over one fixed segment: mspace_malloc and mspace_free. */
module MSpaces {
  import opened Bits
  import opened BinMaps
  import opened MallocIndex
  import opened MallocTrie
  import opened MallocTree
  import opened BestFit
  import opened TreeBins
  import opened SmallBins
  import opened MallocHeap

  const MIN_REQUEST: nat := 23
  const MAX_SMALL_REQUEST: nat := 240
  const MAX_REQUEST: nat := WORD - 128

  /** pad_request: room for the head, rounded up to a multiple of 8 */
  function PadRequest(bytes: nat): nat {
    bytes + 15 - (bytes + 15) % 8
  }

  /** The head word `psize | PINUSE_BIT` of a top chunk, read back as size and bits */
  function TopHead(psize: nat): Head {
    Head(psize - psize % 8, true, psize / 2 % 2 == 1)
  }

  /** The tags after nb bytes have been cut off a top chunk of topsize bytes */
  ghost function CutTags(h: Heap, nb: nat, topsize: nat): Heap
    requires nb <= topsize
  {
    var p, r := h.top, h.top + nb;
    h.(head := h.head[r := TopHead(topsize - nb)][p := Head(nb, true, true)],
       prev := h.prev[r := p], chunks := h.chunks + {p}, top := r)
  }

  /** The tags after the chunks from q up to e have become one free chunk; e is
      told unless it knows already */
  ghost function FreeTags(h: Heap, q: nat, e: nat, known: bool): Heap
    requires q <= e && e in h.head
  {
    var head := if known then h.head else h.head[e := h.head[e].(pinuse := false)];
    h.(head := head[q := Head(e - q, true, false)], foot := h.foot[e := e - q], prev := h.prev[e := q],
       chunks := set a | a in h.chunks && (a <= q || e <= a))
  }

  /** Multiples of 8 do not touch the bits below. */
  lemma ParityKept(s: nat, nb: nat)
    requires nb % 8 == 0 && nb <= s
    ensures (s - nb) / 2 % 2 == s / 2 % 2
  {
    GrownParity(s - nb, nb);
  }

  lemma GrownParity(s: nat, more: nat)
    requires more % 8 == 0
    ensures (s + more) / 2 % 2 == s / 2 % 2
  {
    var k := more / 8;
    assert (s + more) / 2 == s / 2 + 2 * (2 * k);
  }

  /** Chunk c is taken out and its rest r put in, on both sides of the equation. */
  lemma SplitSets(free: set<Chunk>, free': set<Chunk>, bins: set<Chunk>, d: Chunk, c: Chunk, r: Chunk)
    requires bins == free - {d} - {c} && free' == free - {c} + {r} && r !in free
    ensures bins == free' - {d} - {r}
  {
  }

  lemma Rebinned(free: set<Chunk>, bins: set<Chunk>, d: Chunk, r: Chunk)
    requires bins == free - {d} - {r} && r in free && r != d
    ensures bins + {r} == free - {d}
  {
  }

  /** The bins hold every free chunk but the designated victim. */
  ghost predicate Consistent(h: Heap, bins: set<Chunk>, dv: nat, dvsize: nat) {
    && (dvsize == 0 ==> dv == 0)
    && (dvsize > 0 ==> Chunk(dv, dvsize) in Free(h))
    && bins == Free(h) - {Chunk(dv, dvsize)}
  }

  /** A heap with its designated victim, Chunk(0, 0) if there is none, and the size
      of its top chunk */
  datatype Space = Space(heap: Heap, dv: Chunk, topsize: nat)

  const NO_CHUNK := Chunk(0, 0)

  ghost function BinnedIn(s: Space): set<Chunk> {
    Free(s.heap) - {s.dv}
  }

  /** The binned chunk c goes before the designated victim: for a small request
      if it lies in the exact bin or the next one, for a large one if it is the
      smaller of the two; and always if the victim does not fit. */
  ghost predicate Prefers(s: Space, nb: nat, c: Chunk) {
    && c in BinnedIn(s) && c.size >= nb
    && (|| s.dv.size < nb
        || (if nb < MIN_LARGE then c.size <= nb + 8 && c.size < MIN_LARGE else c.size < s.dv.size))
  }

  ghost predicate Best(s: Space, nb: nat, c: Chunk) {
    c in BinnedIn(s) && c.size >= nb && forall d :: d in BinnedIn(s) && d.size >= nb ==> c.size <= d.size
  }

  /** The free chunk c has become live, all but the rest beyond nb bytes if that
      makes a chunk. */
  ghost predicate CutFrom(h: Heap, h': Heap, c: Chunk, nb: nat) {
    && c.at !in Live(h) && h'.top == h.top
    && if c.size >= nb + MIN_CHUNK then
         Live(h') == Live(h)[c.at := nb] && Free(h') == Free(h) - {c} + {Chunk(c.at + nb, c.size - nb)}
       else Live(h') == Live(h)[c.at := c.size] && Free(h') == Free(h) - {c}
  }

  /** A request for nb bytes: it is served by the least binned chunk that fits, if
      one goes before the designated victim; else by the victim; else by the top
      chunk; else not at all. The rest of a binned chunk becomes the designated
      victim if the request was small, and is binned otherwise. */
  ghost predicate Served(s: Space, s': Space, nb: nat, p: nat) {
    if exists c :: Prefers(s, nb, c) then
      var c := Chunk(p, SizeOf(s.heap, p));
      && Best(s, nb, c) && CutFrom(s.heap, s'.heap, c, nb) && s'.topsize == s.topsize
      && s'.dv == if nb < MIN_LARGE && c.size >= nb + MIN_CHUNK then Chunk(p + nb, c.size - nb) else s.dv
    else if nb <= s.dv.size then
      && p == s.dv.at && CutFrom(s.heap, s'.heap, s.dv, nb) && s'.topsize == s.topsize
      && s'.dv == if s.dv.size >= nb + MIN_CHUNK then Chunk(p + nb, s.dv.size - nb) else NO_CHUNK
    else if nb < s.topsize then
      && p == s.heap.top && s'.heap.top == p + nb && s'.topsize == s.topsize - nb && s'.dv == s.dv
      && p !in Live(s.heap) && Live(s'.heap) == Live(s.heap)[p := nb] && Free(s'.heap) == Free(s.heap)
    else p == 0 && s' == s
  }

  /** From q to e there is the chunk p with the free chunks that touch it. */
  ghost predicate Stretch(h: Heap, p: nat, q: nat, e: nat) {
    && (if q == p then forall c :: c in Free(h) ==> c.at + c.size != p else q < p && Chunk(q, p - q) in Free(h))
    && var n := End(h, p);
       if e == n then forall c :: c in Free(h) ==> c.at != n else n < e && Chunk(n, e - n) in Free(h)
  }

  /** What lies from q to e has become one free chunk, or part of the top chunk if
      it reaches up to it. If the designated victim lay there, the free chunk is
      the new one. */
  ghost predicate Joined(s: Space, s': Space, p: nat, q: nat, e: nat) {
    var rest := Free(s.heap) - Swallowed(s.heap, q, e);
    && Live(s'.heap) == Live(s.heap) - {p} && q < e
    && if e == s.heap.top then
         && Free(s'.heap) == rest && s'.heap.top == q && s'.topsize == s.topsize + (e - q)
         && s'.dv == if q <= s.dv.at < e then NO_CHUNK else s.dv
       else
         && Free(s'.heap) == rest + {Chunk(q, e - q)} && s'.heap.top == s.heap.top && s'.topsize == s.topsize
         && s'.dv == if q <= s.dv.at < e then Chunk(q, e - q) else s.dv
  }

  ghost predicate Released(s: Space, s': Space, p: nat) {
    exists q, e :: Stretch(s.heap, p, q, e) && Joined(s, s', p, q, e)
  }

  lemma TreesFrame(h: map<nat, Head>, h': map<nat, Head>, m: Links, roots: seq<nat>, treemap: nat, tries: seq<Trie>)
    requires BinsOk(h, m, roots, treemap, tries)
    requires forall c :: c in Binned(tries) ==> c.at in h' && h'[c.at].size == c.size
    ensures BinsOk(h', m, roots, treemap, tries)
  {
    forall i: nat | i < BINS
      ensures BinOk(h', m, roots[i], treemap, tries[i], i)
    {
      assert BinOk(h, m, roots[i], treemap, tries[i], i);
      forall c | c in Chunks(tries[i])
        ensures c.at in h' && h'[c.at].size == c.size
      {
        assert c in Binned(tries);
      }
    }
  }

  lemma ListsFrame(h: map<nat, Head>, h': map<nat, Head>, smallmap: nat, lists: seq<seq<nat>>)
    requires ListsOk(h, smallmap, lists)
    requires forall c :: c in Listed(lists) ==> c.at in h' && h'[c.at].size == c.size
    ensures ListsOk(h', smallmap, lists)
  {
    forall i: nat | i < BINS
      ensures ListOk(h', smallmap, lists[i], i)
    {
      assert ListOk(h, smallmap, lists[i], i);
      forall a | a in lists[i]
        ensures a in h' && h'[a].size == 8 * i
      {
        ListedHas(lists, i, a);
      }
    }
  }

  class MSpace {
    const first: nat
    const limit: nat
    const trees: Trees
    const smalls: Smalls
    var head: map<nat, Head>
    var foot: map<nat, nat>
    var dv: nat
    var dvsize: nat
    var top: nat
    var topsize: nat
    var exts: nat
    ghost var prev: map<nat, nat>
    ghost var chunks: set<nat>

    ghost function H(): Heap
      reads this`head, this`foot, this`prev, this`chunks, this`top
    {
      Heap(head, foot, prev, chunks, first, top)
    }

    ghost function Bins(): set<Chunk>
      reads trees, smalls
    {
      Binned(trees.tries) + Listed(smalls.lists)
    }

    ghost function Shape(): Space
      reads this`head, this`foot, this`prev, this`chunks, this`top, this`dv, this`dvsize, this`topsize
    {
      Space(H(), Chunk(dv, dvsize), topsize)
    }

    ghost predicate BinsValid()
      reads this`head, trees, smalls
    {
      trees.Valid(head) && smalls.Valid(head)
    }

    /** The top chunk ends where the segment does. */
    ghost predicate Bounded()
      reads this`top, this`topsize
    {
      top + topsize == limit && limit < first + TWO40 && topsize / 2 % 2 == 0
    }

    /** All but the usage counter */
    ghost predicate Sound()
      reads this`head, this`foot, this`prev, this`chunks, this`top, this`topsize, this`dv, this`dvsize, trees, smalls
    {
      HeapOk(H()) && BinsValid() && Consistent(H(), Bins(), dv, dvsize) && Bounded()
    }

    ghost predicate Valid()
      reads this, trees, smalls
    {
      Sound() && exts == Total(Live(H()))
    }

    /** init_user_mstate after its own chunk: empty bins and, from first on, one
        top chunk of topsize bytes */
    constructor (first: nat, topsize: nat)
      ensures this.first == first == top && this.topsize == topsize && limit == first + topsize
      ensures fresh(trees) && fresh(smalls)
      ensures chunks == {} && Bins() == {} && dv == 0 && dvsize == 0 && exts == 0
      ensures head == map[first + topsize := Head(72, false, false)][first := TopHead(topsize)]
      ensures BinsValid()
    {
      this.first, this.limit := first, first + topsize;
      head := map[first + topsize := Head(72, false, false)][first := TopHead(topsize)];
      foot, dv, dvsize, exts, top, this.topsize := map[], 0, 0, 0, first, topsize;
      prev, chunks := map[], {};
      trees := new Trees();
      smalls := new Smalls();
    }

    // ---------------------------------------------------------------- bins

    /** Bins that were valid for other heads are valid for these if all they hold
        is free. */
    lemma BinsFrame(was: map<nat, Head>)
      requires trees.Valid(was) && smalls.Valid(was) && HeapOk(H()) && Bins() <= Free(H())
      ensures BinsValid()
    {
      FreeHeads(H());
      TreesFrame(was, head, trees.M(), trees.roots, trees.treemap, trees.tries);
      ListsFrame(was, head, smalls.smallmap, smalls.lists);
    }

    lemma WhichBin(c: Chunk)
      requires BinsValid()
      ensures c in Binned(trees.tries) ==> c.size >= MIN_LARGE
      ensures c in Listed(smalls.lists) ==> c.size < MIN_LARGE && c.size % 8 == 0
    {
      AllLarge(head, trees.M(), trees.roots, trees.treemap, trees.tries);
    }

    method UnlinkChunk(p: nat, s: nat)
      requires BinsValid() && Chunk(p, s) in Bins() && p in head && head[p].size == s && s % 8 == 0
      modifies trees, smalls
      ensures BinsValid() && Bins() == old(Bins()) - {Chunk(p, s)}
    {
      WhichBin(Chunk(p, s));
      if s < MIN_LARGE {
        smalls.UnlinkSmall(head, p, s);
      } else {
        trees.UnlinkLarge(head, p);
      }
    }

    method InsertChunk(p: nat, s: nat)
      requires BinsValid() && (forall c :: c in Bins() ==> c.at != p)
      requires p != 0 && p in head && head[p].size == s && s % 8 == 0 && s < TWO40
      modifies trees, smalls
      ensures BinsValid() && Bins() == old(Bins()) + {Chunk(p, s)}
    {
      if s < MIN_LARGE {
        smalls.InsertSmall(head, p, s);
      } else {
        trees.InsertLarge(head, p, s);
      }
    }

    // ---------------------------------------------------------------- tags

    /** set_inuse_and_pinuse */
    method Take(p: nat)
      requires HeapOk(H()) && p in chunks && !Used(H(), p)
      modifies this`head
      ensures HeapOk(H()) && Taken(old(H()), H(), p)
      ensures Live(H()) == old(Live(H()))[p := old(SizeOf(H(), p))] && p !in old(Live(H()))
      ensures Free(H()) == old(Free(H())) - {Chunk(p, old(SizeOf(H(), p)))}
    {
      ghost var h := H();
      FreeNeighbours(h, p);
      var e := p + head[p].size;
      assert ChunkOk(h, e);
      head := head[p := Head(head[p].size, true, true)];
      head := head[e := head[e].(pinuse := true)];
      TakeKeeps(h, H(), p);
      TakeMoves(h, H(), p);
    }

    /** set_size_and_pinuse_of_inuse_chunk for the first nb bytes and
        set_size_and_pinuse_of_free_chunk for the rest */
    method Carve(p: nat, nb: nat)
      requires HeapOk(H()) && p in chunks && !Used(H(), p)
      requires nb % 8 == 0 && nb >= MIN_CHUNK && SizeOf(H(), p) >= nb + MIN_CHUNK
      modifies this`head, this`foot, this`prev, this`chunks
      ensures HeapOk(H()) && Carved(old(H()), H(), p, nb)
      ensures Live(H()) == old(Live(H()))[p := nb] && p !in old(Live(H()))
      ensures var s := old(SizeOf(H(), p));
        Free(H()) == old(Free(H())) - {Chunk(p, s)} + {Chunk(p + nb, s - nb)} && p + nb !in old(chunks)
    {
      ghost var h := H();
      assert ChunkOk(h, p);
      var r, rsize := p + nb, head[p].size - nb;
      head := head[p := Head(nb, true, true)];
      head := head[r := Head(rsize, true, false)];
      foot := foot[r + rsize := rsize];
      prev := prev[r := p][r + rsize := r];
      chunks := chunks + {r};
      CarveKeeps(h, H(), p, nb);
      CarveMoves(h, H(), p, nb);
    }

    // ------------------------------------------------------------ five ways to allocate

    /** p of size s has become live and nothing else has changed hands. */
    twostate predicate Granted(p: nat, s: nat)
      reads this
    {
      && p !in old(Live(H())) && Live(H()) == old(Live(H()))[p := s]
      && exts == old(exts)
    }

    /** A binned chunk is used as it is. */
    method UseWhole(p: nat, s: nat)
      requires Sound() && Chunk(p, s) in Bins()
      modifies this`head, trees, smalls
      ensures Sound() && Granted(p, s) && Free(H()) == old(Free(H())) - {Chunk(p, s)}
    {
      BinnedIsFree(p, s);
      UnlinkChunk(p, s);
      ghost var was := head;
      Take(p);
      BinsFrame(was);
    }

    /** The free chunk r is neither binned nor the designated victim. */
    ghost predicate Loose(r: Chunk)
      reads this, trees, smalls
    {
      && HeapOk(H()) && BinsValid() && r in Free(H()) && r.at != dv
      && (dvsize > 0 ==> Chunk(dv, dvsize) in Free(H()))
      && Bins() == Free(H()) - {Chunk(dv, dvsize)} - {r}
    }

    /** replace_dv: the rest of a split chunk becomes the designated victim, and
        the old one, which is small, is binned */
    method ReplaceDv(r: nat, rsize: nat)
      requires Loose(Chunk(r, rsize)) && Bounded() && dvsize < MIN_LARGE && rsize > 0
      modifies this`dv, this`dvsize, trees, smalls
      ensures Sound() && H() == old(H()) && dv == r && dvsize == rsize
    {
      NoneEmpty(H());
      assert Chunk(dv, dvsize) != Chunk(r, rsize);
      if dvsize != 0 {
        FreeFacts(H(), Chunk(dv, dvsize));
        OneSize(H(), Bins(), dv, dvsize);
        smalls.InsertSmall(head, dv, dvsize);
        assert Bins() == old(Bins()) + {Chunk(dv, dvsize)};
      } else {
        assert Chunk(dv, dvsize) !in Free(H());
      }
      assert Bins() == Free(H()) - {Chunk(r, rsize)};
      dvsize, dv := rsize, r;
    }

    /** A chunk leaves its bin and stays free for the moment. */
    method Unbin(p: nat, s: nat)
      requires Sound() && Chunk(p, s) in Bins()
      modifies trees, smalls
      ensures BinsValid() && Bins() == Free(H()) - {Chunk(dv, dvsize)} - {Chunk(p, s)}
      ensures p in chunks && !Used(H(), p) && SizeOf(H(), p) == s && p != dv && Chunk(p, s) != Chunk(dv, dvsize)
      ensures dvsize > 0 ==> dv in chunks
      ensures dvsize == 0 ==> dv !in chunks
    {
      BinnedIsFree(p, s);
      DvIsChunk(H(), Bins(), dv, dvsize);
      OneSizeDv(p, s);
      UnlinkChunk(p, s);
    }

    /** The designated victim is not binned. */
    lemma OneSizeDv(p: nat, s: nat)
      requires Sound() && Chunk(p, s) in Bins()
      ensures p != dv
    {
      FreeHas(H(), Chunk(p, s));
      FreeHas(H(), Chunk(dv, dvsize));
      DvIsChunk(H(), Bins(), dv, dvsize);
    }

    /** A binned chunk is split; the rest is free but nowhere listed yet. */
    method Split(p: nat, s: nat, nb: nat)
      requires Sound() && Chunk(p, s) in Bins() && nb % 8 == 0 && nb >= MIN_CHUNK && s >= nb + MIN_CHUNK
      modifies this`head, this`foot, this`prev, this`chunks, trees, smalls
      ensures Loose(Chunk(p + nb, s - nb)) && Granted(p, nb)
      ensures Free(H()) == old(Free(H())) - {Chunk(p, s)} + {Chunk(p + nb, s - nb)}
    {
      ghost var h, was := H(), head;
      Unbin(p, s);
      Carve(p, nb);
      FreshRest(h, p + nb, s - nb);
      SplitSets(Free(h), Free(H()), Bins(), Chunk(dv, dvsize), Chunk(p, s), Chunk(p + nb, s - nb));
      BinsFrame(was);
    }

    /** A free chunk that is nowhere is binned. */
    method BinLoose(r: nat, rsize: nat)
      requires Loose(Chunk(r, rsize)) && Bounded() && (dvsize == 0 ==> dv == 0)
      modifies trees, smalls
      ensures Sound() && H() == old(H())
    {
      FreeFacts(H(), Chunk(r, rsize));
      OneSize(H(), Bins(), r, rsize);
      ghost var bins := Bins();
      InsertChunk(r, rsize);
      Rebinned(Free(H()), bins, Chunk(dv, dvsize), Chunk(r, rsize));
    }

    /** A binned chunk is split; the rest becomes the designated victim. */
    method SplitToDv(p: nat, s: nat, nb: nat)
      requires Sound() && Chunk(p, s) in Bins() && nb % 8 == 0 && nb >= MIN_CHUNK && s >= nb + MIN_CHUNK
      requires dvsize < nb < MIN_LARGE
      modifies this`head, this`foot, this`prev, this`chunks, this`dv, this`dvsize, trees, smalls
      ensures Sound() && Granted(p, nb) && dv == p + nb && dvsize == s - nb
      ensures Free(H()) == old(Free(H())) - {Chunk(p, s)} + {Chunk(p + nb, s - nb)}
    {
      Split(p, s, nb);
      ReplaceDv(p + nb, s - nb);
    }

    /** A binned chunk is split; the rest is binned. */
    method SplitToBin(p: nat, s: nat, nb: nat)
      requires Sound() && Chunk(p, s) in Bins() && nb % 8 == 0 && nb >= MIN_CHUNK && s >= nb + MIN_CHUNK
      modifies this`head, this`foot, this`prev, this`chunks, trees, smalls
      ensures Sound() && Granted(p, nb)
      ensures Free(H()) == old(Free(H())) - {Chunk(p, s)} + {Chunk(p + nb, s - nb)}
    {
      Split(p, s, nb);
      BinLoose(p + nb, s - nb);
    }

    /** The designated victim keeps what is beyond nb bytes. */
    method SplitDv(nb: nat)
      requires Sound() && nb % 8 == 0 && nb >= MIN_CHUNK && dvsize >= nb + MIN_CHUNK
      modifies this`head, this`foot, this`prev, this`chunks, this`dv, this`dvsize
      ensures Sound() && Granted(old(dv), nb) && dv == old(dv) + nb && dvsize == old(dvsize) - nb
      ensures Free(H()) == old(Free(H())) - {Chunk(old(dv), old(dvsize))} + {Chunk(dv, dvsize)}
    {
      CarveDv(nb);
      BecomeDv(dv + nb, dvsize - nb);
    }

    method CarveDv(nb: nat)
      requires Sound() && nb % 8 == 0 && nb >= MIN_CHUNK && dvsize >= nb + MIN_CHUNK
      modifies this`head, this`foot, this`prev, this`chunks
      ensures HeapOk(H()) && BinsValid() && Granted(dv, nb)
      ensures var r := Chunk(dv + nb, dvsize - nb);
        && r in Free(H()) && Bins() == Free(H()) - {r}
        && Free(H()) == old(Free(H())) - {Chunk(dv, dvsize)} + {r}
    {
      ghost var h, was := H(), head;
      FreeFacts(h, Chunk(dv, dvsize));
      Carve(dv, nb);
      FreshRest(h, dv + nb, dvsize - nb);
      SplitSets(Free(h), Free(H()), Bins(), Chunk(dv, dvsize), Chunk(dv, dvsize), Chunk(dv + nb, dvsize - nb));
      BinsFrame(was);
    }

    /** The designated victim is used as it is. */
    method ExhaustDv()
      requires Sound() && dvsize > 0
      modifies this`head, this`dv, this`dvsize
      ensures Sound() && Granted(old(dv), old(dvsize)) && dv == 0 && dvsize == 0
      ensures Free(H()) == old(Free(H())) - {Chunk(old(dv), old(dvsize))}
    {
      ghost var was := head;
      FreeFacts(H(), Chunk(dv, dvsize));
      Take(dv);
      NoneEmpty(H());
      dv, dvsize := 0, 0;
      BinsFrame(was);
    }

    /** The designated victim is split, or used up if little would remain. */
    method UseDv(nb: nat) returns (p: nat, s: nat)
      requires Sound() && nb % 8 == 0 && MIN_CHUNK <= nb <= dvsize
      modifies this`head, this`foot, this`prev, this`chunks, this`dv, this`dvsize
      ensures Sound() && p == old(dv) != 0 && Granted(p, s) && nb <= s < nb + MIN_CHUNK
      ensures CutFrom(old(H()), H(), old(Chunk(dv, dvsize)), nb)
      ensures Chunk(dv, dvsize) == if old(dvsize) >= nb + MIN_CHUNK then Chunk(p + nb, old(dvsize) - nb) else NO_CHUNK
    {
      FreeFacts(H(), Chunk(dv, dvsize));
      p := dv;
      if dvsize - nb >= MIN_CHUNK {
        s := nb;
        SplitDv(nb);
      } else {
        s := dvsize;
        ExhaustDv();
      }
    }

    /** The tags for cutting nb bytes off the top chunk */
    method CutTop(nb: nat)
      requires HeapOk(H()) && nb % 8 == 0 && MIN_CHUNK <= nb < topsize && topsize / 2 % 2 == 0
      modifies this`head, this`prev, this`chunks, this`top, this`topsize
      ensures HeapOk(H()) && top + topsize == old(top + topsize) && topsize / 2 % 2 == 0
      ensures H() == CutTags(old(H()), nb, old(topsize))
      ensures old(top) !in old(Live(H())) && Live(H()) == old(Live(H()))[old(top) := nb] && Free(H()) == old(Free(H()))
    {
      ghost var h := H();
      ParityKept(topsize, nb);
      var p := top;
      topsize := topsize - nb;
      top := p + nb;
      head := head[top := TopHead(topsize)];
      head := head[p := Head(nb, true, true)];
      prev := prev[top := p];
      chunks := chunks + {p};
      TopSplitKeeps(h, H(), nb);
      TopSplitMoves(h, H(), nb);
    }

    /** The first nb bytes of the top chunk are used. */
    method UseTop(nb: nat) returns (p: nat)
      requires Sound() && nb % 8 == 0 && MIN_CHUNK <= nb < topsize
      modifies this`head, this`prev, this`chunks, this`top, this`topsize
      ensures Sound() && p == old(top) != 0 && Granted(p, nb) && Free(H()) == old(Free(H()))
      ensures top == p + nb && topsize == old(topsize) - nb
    {
      ghost var was := head;
      p := top;
      CutTop(nb);
      BinsFrame(was);
    }

    // ------------------------------------------------------------ choosing a chunk

    /** Nothing has changed. */
    twostate predicate Same()
      reads this, trees, smalls
    {
      H() == old(H()) && Bins() == old(Bins()) && dv == old(dv) && dvsize == old(dvsize) && topsize == old(topsize)
      && exts == old(exts)
    }

    /** A binned chunk of size s serves a request for nb bytes: the rest is too
        small to be a chunk, or it becomes the designated victim. */
    method UseOrSplit(p: nat, s: nat, nb: nat) returns (size: nat)
      requires Sound() && Chunk(p, s) in Bins() && nb % 8 == 0 && MIN_CHUNK <= nb <= s && nb < MIN_LARGE
      requires s >= nb + MIN_CHUNK ==> dvsize < nb
      modifies this, trees, smalls
      ensures Sound() && Granted(p, size) && nb <= size < nb + MIN_CHUNK
      ensures CutFrom(old(H()), H(), Chunk(p, s), nb) && topsize == old(topsize)
      ensures Chunk(dv, dvsize) == if s >= nb + MIN_CHUNK then Chunk(p + nb, s - nb) else old(Chunk(dv, dvsize))
    {
      if s - nb < MIN_CHUNK {
        size := s;
        UseWhole(p, s);
      } else {
        size := nb;
        SplitToDv(p, s, nb);
      }
    }

    /** The first chunk of small bin i */
    method FirstOf(i: nat) returns (p: nat)
      requires BinsValid() && i < BINS && Bit(smalls.smallmap, i)
      ensures Chunk(p, 8 * i) in Bins() && p != 0
    {
      assert ListOk(head, smalls.smallmap, smalls.lists[i], i);
      p := smalls.First(head, i);
      ListedHas(smalls.lists, i, p);
    }

    /** The least binned chunk for a small request: from the exact bin or the next
        one, or from any bin if the designated victim does not fit */
    method ChooseSmall(nb: nat) returns (p: nat, whole: nat)
      requires Sound() && nb % 8 == 0 && MIN_CHUNK <= nb < MIN_LARGE
      ensures p != 0 ==> Best(Shape(), nb, Chunk(p, whole)) && Prefers(Shape(), nb, Chunk(p, whole))
      ensures p == 0 ==> forall c :: !Prefers(Shape(), nb, c)
    {
      p, whole := 0, 0;
      var idx := nb / 8;
      var smallbits := Shr(smalls.smallmap, idx);
      TwoBins(smalls.smallmap, idx);
      if And(smallbits, 3) != 0 {
        var i := if smallbits % 2 == 1 then idx else idx + 1;
        if Bit(smalls.smallmap, i) { BitBelow(smalls.smallmap, BINS, i); }
        p := FirstOf(i);
        whole := 8 * i;
        LeastSmall(idx, i);
      } else if nb > dvsize {
        p, whole := ChooseBeyond(nb, idx, smallbits);
      } else {
        TwoEmpty(idx);
      }
    }

    /** The rest of the small bins and then the tree bins */
    method ChooseBeyond(nb: nat, idx: nat, smallbits: nat) returns (p: nat, whole: nat)
      requires Sound() && nb == 8 * idx && MIN_CHUNK <= nb < MIN_LARGE && !Bit(smalls.smallmap, idx)
      requires smallbits == Shr(smalls.smallmap, idx)
      ensures p != 0 ==> Best(Shape(), nb, Chunk(p, whole))
      ensures p == 0 ==> forall c :: c in Bins() ==> c.size < nb
    {
      p, whole := 0, 0;
      if smallbits != 0 {
        var i := NextSmall(idx);
        p := FirstOf(i);
        whole := 8 * i;
        LeastSmall(idx, i);
      } else if trees.treemap != 0 {
        var v, rsize := trees.FindSmallest(head, nb);
        NoSmalls(nb);
        p, whole := v, nb + rsize;
      } else {
        NothingBinned(nb);
      }
    }

    /** A request for nb bytes below 256, served from the least binned chunk that
        fits; 0 if it is left to the designated victim or the top chunk */
    method MallocSmall(nb: nat) returns (p: nat, size: nat)
      requires Sound() && nb % 8 == 0 && MIN_CHUNK <= nb < MIN_LARGE
      modifies this, trees, smalls
      ensures Sound()
      ensures p != 0 ==> Granted(p, size) && nb <= size < nb + MIN_CHUNK
      ensures p != 0 ==> Served(old(Shape()), Shape(), nb, p)
      ensures p == 0 ==> Same() && forall c :: !Prefers(Shape(), nb, c)
    {
      size := 0;
      var s;
      p, s := ChooseSmall(nb);
      if p != 0 {
        BinnedIsFree(p, s);
        size := UseOrSplit(p, s, nb);
      }
    }

    /** As UseOrSplit, but the rest is binned. */
    method UseLarge(p: nat, s: nat, nb: nat) returns (size: nat)
      requires Sound() && Chunk(p, s) in Bins() && nb % 8 == 0 && MIN_CHUNK <= nb <= s
      modifies this, trees, smalls
      ensures Sound() && Granted(p, size) && nb <= size < nb + MIN_CHUNK
      ensures CutFrom(old(H()), H(), Chunk(p, s), nb) && topsize == old(topsize)
      ensures dv == old(dv) && dvsize == old(dvsize)
    {
      if s - nb < MIN_CHUNK {
        size := s;
        UseWhole(p, s);
      } else {
        size := nb;
        SplitToBin(p, s, nb);
      }
    }

    /** tmalloc_large: the best fit among the tree bins, unless the designated
        victim fits at least as well */
    method MallocLarge(nb: nat) returns (p: nat, size: nat)
      requires Sound() && nb % 8 == 0 && MIN_LARGE <= nb < WORD
      modifies this, trees, smalls
      ensures Sound()
      ensures p != 0 ==> Granted(p, size) && nb <= size < nb + MIN_CHUNK
      ensures p != 0 ==> Served(old(Shape()), Shape(), nb, p)
      ensures p == 0 ==> Same() && forall c :: !Prefers(Shape(), nb, c)
    {
      size := 0;
      var s;
      p, s := ChooseLarge(nb);
      if p != 0 {
        BinnedIsFree(p, s);
        size := UseLarge(p, s, nb);
      }
    }

    /** The choice of tmalloc_large; 0 leaves the request to victim and top */
    method ChooseLarge(nb: nat) returns (p: nat, whole: nat)
      requires Sound() && MIN_LARGE <= nb < WORD
      ensures p != 0 ==> Best(Shape(), nb, Chunk(p, whole)) && Prefers(Shape(), nb, Chunk(p, whole))
      ensures p == 0 ==> forall c :: !Prefers(Shape(), nb, c)
    {
      p, whole := 0, 0;
      DvBelow();
      var v, rsize := BestBinned(nb);
      if v != 0 { BinnedIsFree(v, nb + rsize); }
      if v != 0 && rsize < Sub64(dvsize, nb) {
        p, whole := v, nb + rsize;
      }
    }

    /** The binned chunk of least size among those that fit; 0 if none does */
    method BestBinned(nb: nat) returns (v: nat, rsize: nat)
      requires BinsValid() && MIN_LARGE <= nb < WORD
      ensures v == 0 ==> forall c :: c in Bins() ==> c.size < nb
      ensures v != 0 ==> Chunk(v, nb + rsize) in Bins()
      ensures v != 0 ==> forall c :: c in Bins() && c.size >= nb ==> nb + rsize <= c.size
    {
      v, rsize := BestTree(nb);
      SmallsBelow(nb);
    }

    /** The same among the tree bins only */
    method BestTree(nb: nat) returns (v: nat, rsize: nat)
      requires BinsValid() && MIN_LARGE <= nb < WORD
      ensures v == 0 ==> forall c :: c in Binned(trees.tries) ==> c.size < nb
      ensures v != 0 ==> Chunk(v, nb + rsize) in Binned(trees.tries)
      ensures v != 0 ==> forall c :: c in Binned(trees.tries) && c.size >= nb ==> nb + rsize <= c.size
    {
      v, rsize := 0, 0;
      if trees.treemap != 0 {
        v, rsize := trees.FindLarge(head, nb);
      } else {
        NoTrees(head, trees.M(), trees.roots, trees.treemap, trees.tries);
      }
    }

    lemma DvBelow()
      requires Sound()
      ensures dvsize < TWO40 && limit < first + TWO40 && forall c :: c in Free(H()) ==> c.size < TWO40 && c.at != 0
    {
      forall c | c in Free(H())
        ensures c.size < TWO40 && c.at != 0
      {
        FreeFacts(H(), c);
      }
    }

    lemma SmallsBelow(nb: nat)
      requires BinsValid() && nb >= MIN_LARGE
      ensures forall c :: c in Listed(smalls.lists) ==> c.size < nb
    {
    }

    /** The next nonempty small bin above idx */
    method NextSmall(idx: nat) returns (i: nat)
      requires BinsValid() && idx < BINS && Shr(smalls.smallmap, idx) != 0 && !Bit(smalls.smallmap, idx)
      ensures idx < i < BINS && Bit(smalls.smallmap, i) && forall j :: idx < j < i ==> !Bit(smalls.smallmap, j)
    {
      var m := smalls.smallmap;
      var leftbits := SmallAbove(m, idx);
      SmallAboveSome(m, idx);
      SmallAboveBelow(m, idx);
      i := FirstBin(leftbits, BINS);
      FirstBinIs(leftbits, BINS);
      SmallAboveBit(m, idx, i);
      BitBelow(m, BINS, i);
      forall j | idx < j < i
        ensures !Bit(m, j)
      {
        SmallAboveBit(m, idx, j);
      }
    }

    /** Small bin i is the first nonempty one from idx on. */
    lemma LeastSmall(idx: nat, i: nat)
      requires BinsValid() && idx <= i < BINS && forall j :: idx <= j < i ==> !Bit(smalls.smallmap, j)
      ensures forall c :: c in Bins() && c.size >= 8 * idx ==> 8 * i <= c.size
    {
      forall c | c in Bins() && c.size >= 8 * idx
        ensures 8 * i <= c.size
      {
        WhichBin(c);
        if c in Listed(smalls.lists) {
          var j: nat :| j < BINS && c.at in smalls.lists[j] && c.size == 8 * j;
          assert ListOk(head, smalls.smallmap, smalls.lists[j], j);
        }
      }
    }

    /** Neither the exact bin nor the next one holds anything. */
    lemma TwoEmpty(idx: nat)
      requires BinsValid() && !Bit(smalls.smallmap, idx) && !Bit(smalls.smallmap, idx + 1)
      ensures forall c :: c in Bins() && c.size >= 8 * idx ==> c.size > 8 * idx + 8 || c.size >= MIN_LARGE
    {
      forall c | c in Bins() && c.size >= 8 * idx
        ensures c.size > 8 * idx + 8 || c.size >= MIN_LARGE
      {
        WhichBin(c);
        if c in Listed(smalls.lists) {
          var j: nat :| j < BINS && c.at in smalls.lists[j] && c.size == 8 * j;
          assert ListOk(head, smalls.smallmap, smalls.lists[j], j);
        }
      }
    }

    lemma NothingBinned(nb: nat)
      requires BinsValid() && nb % 8 == 0 && nb < MIN_LARGE && Shr(smalls.smallmap, nb / 8) == 0 && trees.treemap == 0
      ensures forall c :: c in Bins() ==> c.size < nb
    {
      NoTrees(head, trees.M(), trees.roots, trees.treemap, trees.tries);
      NoSmalls(nb);
    }

    lemma NoSmalls(nb: nat)
      requires BinsValid() && nb % 8 == 0 && nb < MIN_LARGE && Shr(smalls.smallmap, nb / 8) == 0
      ensures forall c :: c in Listed(smalls.lists) ==> c.size < nb
    {
      forall c | c in Listed(smalls.lists)
        ensures c.size < nb
      {
        var i: nat :| i < BINS && c.at in smalls.lists[i] && c.size == 8 * i;
        assert ListOk(head, smalls.smallmap, smalls.lists[i], i);
        if i >= nb / 8 {
          ShrBit(smalls.smallmap, nb / 8, i - nb / 8);
          ZeroBit(i - nb / 8);
        }
      }
    }

    // ------------------------------------------------------------ mspace_malloc

    /** nb for a request of this many bytes */
    static function NeededFor(bytes: nat): nat {
      if bytes < MIN_REQUEST then MIN_CHUNK else if bytes >= MAX_REQUEST then WORD - 1 else PadRequest(bytes)
    }

    /** chunk2mem of the chunk that was allocated, if any */
    static function MemOf(p: nat): nat {
      if p == 0 then 0 else p + 16
    }

    /** From the bins, else from the designated victim, else from the top chunk */
    method Allocate(bytes: nat) returns (p: nat, size: nat)
      requires Sound() && bytes < WORD
      modifies this, trees, smalls
      ensures Sound()
      ensures p != 0 ==> Granted(p, size) && NeededFor(bytes) <= size < NeededFor(bytes) + MIN_CHUNK
      ensures Served(old(Shape()), Shape(), NeededFor(bytes), p)
      ensures p == 0 ==>
        Same() && topsize <= NeededFor(bytes) && forall c :: c in Free(H()) ==> c.size < NeededFor(bytes)
    {
      var nb := NeededFor(bytes);
      p, size := 0, 0;
      if bytes <= MAX_SMALL_REQUEST {
        p, size := MallocSmall(nb);
        if p != 0 {
          return;
        }
      } else if bytes < MAX_REQUEST {
        p, size := MallocLarge(nb);
        if p != 0 {
          return;
        }
      } else {
        DvBelow();
      }
      p, size := UseDvOrTop(nb);
    }

    /** From the designated victim, else from the top chunk */
    method UseDvOrTop(nb: nat) returns (p: nat, size: nat)
      requires Sound() && nb >= MIN_CHUNK && (nb % 8 == 0 || nb == WORD - 1)
      requires forall c :: !Prefers(Shape(), nb, c)
      modifies this`head, this`foot, this`prev, this`chunks, this`dv, this`dvsize, this`top, this`topsize
      ensures Sound()
      ensures p != 0 ==> Granted(p, size) && nb <= size < nb + MIN_CHUNK
      ensures Served(old(Shape()), Shape(), nb, p)
      ensures p == 0 ==> Same() && topsize <= nb && forall c :: c in Free(H()) ==> c.size < nb
    {
      p, size := 0, 0;
      DvBelow();
      if nb <= dvsize {
        p, size := UseDv(nb);
      } else if nb < topsize {
        p := UseTop(nb);
        size := nb;
      } else {
        NoneFits(Shape(), nb);
      }
    }

    /** mspace_malloc: 0, or the address of bytes usable bytes that nobody else
        has, from the chunk that comes first. It fails only if no free chunk and
        not the top chunk is large enough. */
    method Malloc(bytes: nat) returns (mem: nat)
      requires Valid() && bytes < WORD
      modifies this, trees, smalls
      ensures Valid()
      ensures mem == 0 ==>
        Same() && topsize <= NeededFor(bytes) && forall c :: c in Free(H()) ==> c.size < NeededFor(bytes)
      ensures mem != 0 ==> mem >= 16 && mem - 16 !in old(Live(H())) && mem - 16 in Live(H())
      ensures exists p: nat :: mem == MemOf(p) && Served(old(Shape()), Shape(), NeededFor(bytes), p)
      ensures mem != 0 ==> Live(H()) == old(Live(H()))[mem - 16 := Live(H())[mem - 16]]
      ensures mem != 0 ==> NeededFor(bytes) <= Live(H())[mem - 16] < NeededFor(bytes) + MIN_CHUNK
    {
      ghost var live := Live(H());
      var p, size := Allocate(bytes);
      if p == 0 {
        return 0;
      }
      AddUsage(p, size, live);
      mem := MemOf(p);
    }

    /** The usage counter grows by the size of the chunk that has been allocated. */
    method AddUsage(ghost p: nat, size: nat, ghost live: map<nat, nat>)
      requires Sound() && exts == Total(live) && p !in live && Live(H()) == live[p := size]
      modifies this`exts
      ensures Valid()
    {
      TotalAdd(live, p, size);
      exts := exts + size;
    }

    // ------------------------------------------------------------ mspace_free

    /** The writes of set_free_with_pinuse */
    method WriteFree(q: nat, e: nat, known: bool)
      requires q <= e && e in head
      modifies this`head, this`foot, this`prev, this`chunks
      ensures H() == FreeTags(old(H()), q, e, known)
    {
      if !known {
        head := head[e := head[e].(pinuse := false)];
      }
      head := head[q := Head(e - q, true, false)];
      foot := foot[e := e - q];
      prev := prev[e := q];
      chunks := set a | a in chunks && (a <= q || e <= a);
    }

    /** set_free_with_pinuse for the chunks from q up to e: e learns that what is
        before it is free, unless it knows already */
    method TagFree(q: nat, e: nat, ghost p: nat, known: bool)
      requires HeapOk(H()) && Reach(H(), p, q, e) && e != top && (known ==> !PrevUsed(H(), e))
      modifies this`head, this`foot, this`prev, this`chunks
      ensures HeapOk(H()) && Live(H()) == old(Live(H())) - {p} && p in old(Live(H())) && q < e
      ensures e in old(head) && H() == FreeTags(old(H()), q, e, known)
      ensures Free(H()) == old(Free(H())) - Swallowed(old(H()), q, e) + {Chunk(q, e - q)}
    {
      ghost var h := H();
      ReachIs(h, p, q, e);
      assert ChunkOk(h, e);
      WriteFree(q, e, known);
      MergeKeeps(h, H(), q, e);
      MergeMoves(h, H(), p, q, e);
    }

    /** The chunks from q on go back to the top chunk */
    method TagTop(q: nat, ghost p: nat)
      requires HeapOk(H()) && Reach(H(), p, q, top) && topsize / 2 % 2 == 0
      modifies this`head, this`chunks, this`top, this`topsize
      ensures HeapOk(H()) && top + topsize == old(top + topsize) && topsize / 2 % 2 == 0
      ensures Live(H()) == old(Live(H())) - {p} && p in old(Live(H()))
      ensures Free(H()) == old(Free(H())) - Swallowed(old(H()), q, old(top)) && top == q < old(top)
    {
      ghost var h := H();
      ReachIs(h, p, q, top);
      GrownParity(topsize, top - q);
      topsize := topsize + (top - q);
      top := q;
      head := head[q := TopHead(topsize)];
      chunks := set a | a in chunks && a < q;
      MergeTopKeeps(h, H(), q);
      MergeTopMoves(h, H(), p, q);
    }

    /** A free neighbour that is not the designated victim leaves its bin. */
    method Absorb(c: nat, s: nat)
      requires BinsValid() && HeapOk(H()) && Chunk(c, s) in Free(H()) && Chunk(c, s) in Bins()
      modifies trees, smalls
      ensures BinsValid() && Bins() == old(Bins()) - {Chunk(c, s)}
    {
      FreeFacts(H(), Chunk(c, s));
      UnlinkChunk(c, s);
    }

    /** The chunks from q up to e, p among them, become one free chunk that is
        nowhere listed yet. */
    method Merge(ghost p: nat, q: nat, e: nat, known: bool, ghost was: set<Chunk>)
      requires HeapOk(H()) && BinsValid() && Reach(H(), p, q, e) && e != top && (known ==> !PrevUsed(H(), e))
      requires Consistent(H(), was, dv, dvsize) && Bins() == was - Swallowed(H(), q, e)
      modifies this`head, this`foot, this`prev, this`chunks
      ensures Live(H()) == old(Live(H())) - {p} && q < e
      ensures Free(H()) == old(Free(H())) - Swallowed(old(H()), q, e) + {Chunk(q, e - q)}
      ensures if q <= dv < e then
                HeapOk(H()) && BinsValid() && Chunk(q, e - q) in Free(H()) && Bins() == Free(H()) - {Chunk(q, e - q)}
              else Loose(Chunk(q, e - q))
    {
      ghost var h, tags := H(), head;
      SwallowedIs(h, p, q, e);
      DvPlace(h, was, p, q, e, dv, dvsize);
      TagFree(q, e, p, known);
      NoneAt(h, was, q, e);
      BinsFrame(tags);
    }

    /** The merged chunk is the new designated victim if the old one is part of
        it; otherwise it is binned. */
    method FreeUpTo(ghost p: nat, q: nat, e: nat, known: bool, intoDv: bool, ghost was: set<Chunk>)
      requires HeapOk(H()) && BinsValid() && Reach(H(), p, q, e) && e != top && (known ==> !PrevUsed(H(), e))
      requires Bounded()
      requires Consistent(H(), was, dv, dvsize) && Bins() == was - Swallowed(H(), q, e)
      requires intoDv <==> q <= dv < e
      modifies this`head, this`foot, this`prev, this`chunks, this`dv, this`dvsize, trees, smalls
      ensures Sound() && Joined(old(Shape()), Shape(), p, q, e)
    {
      Merge(p, q, e, known, was);
      if intoDv {
        BecomeDv(q, e - q);
      } else {
        BinLoose(q, e - q);
      }
    }

    /** The one free chunk that is not binned is the designated victim. */
    method BecomeDv(r: nat, rsize: nat)
      requires HeapOk(H()) && BinsValid() && Bounded() && rsize > 0
      requires Chunk(r, rsize) in Free(H()) && Bins() == Free(H()) - {Chunk(r, rsize)}
      modifies this`dv, this`dvsize
      ensures Sound() && H() == old(H()) && dv == r && dvsize == rsize
    {
      dv, dvsize := r, rsize;
    }

    /** The chunks from q on, p among them, go back to the top chunk; the
        designated victim may be the first of them */
    method FreeToTop(ghost p: nat, q: nat, ghost was: set<Chunk>)
      requires HeapOk(H()) && BinsValid() && Reach(H(), p, q, top)
      requires Bounded()
      requires Consistent(H(), was, dv, dvsize) && Bins() == was - Swallowed(H(), q, top)
      modifies this`head, this`chunks, this`top, this`topsize, this`dv, this`dvsize
      ensures Sound() && Joined(old(Shape()), Shape(), p, q, old(top))
    {
      ghost var h, tags, e := H(), head, top;
      SwallowedIs(h, p, q, e);
      DvPlace(h, was, p, q, e, dv, dvsize);
      ToTopDv(h, was, p, q, dv, dvsize);
      TagTop(q, p);
      NoneEmpty(H());
      BinsFrame(tags);
      if q == dv {
        dv, dvsize := 0, 0;
      }
    }

    /** Consolidate backward: where the free chunk is going to start */
    method Backward(p: nat, ghost q0: nat, ghost e: nat) returns (q: nat)
      requires Sound() && Around(H(), Bins(), p, q0, e, dv, dvsize)
      modifies trees, smalls
      ensures q == q0 && BinsValid()
      ensures Bins() == old(Bins()) - (if q != p then {Chunk(q, p - q)} else {})
    {
      q := p;
      if !head[p].pinuse {
        var prevsize := foot[p];
        q := p - prevsize;
        if q != dv {
          Absorb(q, prevsize);
        }
      }
    }

    /** Consolidate with the free chunk next that is not the top chunk */
    method ForwardFree(p: nat, q: nat, next: nat, ghost e: nat, ghost was: set<Chunk>)
      requires HeapOk(H()) && BinsValid() && Around(H(), was, p, q, e, dv, dvsize) && Consistent(H(), was, dv, dvsize)
      requires Bounded() && next == End(H(), p) && next != top && !Used(H(), next)
      requires Bins() == was - (if q != p then {Chunk(q, p - q)} else {})
      modifies this`head, this`foot, this`prev, this`chunks, this`dv, this`dvsize, trees, smalls
      ensures Sound() && Joined(old(Shape()), Shape(), p, q, e)
    {
      if next == dv {
        FreeUpTo(p, q, next + dvsize, true, true, was);
      } else {
        var nsize := head[next].size;
        Absorb(next, nsize);
        FreeUpTo(p, q, next + nsize, true, q == dv, was);
      }
    }

    /** Consolidate forward, and put the free chunk where it belongs */
    method Forward(p: nat, q: nat, next: nat, ghost e: nat, ghost was: set<Chunk>)
      requires HeapOk(H()) && BinsValid() && Around(H(), was, p, q, e, dv, dvsize) && Consistent(H(), was, dv, dvsize)
      requires Bounded()
      requires next == End(H(), p) && Bins() == was - (if q != p then {Chunk(q, p - q)} else {})
      modifies this, trees, smalls
      ensures Sound() && Joined(old(Shape()), Shape(), p, q, e) && exts == old(exts)
    {
      if q == dv && head[next].cinuse && head[next].pinuse {
        FreeUpTo(p, q, next, false, true, was);
      } else if !head[next].cinuse {
        if next == top {
          FreeToTop(p, q, was);
        } else {
          ForwardFree(p, q, next, e, was);
        }
      } else {
        FreeUpTo(p, q, next, false, false, was);
      }
    }

    /** mspace_free of the live chunk p, but for the counter */
    method FreeChunk(p: nat)
      requires Sound() && p in Live(H())
      modifies this, trees, smalls
      ensures Sound() && Live(H()) == old(Live(H())) - {p} && exts == old(exts)
      ensures Released(old(Shape()), Shape(), p)
    {
      ghost var h, was := H(), Bins();
      assert ChunkOk(h, p);
      var next := p + head[p].size;
      ghost var e := if next != top && !Used(h, next) then End(h, next) else next;
      ghost var q0 := if PrevUsed(h, p) then p else prev[p];
      FreeCases(h, was, p, q0, e, dv, dvsize);
      AroundStretch(h, was, p, q0, e, dv, dvsize);
      var q := Backward(p, q0, e);
      Forward(p, q, next, e, was);
    }

    /** mspace_free: exactly the chunk at mem is given back, in one with the free
        chunks beside it. */
    method FreeMem(mem: nat)
      requires Valid() && (mem != 0 ==> mem >= 16 && mem - 16 in Live(H()))
      modifies this, trees, smalls
      ensures Valid()
      ensures mem == 0 ==> Same()
      ensures mem != 0 ==> Live(H()) == old(Live(H())) - {mem - 16} && Released(old(Shape()), Shape(), mem - 16)
    {
      if mem == 0 {
        return;
      }
      var p := mem - 16;
      var size := head[p].size;
      ghost var live := Live(H());
      FreeChunk(p);
      TotalSplit(live, p);
      exts := exts - size;
    }

    lemma BinnedIsFree(p: nat, s: nat)
      requires Sound() && Chunk(p, s) in Bins()
      ensures p in chunks && !Used(H(), p) && p in head && head[p].size == s && s % 8 == 0
      ensures MIN_CHUNK <= s < TWO40 && p != 0
      ensures Chunk(p, s) != Chunk(dv, dvsize) && p % 8 == 0
    {
      FreeHas(H(), Chunk(p, s));
      assert ChunkOk(H(), p);
      BelowTop(H());
    }
  }

  /** A request that is not served fits nowhere. */
  lemma NoneFits(s: Space, nb: nat)
    requires s.dv.size < nb && forall c :: !Prefers(s, nb, c)
    ensures forall c :: c in Free(s.heap) ==> c.size < nb
  {
    forall c | c in Free(s.heap)
      ensures c.size < nb
    {
      assert !Prefers(s, nb, c);
    }
  }

  lemma NoTrees(h: map<nat, Head>, m: Links, roots: seq<nat>, treemap: nat, tries: seq<Trie>)
    requires BinsOk(h, m, roots, treemap, tries) && treemap == 0
    ensures Binned(tries) == {}
  {
    forall i: nat | i < BINS
      ensures Chunks(tries[i]) == {}
    {
      assert BinOk(h, m, roots[i], treemap, tries[i], i);
      ZeroBit(i);
    }
  }

  lemma FreeFacts(h: Heap, c: Chunk)
    requires HeapOk(h) && c in Free(h)
    ensures c.at in h.chunks && !Used(h, c.at) && SizeOf(h, c.at) == c.size && c.at in h.head
    ensures h.head[c.at].size == c.size
    ensures c.size % 8 == 0 && c.size >= MIN_CHUNK && c.at != 0 && c.at + c.size <= h.top && h.first <= c.at
    ensures c.at % 8 == 0
  {
    FreeHas(h, c);
    assert ChunkOk(h, c.at);
    BelowTop(h);
  }

  lemma NoneEmpty(h: Heap)
    requires HeapOk(h)
    ensures forall c :: c in Free(h) ==> c.size >= MIN_CHUNK
  {
    forall c | c in Free(h)
      ensures c.size >= MIN_CHUNK
    {
      FreeFacts(h, c);
    }
  }

  /** What a freed chunk swallows: the free chunk before it and the one after. */
  lemma SwallowedIs(h: Heap, p: nat, q: nat, e: nat)
    requires HeapOk(h) && Reach(h, p, q, e)
    ensures q <= p && End(h, p) <= e
    ensures var n := End(h, p);
      && Swallowed(h, q, e) == (if q != p then {Chunk(q, p - q)} else {}) + (if e != n then {Chunk(n, e - n)} else {})
      && Swallowed(h, q, e) <= Free(h)
      && (e != n ==> n in h.chunks && !Used(h, n) && !PrevUsed(h, e) && e in h.chunks)
  {
    var n := End(h, p);
    ReachIs(h, p, q, e);
    assert ChunkOk(h, p);
    if e != n {
      FreeNeighbours(h, n);
    }
    forall c
      ensures c in Swallowed(h, q, e) <==> (q != p && c == Chunk(q, p - q)) || (e != n && c == Chunk(n, e - n))
    {
    }
  }

  /** The designated victim is swallowed just when it lies between q and e. */
  lemma DvPlace(h: Heap, bins: set<Chunk>, p: nat, q: nat, e: nat, dv: nat, dvsize: nat)
    requires HeapOk(h) && Consistent(h, bins, dv, dvsize) && Reach(h, p, q, e)
    ensures q <= dv < e <==> Chunk(dv, dvsize) in Swallowed(h, q, e)
    ensures q <= dv < e ==> dvsize > 0
    ensures !(q <= dv < e) ==> dv != q
  {
    ReachIs(h, p, q, e);
    BelowTop(h);
    NoneEmpty(h);
    if dvsize > 0 {
      FreeHas(h, Chunk(dv, dvsize));
    }
  }

  lemma ToTopDv(h: Heap, bins: set<Chunk>, p: nat, q: nat, dv: nat, dvsize: nat)
    requires HeapOk(h) && Consistent(h, bins, dv, dvsize) && Reach(h, p, q, h.top)
    ensures q <= dv < h.top <==> q == dv
  {
    var e := h.top;
    SwallowedIs(h, p, q, e);
    DvPlace(h, bins, p, q, e, dv, dvsize);
    ReachIs(h, p, q, e);
  }

  /** What mspace_free finds around the live chunk p: free chunks from q before it
      and up to e after it, each in a bin or the designated victim */
  ghost predicate Around(h: Heap, bins: set<Chunk>, p: nat, q: nat, e: nat, dv: nat, dvsize: nat) {
    var n := End(h, p);
    && Reach(h, p, q, e) && p in h.head && q <= p < n <= e
    && n in h.head && PrevUsed(h, n) && (n == h.top ==> !Used(h, n))
    && (PrevUsed(h, p) <==> q == p)
    && (q != p ==>
          && p in h.foot && h.foot[p] == p - q && Chunk(q, p - q) in Free(h)
          && (q != dv <==> Chunk(q, p - q) in bins))
    && (e != n ==> Chunk(n, e - n) in Free(h) && !PrevUsed(h, e) && e == n + SizeOf(h, n)
                   && (n == dv ==> dvsize == e - n) && (n != dv <==> Chunk(n, e - n) in bins))
    && (e == n <==> n == h.top || Used(h, n)) && (e == h.top ==> e == n)
    && (q <= dv < e <==> (q != p && q == dv) || (e != n && n == dv))
    && Swallowed(h, q, e) == (if q != p then {Chunk(q, p - q)} else {}) + (if e != n then {Chunk(n, e - n)} else {})
    && q != n && (q == p ==> q != dv)
  }

  lemma FreeCases(h: Heap, bins: set<Chunk>, p: nat, q: nat, e: nat, dv: nat, dvsize: nat)
    requires HeapOk(h) && Consistent(h, bins, dv, dvsize) && p in Live(h)
    requires p in h.prev || PrevUsed(h, p) ==> q == (if PrevUsed(h, p) then p else h.prev[p])
    requires e == if End(h, p) != h.top && !Used(h, End(h, p)) then End(h, End(h, p)) else End(h, p)
    ensures Around(h, bins, p, q, e, dv, dvsize)
  {
    assert ChunkOk(h, p);
    var n := End(h, p);
    SwallowedIs(h, p, q, e);
    ReachIs(h, p, q, e);
    DvPlace(h, bins, p, q, e, dv, dvsize);
    DvMatches(h, bins, dv, dvsize);
    if n != h.top {
      FreeNeighbours(h, n);
    }
  }

  lemma AroundStretch(h: Heap, bins: set<Chunk>, p: nat, q: nat, e: nat, dv: nat, dvsize: nat)
    requires HeapOk(h) && Around(h, bins, p, q, e, dv, dvsize)
    ensures Stretch(h, p, q, e)
  {
    var n := End(h, p);
    BelowTop(h);
    forall c | c in Free(h)
      ensures q == p ==> c.at + c.size != p
      ensures e == n ==> c.at != n
    {
      FreeHas(h, c);
      FreeNeighbours(h, c.at);
    }
  }

  /** A free chunk is binned unless it is the designated victim. */
  lemma DvMatches(h: Heap, bins: set<Chunk>, dv: nat, dvsize: nat)
    requires HeapOk(h) && Consistent(h, bins, dv, dvsize)
    ensures forall c :: c in Free(h) ==> (c in bins <==> c.at != dv) && (c.at == dv ==> c.size == dvsize)
  {
    BelowTop(h);
    forall c | c in Free(h)
      ensures (c in bins <==> c.at != dv) && (c.at == dv ==> c.size == dvsize)
    {
      FreeHas(h, c);
      FreeHas(h, Chunk(dv, dvsize));
    }
  }

  /** Once its neighbours are out of the bins, nothing binned is at q. */
  lemma NoneAt(h: Heap, bins: set<Chunk>, q: nat, e: nat)
    requires HeapOk(h) && bins <= Free(h) && q in h.chunks
    ensures forall c :: c in bins - Swallowed(h, q, e) && q < e ==> c.at != q
  {
    forall c | c in bins - Swallowed(h, q, e) && q < e
      ensures c.at != q
    {
      FreeHas(h, c);
    }
  }

  /** No other free chunk is where the designated victim is. */
  lemma OneSize(h: Heap, bins: set<Chunk>, dv: nat, dvsize: nat)
    requires HeapOk(h) && bins <= Free(h) - {Chunk(dv, dvsize)} && Chunk(dv, dvsize) in Free(h)
    ensures forall c :: c in bins ==> c.at != dv
  {
    forall c | c in bins
      ensures c.at != dv
    {
      FreeHas(h, c);
      FreeHas(h, Chunk(dv, dvsize));
    }
  }

  lemma FreshRest(h: Heap, r: nat, s: nat)
    requires HeapOk(h) && r !in h.chunks
    ensures Chunk(r, s) !in Free(h)
  {
    if Chunk(r, s) in Free(h) { FreeHas(h, Chunk(r, s)); }
  }

  lemma DvIsChunk(h: Heap, bins: set<Chunk>, dv: nat, dvsize: nat)
    requires HeapOk(h) && Consistent(h, bins, dv, dvsize)
    ensures dvsize > 0 ==> dv in h.chunks
    ensures dvsize == 0 ==> dv !in h.chunks
  {
    if dvsize > 0 {
      FreeHas(h, Chunk(dv, dvsize));
    }
    BelowTop(h);
  }

  /** A free chunk's head says its size. */
  lemma FreeHeads(h: Heap)
    requires HeapOk(h)
    ensures forall c :: c in Free(h) ==> c.at in h.head && h.head[c.at].size == c.size
  {
    forall c | c in Free(h)
      ensures c.at in h.head && h.head[c.at].size == c.size
    {
      FreeHas(h, c);
      assert ChunkOk(h, c.at);
    }
  }
}
