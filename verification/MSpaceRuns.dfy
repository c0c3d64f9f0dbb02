/** Creating an mspace in a caller's buffer, and what holds over every run of
    allocations and frees in it. */
module MSpaceRuns {
  import opened Bits
  import opened MallocIndex
  import opened MallocTrie
  import opened TreeBins
  import opened MallocHeap
  import opened MSpaces
  import opened BestFit

  const PARAMS: nat := 48
  const STATE: nat := 936
  const TOP_FOOT: nat := 72

  // The structures behind these, field by field on a 64-bit machine: words take
  // 8 bytes, the bin maps 4 each, and a flag word is padded to 8.
  const PARAMS_SIZE: nat := 5 * 8 + 8
  const SEGMENT_SIZE: nat := 3 * 8 + 8
  const STATE_SIZE: nat := 2 * 4 + 8 * 8 + (32 + 1) * 2 * 8 + 32 * 8 + 2 * 8 + 8 + SEGMENT_SIZE + 2 * 8

  /** The state takes a chunk of its own, and the foot of the segment has room for
      a segment record and a chunk. */
  lemma OwnSizes()
    ensures PARAMS == PARAMS_SIZE && STATE_SIZE == 928
    ensures STATE == PadRequest(STATE_SIZE) && TOP_FOOT == PadRequest(SEGMENT_SIZE) + MIN_CHUNK
  {
    assert STATE_SIZE == 928 && SEGMENT_SIZE == 32;
    assert PadRequest(928) == 936 && PadRequest(32) == 40;
  }

  /** The state begins at a, 16 past the first multiple of 8 after the parameters. */
  ghost predicate StateAt(base: nat, a: nat) {
    base + PARAMS_SIZE + 16 <= a < base + PARAMS_SIZE + 24 && a % 8 == 0
  }

  /** align_as_chunk: how far to the next multiple of 8 */
  function AlignOffset(a: nat): nat {
    (8 - a % 8) % 8
  }

  /** Where the first chunk after the allocator's own state begins */
  function FirstChunk(base: nat): nat {
    base + PARAMS + AlignOffset(base + PARAMS) + STATE
  }

  /** What is left for the top chunk, in 64-bit arithmetic: it wraps if the
      alignment eats more than capacity leaves */
  function TopSize(base: nat, capacity: nat): nat
    requires base + PARAMS + capacity < WORD && FirstChunk(base) + TOP_FOOT < WORD
  {
    Sub64(base + PARAMS + capacity, FirstChunk(base) + TOP_FOOT)
  }

  /** create_mspace_with_base takes a capacity in this range only. */
  predicate Accepts(capacity: nat, pageSize: nat) {
    STATE + TOP_FOOT < capacity && capacity + STATE + TOP_FOOT + pageSize < WORD
  }

  /** The capacity leaves room after alignment, and the top chunk's size does not
      look like an in-use bit. */
  predicate Usable(base: nat, capacity: nat) {
    var need := STATE + TOP_FOOT + AlignOffset(base + PARAMS);
    need <= capacity && (capacity - need) / 2 % 2 == 0
  }

  lemma TopSizeIs(base: nat, capacity: nat)
    requires base + PARAMS + capacity < WORD && FirstChunk(base) + TOP_FOOT < WORD
    ensures var need := STATE + TOP_FOOT + AlignOffset(base + PARAMS);
      TopSize(base, capacity) == if need <= capacity then capacity - need else WORD + capacity - need
    ensures FirstChunk(base) % 8 == 0
  {
    var a := base + PARAMS;
    assert (a + AlignOffset(a)) % 8 == 0;
    assert STATE % 8 == 0;
  }

  /** create_mspace_with_base on a fresh buffer. What it returns is a valid heap
      exactly if the capacity is usable. */
  method Create(base: nat, capacity: nat, pageSize: nat) returns (m: MSpace?)
    requires 0 < base && base + PARAMS + capacity < WORD && FirstChunk(base) + TOP_FOOT < WORD && capacity < TWO40
    ensures m != null <==> Accepts(capacity, pageSize)
    ensures m != null ==> fresh(m) && fresh(m.trees) && fresh(m.smalls)
    ensures m != null ==> (m.Valid() <==> Usable(base, capacity))
    ensures m != null ==> (m.Valid() <==> m.top + m.topsize <= base + capacity && !Used(m.H(), m.top))
    ensures m != null && m.Valid() ==> Live(m.H()) == map[] && base < m.first && m.limit == base + capacity - 24
    ensures m != null ==> m.top == m.first && Free(m.H()) == {} && m.dvsize == 0
    ensures m != null ==> forall a: nat :: StateAt(base, a) ==> a + STATE_SIZE == m.first + 8
  {
    if !Accepts(capacity, pageSize) {
      return null;
    }
    TopSizeIs(base, capacity);
    OwnSizes();
    var first, topsize := FirstChunk(base), TopSize(base, capacity);
    m := new MSpace(first, topsize);
    FreshHeap(m.H(), topsize);
    assert Live(m.H()) == map[] && Free(m.H()) == {} && Total(map[]) == 0;
  }

  lemma FreshHeap(h: Heap, topsize: nat)
    requires h.chunks == {} && h.top == h.first && h.first % 8 == 0 && h.first > 0
    requires h.first in h.head && h.head[h.first] == TopHead(topsize)
    ensures HeapOk(h) <==> topsize / 2 % 2 == 0
  {
  }

  /** Capacities it takes but cannot use: one too small for a misaligned buffer,
      one that leaves a top chunk whose size has the in-use bit set. */
  lemma UnusableCapacities()
    ensures Accepts(1010, 4096) && !Usable(4097, 1010)
    ensures Accepts(4098, 4096) && !Usable(4096, 4098)
  {
  }

  /** With that bit set, the top chunk reads as in use once a chunk p is cut off it;
      so freeing p does not merge the two, and p stays beside the top chunk as a
      free chunk of its own. */
  lemma MisreadTop(h: Heap, topsize: nat, nb: nat)
    requires h.chunks == {} && h.top == h.first && h.first % 8 == 0 && h.first > 0
    requires topsize / 2 % 2 == 1 && nb % 8 == 0 && MIN_CHUNK <= nb < topsize
    ensures var cut, p := CutTags(h, nb, topsize), h.first;
      && p in Live(cut) && PrevUsed(cut, p) && End(cut, p) == cut.top && Used(cut, cut.top)
      && var freed := FreeTags(cut, p, cut.top, false);
         !Used(freed, p) && End(freed, p) == freed.top && !HeapOk(freed)
  {
    ParityKept(topsize, nb);
    var cut, p := CutTags(h, nb, topsize), h.first;
    var freed := FreeTags(cut, p, cut.top, false);
    assert p in freed.chunks;
    assert !ChunkOk(freed, p);
  }

  // ------------------------------------------------------------------ payloads

  /** The bytes a caller may use of a live chunk: from 16 past its start to 8 past
      its end */
  ghost predicate InPayload(h: Heap, a: nat, x: nat) {
    a in Live(h) && a + 16 <= x < a + Live(h)[a] + 8
  }

  lemma PayloadsDisjoint(h: Heap, a: nat, b: nat, x: nat)
    requires HeapOk(h) && InPayload(h, a, x) && InPayload(h, b, x)
    ensures a == b
  {
    assert ChunkOk(h, a) && ChunkOk(h, b) && Apart(h, a, b) && Apart(h, b, a);
  }

  /** An mspace made in a buffer hands out bytes of the buffer only, and none of
      its own parameters and state. */
  lemma PayloadInside(m: MSpace, base: nat, capacity: nat, a: nat, x: nat, s: nat)
    requires m.Valid() && m.limit + 24 == base + capacity && InPayload(m.H(), a, x)
    requires StateAt(base, s) && s + STATE_SIZE == m.first + 8
    ensures base + PARAMS_SIZE <= x < base + capacity && a % 8 == 0 && s + STATE_SIZE <= x
  {
    assert ChunkOk(m.H(), a);
  }

  /** There is one place for the state. */
  lemma StatePlace(base: nat) returns (s: nat)
    ensures StateAt(base, s) && forall a: nat :: StateAt(base, a) ==> a == s
  {
    var b := base + PARAMS_SIZE + 16;
    s := b + (8 - b % 8) % 8;
    assert s % 8 == 0;
  }

  /** A granted chunk has room for what was asked. */
  lemma RoomEnough(bytes: nat, size: nat)
    requires bytes < MAX_REQUEST && MSpace.NeededFor(bytes) <= size
    ensures bytes + 16 <= size + 8
  {
  }

  /** A request asks for the least chunk that has room for it and its head; one
      within 128 bytes of the address space asks for more than any chunk has. */
  lemma NeededIs(bytes: nat, n: nat)
    requires bytes < WORD
    ensures bytes < WORD - 128 ==>
      var nb := MSpace.NeededFor(bytes);
      && nb % 8 == 0 && bytes + 8 <= nb < WORD && 32 <= nb
      && (n % 8 == 0 && bytes + 8 <= n && 32 <= n ==> nb <= n)
    ensures bytes >= WORD - 128 ==> MSpace.NeededFor(bytes) == WORD - 1
  {
    if bytes < WORD - 128 && n % 8 == 0 && bytes + 8 <= n {
      NextMultiple(bytes + 15, n);
    }
  }

  lemma NextMultiple(b: nat, n: nat)
    requires n % 8 == 0 && b <= n + 7
    ensures b - b % 8 <= n
  {
    var i, j := b / 8, n / 8;
    assert b == 8 * i + b % 8 && n == 8 * j;
  }

  /** The first request of a run gets the bytes right after the state and the head
      of its own chunk. */
  lemma FirstBlock(s: Space, s': Space, base: nat, capacity: nat, a: nat, nb: nat, p: nat)
    requires IsEmpty(s, base, capacity) && StateAt(base, a) && Served(s, s', nb, p) && 0 < nb < s.topsize
    ensures p + 16 == a + STATE_SIZE + 8
  {
    assert forall c :: !Prefers(s, nb, c);
  }

  // ------------------------------------------------------------------ sessions

  /** A step of a run: ask for memory, or free what the k-th step got (nothing
      happens if that is nothing or freed already) */
  datatype Op = Get(bytes: nat) | Put(k: nat)

  /** Which chunk each step has got and not given back, 0 if none; results[i] is
      the chunk step i got. */
  function Held(ops: seq<Op>, results: seq<nat>): (held: seq<nat>)
    requires |ops| == |results|
    ensures |held| == |ops|
  {
    if ops == [] then []
    else
      var n := |ops| - 1;
      HeldNext(Held(ops[..n], results[..n]), ops[n], results[n])
  }

  function HeldNext(held: seq<nat>, op: Op, r: nat): (held': seq<nat>)
    ensures |held'| == |held| + 1
  {
    if op.Put? && op.k < |held| then held[op.k := 0] + [r] else held + [r]
  }

  /** What one step does to the heap: a request makes one chunk live, of the size
      asked for and less than a chunk more, and taken from where it should come
      from, or nothing fits; a free ends exactly one chunk's life and joins it with
      the free chunks it touches. */
  ghost predicate StepOk(limit: nat, s: Space, s': Space, op: Op, held: seq<nat>, r: nat) {
    && Moves(limit, s.heap, s'.heap, op, held, r)
    && match op
       case Get(bytes) => Served(s, s', MSpace.NeededFor(bytes), r)
       case Put(k) => if k < |held| && held[k] != 0 then Released(s, s', held[k]) else s' == s
  }

  ghost predicate Moves(limit: nat, h: Heap, h': Heap, op: Op, held: seq<nat>, r: nat) {
    match op
    case Get(bytes) =>
      var nb := MSpace.NeededFor(bytes);
      if r != 0 then
        && r !in Live(h) && r in Live(h') && Live(h') == Live(h)[r := Live(h')[r]]
        && nb <= Live(h')[r] < nb + MIN_CHUNK
      else h' == h && limit - h.top <= nb && forall c :: c in Free(h) ==> c.size < nb
    case Put(k) =>
      r == 0 && if k < |held| && held[k] != 0 then Live(h') == Live(h) - {held[k]} else h' == h
  }

  ghost predicate IsTrace(limit: nat, ops: seq<Op>, results: seq<nat>, spaces: seq<Space>) {
    && |spaces| == |ops| + 1 && |results| == |ops|
    && forall i :: 0 <= i < |ops| ==> TraceAt(limit, ops, results, spaces, i)
  }

  ghost predicate TraceAt(limit: nat, ops: seq<Op>, results: seq<nat>, spaces: seq<Space>, i: nat)
    requires i < |ops| == |results| && |spaces| == |ops| + 1
  {
    StepOk(limit, spaces[i], spaces[i + 1], ops[i], Held(ops[..i], results[..i]), results[i])
  }

  /** Exactly the chunks got and not given back are live, each once. */
  ghost predicate Holds(live: map<nat, nat>, held: seq<nat>) {
    && (forall k :: 0 <= k < |held| && held[k] != 0 ==> held[k] in live)
    && (forall a :: a in live ==> a in held && a != 0)
    && (forall j, k :: 0 <= j < k < |held| && held[j] != 0 ==> held[j] != held[k])
  }

  /** What step k has still got is what it asked for. */
  ghost predicate Sized(live: map<nat, nat>, ops: seq<Op>, held: seq<nat>)
    requires |held| == |ops|
  {
    forall k :: 0 <= k < |held| && held[k] != 0 ==>
      ops[k].Get? && held[k] in live && MSpace.NeededFor(ops[k].bytes) <= live[held[k]]
  }

  /** What such a run does to the live chunks */
  ghost predicate Moved(limit: nat, ops: seq<Op>, results: seq<nat>, heaps: seq<Heap>) {
    && |heaps| == |ops| + 1 && |results| == |ops|
    && forall i :: 0 <= i < |ops| ==> MovedAt(limit, ops, results, heaps, i)
  }

  ghost predicate MovedAt(limit: nat, ops: seq<Op>, results: seq<nat>, heaps: seq<Heap>, i: nat)
    requires i < |ops| == |results| && |heaps| == |ops| + 1
  {
    Moves(limit, heaps[i], heaps[i + 1], ops[i], Held(ops[..i], results[..i]), results[i])
  }

  lemma TraceMoved(limit: nat, ops: seq<Op>, results: seq<nat>, spaces: seq<Space>) returns (heaps: seq<Heap>)
    requires IsTrace(limit, ops, results, spaces)
    ensures Moved(limit, ops, results, heaps)
    ensures heaps[0] == spaces[0].heap && heaps[|ops|] == spaces[|ops|].heap
  {
    heaps := seq(|spaces|, i requires 0 <= i < |spaces| => spaces[i].heap);
    forall i: nat | i < |ops|
      ensures MovedAt(limit, ops, results, heaps, i)
    {
      assert TraceAt(limit, ops, results, spaces, i);
    }
  }

  lemma MovedSplit(limit: nat, ops: seq<Op>, results: seq<nat>, heaps: seq<Heap>, n: nat)
    requires Moved(limit, ops, results, heaps) && |ops| == n + 1
    ensures Moved(limit, ops[..n], results[..n], heaps[..n + 1])
  {
    var ops', results', heaps' := ops[..n], results[..n], heaps[..n + 1];
    forall i: nat | i < |ops'|
      ensures MovedAt(limit, ops', results', heaps', i)
    {
      assert MovedAt(limit, ops, results, heaps, i);
      assert ops'[..i] == ops[..i] && results'[..i] == results[..i];
    }
  }

  lemma HoldsMore(live: map<nat, nat>, held: seq<nat>, p: nat, size: nat)
    requires Holds(live, held) && p !in live && p != 0
    ensures Holds(live[p := size], held + [p])
  {
    var held' := held + [p];
    assert held'[|held|] == p;
    assert forall k :: 0 <= k < |held| ==> held'[k] == held[k];
  }

  lemma HoldsZero(live: map<nat, nat>, held: seq<nat>)
    requires Holds(live, held)
    ensures Holds(live, held + [0])
  {
    var held' := held + [0];
    forall a | a in live
      ensures a in held'
    {
      var j :| 0 <= j < |held| && held[j] == a;
      assert held'[j] == a;
    }
  }

  lemma HoldsLess(live: map<nat, nat>, held: seq<nat>, k: nat)
    requires Holds(live, held) && k < |held|
    ensures Holds(if held[k] != 0 then live - {held[k]} else live, held[k := 0])
  {
    var held', live' := held[k := 0], if held[k] != 0 then live - {held[k]} else live;
    forall a | a in live'
      ensures a in held'
    {
      var j :| 0 <= j < |held| && held[j] == a;
      assert held'[j] == a;
    }
  }

  /** One step keeps what is live and what is held the same. */
  lemma StepHolds(limit: nat, h: Heap, h': Heap, op: Op, held: seq<nat>, r: nat)
    requires Moves(limit, h, h', op, held, r) && Holds(Live(h), held)
    ensures Holds(Live(h'), HeldNext(held, op, r))
  {
    if op.Get? && r != 0 {
      HoldsMore(Live(h), held, r, Live(h')[r]);
    } else if op.Put? && op.k < |held| {
      HoldsLess(Live(h), held, op.k);
      HoldsZero(Live(h'), held[op.k := 0]);
    } else {
      HoldsZero(Live(h), held);
    }
  }

  lemma StepSized(limit: nat, h: Heap, h': Heap, ops: seq<Op>, held: seq<nat>, op: Op, r: nat)
    requires Moves(limit, h, h', op, held, r) && Holds(Live(h), held) && |held| == |ops| && Sized(Live(h), ops, held)
    ensures Sized(Live(h'), ops + [op], HeldNext(held, op, r))
  {
    var held', ops' := HeldNext(held, op, r), ops + [op];
    forall k: nat | k < |held'| && held'[k] != 0
      ensures ops'[k].Get? && held'[k] in Live(h') && MSpace.NeededFor(ops'[k].bytes) <= Live(h')[held'[k]]
    {
      if k < |held| { assert held'[k] == held[k] && ops'[k] == ops[k]; }
    }
  }

  lemma {:induction false} MovedLive(limit: nat, ops: seq<Op>, results: seq<nat>, heaps: seq<Heap>)
    requires Moved(limit, ops, results, heaps) && Live(heaps[0]) == map[]
    ensures Holds(Live(heaps[|ops|]), Held(ops, results)) && Sized(Live(heaps[|ops|]), ops, Held(ops, results))
    decreases |ops|
  {
    if ops != [] {
      var n: nat := |ops| - 1;
      MovedSplit(limit, ops, results, heaps, n);
      MovedLive(limit, ops[..n], results[..n], heaps[..n + 1]);
      assert MovedAt(limit, ops, results, heaps, n);
      var held := Held(ops[..n], results[..n]);
      StepHolds(limit, heaps[n], heaps[n + 1], ops[n], held, results[n]);
      StepSized(limit, heaps[n], heaps[n + 1], ops[..n], held, ops[n], results[n]);
      assert ops[..n] + [ops[n]] == ops;
    }
  }

  /** Over every run from an empty heap: live are exactly the chunks handed out
      and not given back, no two requests share one, and each is as large as was
      asked for. */
  lemma TraceLive(limit: nat, ops: seq<Op>, results: seq<nat>, spaces: seq<Space>)
    requires IsTrace(limit, ops, results, spaces) && Live(spaces[0].heap) == map[]
    ensures Holds(Live(spaces[|ops|].heap), Held(ops, results))
    ensures Sized(Live(spaces[|ops|].heap), ops, Held(ops, results))
  {
    var heaps := TraceMoved(limit, ops, results, spaces);
    MovedLive(limit, ops, results, heaps);
  }

  lemma TraceGrows(limit: nat, ops: seq<Op>, results: seq<nat>, spaces: seq<Space>, op: Op, r: nat, s: Space)
    requires IsTrace(limit, ops, results, spaces) && StepOk(limit, spaces[|ops|], s, op, Held(ops, results), r)
    ensures IsTrace(limit, ops + [op], results + [r], spaces + [s])
    ensures Held(ops + [op], results + [r]) == HeldNext(Held(ops, results), op, r)
  {
    var n, ops', results', spaces' := |ops|, ops + [op], results + [r], spaces + [s];
    assert ops'[..n] == ops && results'[..n] == results;
    forall i: nat | i < |ops'|
      ensures TraceAt(limit, ops', results', spaces', i)
    {
      if i < n {
        assert TraceAt(limit, ops, results, spaces, i);
        assert ops'[..i] == ops[..i] && results'[..i] == results[..i];
      }
    }
  }

  /** Any sequence of requests and frees, carried out on a valid mspace whose live
      chunks are the ones held */
  method Session(m: MSpace, ops: seq<Op>) returns (results: seq<nat>, ghost spaces: seq<Space>)
    requires m.Valid() && Live(m.H()) == map[]
    requires forall i :: 0 <= i < |ops| && ops[i].Get? ==> ops[i].bytes < WORD
    modifies m, m.trees, m.smalls
    ensures m.Valid() && IsTrace(m.limit, ops, results, spaces)
    ensures spaces[0] == old(m.Shape()) && spaces[|ops|] == m.Shape()
  {
    results := [];
    spaces := [m.Shape()];
    var held: seq<nat> := [];
    for i := 0 to |ops|
      invariant m.Valid() && IsTrace(m.limit, ops[..i], results, spaces)
      invariant spaces[0] == old(m.Shape()) && spaces[i] == m.Shape() && held == Held(ops[..i], results)
    {
      ghost var done, next := ops[..i], ops[..i + 1];
      assert next == done + [ops[i]];
      TraceLive(m.limit, done, results, spaces);
      var r := OneStep(m, ops[i], held);
      TraceGrows(m.limit, done, results, spaces, ops[i], r, m.Shape());
      results, spaces, held := results + [r], spaces + [m.Shape()], HeldNext(held, ops[i], r);
    }
    assert ops[..|ops|] == ops;
  }

  method OneStep(m: MSpace, op: Op, held: seq<nat>) returns (r: nat)
    requires m.Valid() && Holds(Live(m.H()), held) && (op.Get? ==> op.bytes < WORD)
    modifies m, m.trees, m.smalls
    ensures m.Valid() && StepOk(m.limit, old(m.Shape()), m.Shape(), op, held, r)
  {
    match op {
      case Get(bytes) => r := Request(m, bytes, held);
      case Put(k) =>
        r := 0;
        if k < |held| && held[k] != 0 {
          m.FreeMem(held[k] + 16);
        }
    }
  }

  method Request(m: MSpace, bytes: nat, ghost held: seq<nat>) returns (r: nat)
    requires m.Valid() && bytes < WORD
    modifies m, m.trees, m.smalls
    ensures m.Valid() && Moves(m.limit, old(m.H()), m.H(), Get(bytes), held, r)
    ensures Served(old(m.Shape()), m.Shape(), MSpace.NeededFor(bytes), r)
  {
    NotZero(m.H());
    var mem := m.Malloc(bytes);
    r := if mem == 0 then 0 else mem - 16;
  }

  lemma NotZero(h: Heap)
    requires HeapOk(h)
    ensures 0 !in Live(h)
  {
    BelowTop(h);
  }

  // ---------------------------------------------------------------- from the buffer on

  /** Payloads are disjoint, 8-aligned, inside the buffer, and clear of the
      allocator's own parameters and state. */
  ghost predicate Safe(h: Heap, base: nat, capacity: nat) {
    && (forall a, x: nat :: InPayload(h, a, x) ==> base + PARAMS_SIZE <= x < base + capacity && a % 8 == 0)
    && (forall a, x: nat, s: nat :: InPayload(h, a, x) && StateAt(base, s) ==> !(s <= x < s + STATE_SIZE))
    && (forall a, b, x: nat :: InPayload(h, a, x) && InPayload(h, b, x) ==> a == b)
  }

  /** Every block that is held has room for what was asked. */
  ghost predicate Roomy(live: map<nat, nat>, ops: seq<Op>, held: seq<nat>)
    requires |held| == |ops|
  {
    forall k :: 0 <= k < |held| && held[k] != 0 ==>
      ops[k].Get? && held[k] in live && ops[k].bytes + 16 <= live[held[k]] + 8
  }

  lemma SizedIsRoomy(m: MSpace, ops: seq<Op>, held: seq<nat>)
    requires m.Valid() && |held| == |ops| && Sized(Live(m.H()), ops, held)
    ensures Roomy(Live(m.H()), ops, held)
  {
    forall k | 0 <= k < |held| && held[k] != 0
      ensures ops[k].bytes + 16 <= Live(m.H())[held[k]] + 8
    {
      assert ChunkOk(m.H(), held[k]);
      BelowTop(m.H());
      RoomEnough(ops[k].bytes, Live(m.H())[held[k]]);
    }
  }

  lemma ValidIsSafe(m: MSpace, base: nat, capacity: nat)
    requires m.Valid() && m.limit + 24 == base + capacity
    requires forall a: nat :: StateAt(base, a) ==> a + STATE_SIZE == m.first + 8
    ensures Safe(m.H(), base, capacity)
  {
    var s := StatePlace(base);
    forall a, x: nat | InPayload(m.H(), a, x)
      ensures base + PARAMS_SIZE <= x < base + capacity && a % 8 == 0 && s + STATE_SIZE <= x
    {
      PayloadInside(m, base, capacity, a, x, s);
    }
    forall a, b, x: nat | InPayload(m.H(), a, x) && InPayload(m.H(), b, x)
      ensures a == b
    {
      PayloadsDisjoint(m.H(), a, b, x);
    }
  }

  /** The heap a run begins with: all of the buffer after the state is the top
      chunk. */
  ghost predicate IsEmpty(s: Space, base: nat, capacity: nat) {
    && Live(s.heap) == map[] && Free(s.heap) == {} && s.dv == NO_CHUNK
    && (forall a: nat :: StateAt(base, a) ==> a + STATE_SIZE == s.heap.top + 8)
    && s.heap.top + s.topsize + 24 == base + capacity
  }

  /** An mspace in a caller's buffer, through any run of requests and frees: live
      are exactly the blocks handed out and not given back, with room for what was
      asked, disjoint, 8-aligned, inside the buffer and clear of the allocator's own
      state; the usage counter is their sum. */
  method RunIn(base: nat, capacity: nat, pageSize: nat, ops: seq<Op>)
    returns (m: MSpace?, results: seq<nat>, ghost spaces: seq<Space>)
    requires 0 < base && base + PARAMS + capacity < WORD && FirstChunk(base) + TOP_FOOT < WORD && capacity < TWO40
    requires forall i :: 0 <= i < |ops| && ops[i].Get? ==> ops[i].bytes < WORD
    ensures m != null <==> Accepts(capacity, pageSize)
    ensures m != null && Usable(base, capacity) ==>
      && m.Valid() && IsTrace(m.limit, ops, results, spaces)
      && IsEmpty(spaces[0], base, capacity) && spaces[|ops|] == m.Shape()
      && Holds(Live(m.H()), Held(ops, results)) && Roomy(Live(m.H()), ops, Held(ops, results))
      && m.exts == Total(Live(m.H())) && Safe(m.H(), base, capacity)
  {
    m := Create(base, capacity, pageSize);
    results, spaces := [], [];
    if m != null && Usable(base, capacity) {
      results, spaces := Session(m, ops);
      TraceLive(m.limit, ops, results, spaces);
      SizedIsRoomy(m, ops, Held(ops, results));
      ValidIsSafe(m, base, capacity);
    }
  }
}
