/** The slot layout of the robin-hood table, on plain sequences: what an info
    byte means, which layouts are reachable, and why inserting, erasing and
    rescaling keep a layout in that set. */
module RobinHoodLayout {
  import opened Collections
  import opened Bits

  /** A slot of the node array: raw memory or a constructed pair */
  datatype Node<+K, +V> = Raw | Pair(key: K, val: V)

  /** Everything that fixes where a key may live: the number of buckets, the
      distance unit of an info byte, the hash shift, and the hash itself */
  datatype Geometry<!K> = Geometry(n: nat, inc: nat, shift: nat, hash: K -> Word)

  ghost predicate Sized<K>(g: Geometry<K>) {
    && g.n > 0
    && 59 <= g.shift <= 63
    && g.inc == Pow2(64 - g.shift)
  }

  function Next(i: nat, n: nat): (r: nat)
    requires i < n
    ensures r < n
  {
    if i + 1 == n then 0 else i + 1
  }

  function Prev(i: nat, n: nat): (r: nat)
    requires i < n
    ensures r < n
  {
    if i == 0 then n - 1 else i - 1
  }

  /** Steps from slot a forward to slot b, wrapping at n */
  function Dist(a: nat, b: nat, n: nat): (d: nat)
    requires a < n && b < n
    ensures d < n
  {
    if a <= b then b - a else b + n - a
  }

  /** The slot d steps after a */
  function At(a: nat, d: nat, n: nat): (i: nat)
    requires a < n && d < n
    ensures i < n && Dist(a, i, n) == d
  {
    if a + d < n then a + d else a + d - n
  }

  function Home<K>(g: Geometry<K>, k: K): (i: nat)
    requires g.n > 0
    ensures i < g.n
  {
    And(g.hash(k), g.n - 1)
  }

  /** The hash bits kept in an info byte */
  function Tag<K>(g: Geometry<K>, k: K): nat {
    Shr(g.hash(k), g.shift)
  }

  /** The info byte of an element d slots past its home */
  function InfoAt(inc: nat, tag: nat, d: nat): (b: nat)
    ensures b >= inc + tag
  {
    if d == 0 then inc + tag else InfoAt(inc, tag, d - 1) + inc
  }

  ghost predicate SlotShape<K, V>(g: Geometry<K>, b: nat, node: Node<K, V>, i: nat)
    requires i < g.n
  {
    match node
    case Raw => b == 0
    case Pair(k, _) => b == InfoAt(g.inc, Tag(g, k), Dist(Home(g, k), i, g.n))
  }

  ghost predicate Shaped<K, V>(g: Geometry<K>, info: seq<nat>, nodes: seq<Node<K, V>>) {
    && |nodes| == g.n <= |info|
    && forall i {:trigger SlotShape(g, info[i], nodes[i], i)} :: 0 <= i < g.n ==> SlotShape(g, info[i], nodes[i], i)
  }

  /** An element that is not at home sits behind one at least as far from home,
      counting hash bits as fractions of a step. */
  ghost predicate OrderedAt<K>(g: Geometry<K>, info: seq<nat>, i: nat)
    requires i < g.n <= |info|
  {
    info[i] >= 2 * g.inc ==> info[Prev(i, g.n)] + g.inc >= info[i]
  }

  ghost predicate Ordered<K>(g: Geometry<K>, info: seq<nat>)
    requires g.n <= |info|
  {
    forall i :: 0 <= i < g.n ==> OrderedAt(g, info, i)
  }

  /** `at` sends exactly the stored keys to the slots that hold them. */
  ghost predicate Indexed<K, V>(nodes: seq<Node<K, V>>, at: map<K, nat>) {
    && (forall k :: k in at ==> at[k] < |nodes| && nodes[at[k]].Pair? && nodes[at[k]].key == k)
    && (forall i :: 0 <= i < |nodes| && nodes[i].Pair? ==> nodes[i].key in at && at[nodes[i].key] == i)
  }

  /** The finite map a table stands for */
  ghost function Contents<K, V>(nodes: seq<Node<K, V>>, at: map<K, nat>): (m: map<K, V>)
    requires Indexed(nodes, at)
    ensures m.Keys == at.Keys
  {
    map k | k in at :: nodes[at[k]].val
  }

  ghost predicate Layout<K, V>(g: Geometry<K>, info: seq<nat>, nodes: seq<Node<K, V>>, at: map<K, nat>) {
    && Sized(g)
    && Shaped(g, info, nodes)
    && Ordered(g, info)
    && Indexed(nodes, at)
  }

  lemma TagBelowInc<K>(g: Geometry<K>, k: K)
    requires Sized(g)
    ensures Tag(g, k) < g.inc && g.inc >= 2 && g.inc % 2 == 0
  {
    Pow2Of64();
    ShrBound(g.hash(k), g.shift, 64);
  }

  lemma {:induction false} InfoAtRange(inc: nat, tag: nat, d: nat)
    requires tag < inc
    ensures d == 0 <==> InfoAt(inc, tag, d) < 2 * inc
  {
    if d > 1 {
      InfoAtRange(inc, tag, d - 1);
    }
  }

  /** Every slot between a stored key's home and the key itself holds a byte no
      smaller than the one a probe for that key carries there. */
  lemma {:induction false} ProbeReaches<K, V>(g: Geometry<K>, info: seq<nat>, nodes: seq<Node<K, V>>, s: nat, j: nat)
    requires Sized(g) && Shaped(g, info, nodes) && Ordered(g, info)
    requires s < g.n && nodes[s].Pair?
    requires j <= Dist(Home(g, nodes[s].key), s, g.n)
    ensures info[At(Home(g, nodes[s].key), j, g.n)] >= InfoAt(g.inc, Tag(g, nodes[s].key), j)
    decreases Dist(Home(g, nodes[s].key), s, g.n) - j
  {
    var k := nodes[s].key;
    var home := Home(g, k);
    if j == Dist(home, s, g.n) {
      assert SlotShape(g, info[s], nodes[s], s);
    } else {
      ProbeReaches(g, info, nodes, s, j + 1);
      var i := At(home, j + 1, g.n);
      assert OrderedAt(g, info, i);
      assert Prev(i, g.n) == At(home, j, g.n);
    }
  }

  /** A byte of zero is the same thing as raw memory. */
  lemma ZeroIsRaw<K, V>(g: Geometry<K>, info: seq<nat>, nodes: seq<Node<K, V>>, i: nat)
    requires Sized(g) && Shaped(g, info, nodes) && i < g.n
    ensures info[i] == 0 <==> nodes[i].Raw?
    ensures nodes[i].Pair? ==> info[i] >= g.inc >= 2
  {
    assert SlotShape(g, info[i], nodes[i], i);
    if nodes[i].Pair? {
      TagBelowInc(g, nodes[i].key);
    }
  }

  /** No stored key's probe crosses a raw slot, so its distance can still grow. */
  lemma BeforeRaw<K, V>(g: Geometry<K>, info: seq<nat>, nodes: seq<Node<K, V>>, s: nat, e: nat)
    requires Sized(g) && Shaped(g, info, nodes) && Ordered(g, info)
    requires s < g.n && nodes[s].Pair? && e < g.n && nodes[e].Raw?
    ensures Dist(Home(g, nodes[s].key), s, g.n) < Dist(Home(g, nodes[s].key), e, g.n)
  {
    var home := Home(g, nodes[s].key);
    if Dist(home, e, g.n) <= Dist(home, s, g.n) {
      TagBelowInc(g, nodes[s].key);
      ZeroIsRaw(g, info, nodes, e);
      ProbeReaches(g, info, nodes, s, Dist(home, e, g.n));
      assert false;
    }
  }

  // ------------------------------------------------------------------ probing

  /** A probe for k has made j steps and carries byte b at slot i; it has not
      passed the slot of k nor the raw slot e. */
  ghost predicate Probe<K, V>(g: Geometry<K>, info: seq<nat>, nodes: seq<Node<K, V>>, at: map<K, nat>,
                              k: K, e: nat, j: nat, i: nat, b: nat)
    requires Layout(g, info, nodes, at)
  {
    && e < g.n && nodes[e].Raw?
    && j <= Dist(Home(g, k), e, g.n)
    && i == At(Home(g, k), j, g.n)
    && b == InfoAt(g.inc, Tag(g, k), j)
    && (j > 0 ==> info[Prev(i, g.n)] + g.inc >= b)
    && (k in at ==> j <= Dist(Home(g, k), at[k], g.n))
  }

  lemma ProbeStep<K, V>(g: Geometry<K>, info: seq<nat>, nodes: seq<Node<K, V>>, at: map<K, nat>,
                        k: K, e: nat, j: nat, i: nat, b: nat)
    requires Layout(g, info, nodes, at) && Probe(g, info, nodes, at, k, e, j, i, b)
    requires b <= info[i] && (k in at ==> at[k] != i)
    ensures Probe(g, info, nodes, at, k, e, j + 1, Next(i, g.n), b + g.inc)
    ensures info[Next(i, g.n)] <= info[i] + g.inc
  {
    ZeroIsRaw(g, info, nodes, e);
    IncIsEven(g);
    assert OrderedAt(g, info, Next(i, g.n));
    assert Prev(Next(i, g.n), g.n) == i;
  }

  lemma ProbeStops<K, V>(g: Geometry<K>, info: seq<nat>, nodes: seq<Node<K, V>>, at: map<K, nat>,
                         k: K, e: nat, j: nat, i: nat, b: nat)
    requires Layout(g, info, nodes, at) && Probe(g, info, nodes, at, k, e, j, i, b)
    requires b > info[i]
    ensures k !in at && StopsAt(g, info, k, j, i, b)
  {
    if k in at {
      ProbeReaches(g, info, nodes, at[k], j);
    }
  }

  /** The byte at a stored key's own slot is the one its probe carries there. */
  lemma ProbeHits<K, V>(g: Geometry<K>, info: seq<nat>, nodes: seq<Node<K, V>>, at: map<K, nat>,
                        k: K, e: nat, j: nat, i: nat, b: nat)
    requires Layout(g, info, nodes, at) && Probe(g, info, nodes, at, k, e, j, i, b)
    requires k in at && at[k] == i
    ensures info[i] == b
  {
    assert SlotShape(g, info[i], nodes[i], i);
  }

  // ---------------------------------------------------------------- insertion

  /** The slots from p up to the raw slot e move one step on, their bytes grow
      by one distance unit, and the new pair takes slot p. */
  ghost predicate InsertedSlot<K, V>(g: Geometry<K>, info: seq<nat>, nodes: seq<Node<K, V>>,
                                     info': seq<nat>, nodes': seq<Node<K, V>>, p: nat, e: nat, x: nat)
    requires p < g.n && e < g.n && x < g.n
    requires |nodes| == g.n <= |info| && |nodes'| == g.n && |info'| == |info|
  {
    if Dist(p, x, g.n) > Dist(p, e, g.n) then nodes'[x] == nodes[x] && info'[x] == info[x]
    else x != p ==> nodes'[x] == nodes[Prev(x, g.n)] && info'[x] == info[Prev(x, g.n)] + g.inc
  }

  ghost predicate InsertedAt<K, V>(g: Geometry<K>, info: seq<nat>, nodes: seq<Node<K, V>>,
                                   info': seq<nat>, nodes': seq<Node<K, V>>, p: nat, e: nat, b: nat, k: K, v: V)
    requires p < g.n && e < g.n && |nodes| == g.n <= |info|
  {
    && |nodes'| == g.n && |info'| == |info|
    && nodes'[p] == Pair(k, v) && info'[p] == b
    && (forall x :: 0 <= x < g.n ==> InsertedSlot(g, info, nodes, info', nodes', p, e, x))
  }

  /** Half-way through the upward shift: slots beyond idx are done. */
  ghost predicate ShiftingSlot<K, V>(g: Geometry<K>, info0: seq<nat>, nodes0: seq<Node<K, V>>,
                                     info: seq<nat>, nodes: seq<Node<K, V>>, p: nat, e: nat, idx: nat, x: nat)
    requires p < g.n && e < g.n && idx < g.n && x < g.n
    requires |nodes0| == g.n <= |info0| && |nodes| == g.n && |info| == |info0|
  {
    if Dist(p, x, g.n) > Dist(p, idx, g.n) then InsertedSlot(g, info0, nodes0, info, nodes, p, e, x)
    else nodes[x] == nodes0[x] && info[x] == info0[x]
  }

  ghost predicate Shifting<K, V>(g: Geometry<K>, info0: seq<nat>, nodes0: seq<Node<K, V>>,
                                 info: seq<nat>, nodes: seq<Node<K, V>>, p: nat, e: nat, idx: nat)
    requires p < g.n && e < g.n && |nodes0| == g.n <= |info0|
  {
    && |nodes| == g.n && |info| == |info0| && info[g.n..] == info0[g.n..]
    && idx < g.n && Dist(p, idx, g.n) <= Dist(p, e, g.n)
    && forall x :: 0 <= x < g.n ==> ShiftingSlot(g, info0, nodes0, info, nodes, p, e, idx, x)
  }

  lemma ShiftingStep<K, V>(g: Geometry<K>, info0: seq<nat>, nodes0: seq<Node<K, V>>,
                           info: seq<nat>, nodes: seq<Node<K, V>>, p: nat, e: nat, idx: nat)
    requires p < g.n && e < g.n && |nodes0| == g.n <= |info0|
    requires Shifting(g, info0, nodes0, info, nodes, p, e, idx) && idx != p
    ensures info[Prev(idx, g.n)] == info0[Prev(idx, g.n)]
    ensures Shifting(g, info0, nodes0, info[idx := info[Prev(idx, g.n)] + g.inc],
                     nodes[idx := nodes[Prev(idx, g.n)]], p, e, Prev(idx, g.n))
  {
    var y := Prev(idx, g.n);
    var info', nodes' := info[idx := info[y] + g.inc], nodes[idx := nodes[y]];
    assert ShiftingSlot(g, info0, nodes0, info, nodes, p, e, idx, y);
    forall x | 0 <= x < g.n
      ensures ShiftingSlot(g, info0, nodes0, info', nodes', p, e, y, x)
    {
      assert ShiftingSlot(g, info0, nodes0, info, nodes, p, e, idx, x);
    }
    assert info'[g.n..] == info[g.n..];
  }

  lemma ShiftingDone<K, V>(g: Geometry<K>, info0: seq<nat>, nodes0: seq<Node<K, V>>,
                           info: seq<nat>, nodes: seq<Node<K, V>>, p: nat, e: nat, b: nat, k: K, v: V)
    requires p < g.n && e < g.n && |nodes0| == g.n <= |info0|
    requires Shifting(g, info0, nodes0, info, nodes, p, e, p)
    ensures InsertedAt(g, info0, nodes0, info[p := b], nodes[p := Pair(k, v)], p, e, b, k, v)
  {
    var info', nodes' := info[p := b], nodes[p := Pair(k, v)];
    forall x | 0 <= x < g.n
      ensures InsertedSlot(g, info0, nodes0, info', nodes', p, e, x)
    {
      assert ShiftingSlot(g, info0, nodes0, info, nodes, p, e, p, x);
    }
  }

  /** Slot p is where a probe for the absent key k must stop: the byte there is
      smaller than the probe's, and the one before it is not. */
  ghost predicate StopsAt<K>(g: Geometry<K>, info: seq<nat>, k: K, j: nat, p: nat, b: nat)
    requires g.n > 0 && g.n <= |info|
  {
    && j < g.n && p == At(Home(g, k), j, g.n)
    && b == InfoAt(g.inc, Tag(g, k), j)
    && info[p] < b
    && (j > 0 ==> info[Prev(p, g.n)] + g.inc >= b)
  }

  ghost predicate UsedBefore<K, V>(nodes: seq<Node<K, V>>, p: nat, e: nat)
    requires p < |nodes| && e < |nodes|
  {
    forall x :: 0 <= x < |nodes| && Dist(p, x, |nodes|) < Dist(p, e, |nodes|) ==> nodes[x].Pair?
  }

  ghost predicate UsedUpTo<K, V>(nodes: seq<Node<K, V>>, p: nat, e: nat)
    requires p < |nodes| && e < |nodes|
  {
    nodes[e].Raw? && UsedBefore(nodes, p, e)
  }

  lemma UsedStep<K, V>(nodes: seq<Node<K, V>>, p: nat, i: nat, e: nat)
    requires p < |nodes| && i < |nodes| && e < |nodes| && nodes[i].Pair? && nodes[e].Raw?
    requires UsedBefore(nodes, p, i) && Dist(p, i, |nodes|) <= Dist(p, e, |nodes|)
    ensures UsedBefore(nodes, p, Next(i, |nodes|))
    ensures Dist(p, i, |nodes|) < Dist(p, Next(i, |nodes|), |nodes|) <= Dist(p, e, |nodes|)
  {
    forall x | 0 <= x < |nodes| && Dist(p, x, |nodes|) < Dist(p, Next(i, |nodes|), |nodes|)
      ensures nodes[x].Pair?
    {
      assert x == i || Dist(p, x, |nodes|) < Dist(p, i, |nodes|);
    }
  }

  /** Where every old key is after the shift */
  ghost function Moved<K>(at: map<K, nat>, p: nat, e: nat, n: nat): map<K, nat>
    requires p < n && e < n && forall k :: k in at ==> at[k] < n
  {
    map k | k in at :: if Dist(p, at[k], n) < Dist(p, e, n) then Next(at[k], n) else at[k]
  }

  lemma InsertShaped<K, V>(g: Geometry<K>, info: seq<nat>, nodes: seq<Node<K, V>>,
                           info': seq<nat>, nodes': seq<Node<K, V>>, p: nat, e: nat, b: nat, j: nat, k: K, v: V)
    requires Sized(g) && Shaped(g, info, nodes) && Ordered(g, info)
    requires StopsAt(g, info, k, j, p, b)
    requires e < g.n && UsedUpTo(nodes, p, e)
    requires InsertedAt(g, info, nodes, info', nodes', p, e, b, k, v)
    ensures Shaped(g, info', nodes')
  {
    forall x | 0 <= x < g.n
      ensures SlotShape(g, info'[x], nodes'[x], x)
    {
      assert InsertedSlot(g, info, nodes, info', nodes', p, e, x);
      if x != p && Dist(p, x, g.n) <= Dist(p, e, g.n) {
        var y := Prev(x, g.n);
        assert Dist(p, y, g.n) < Dist(p, e, g.n);
        BeforeRaw(g, info, nodes, y, e);
        assert SlotShape(g, info[y], nodes[y], y);
        var home := Home(g, nodes[y].key);
        assert Dist(home, x, g.n) == Dist(home, y, g.n) + 1;
      } else if x != p {
        assert SlotShape(g, info[x], nodes[x], x);
      }
    }
  }

  lemma InsertOrdered<K, V>(g: Geometry<K>, info: seq<nat>, nodes: seq<Node<K, V>>,
                            info': seq<nat>, nodes': seq<Node<K, V>>, p: nat, e: nat, b: nat, j: nat, k: K, v: V)
    requires Sized(g) && Shaped(g, info, nodes) && Ordered(g, info)
    requires StopsAt(g, info, k, j, p, b)
    requires e < g.n && UsedUpTo(nodes, p, e)
    requires InsertedAt(g, info, nodes, info', nodes', p, e, b, k, v)
    ensures Ordered(g, info')
  {
    forall x | 0 <= x < g.n
      ensures OrderedAt(g, info', x)
    {
      var y := Prev(x, g.n);
      assert InsertedSlot(g, info, nodes, info', nodes', p, e, x);
      assert InsertedSlot(g, info, nodes, info', nodes', p, e, y);
      assert OrderedAt(g, info, x);
      ZeroIsRaw(g, info, nodes, e);
      if x == p {
        TagBelowInc(g, k);
        InfoAtRange(g.inc, Tag(g, k), j);
      } else if y != p && Dist(p, x, g.n) <= Dist(p, e, g.n) {
        assert OrderedAt(g, info, y);
        ZeroIsRaw(g, info, nodes, Prev(y, g.n));
      }
    }
  }

  lemma InsertKeyFollows<K, V>(g: Geometry<K>, info: seq<nat>, nodes: seq<Node<K, V>>, at: map<K, nat>,
                               info': seq<nat>, nodes': seq<Node<K, V>>, p: nat, e: nat, q: K)
    requires |nodes| == g.n <= |info| && |nodes'| == g.n && |info'| == |info| && Indexed(nodes, at) && q in at
    requires p < g.n && e < g.n && UsedUpTo(nodes, p, e)
    requires forall x :: 0 <= x < g.n ==> InsertedSlot(g, info, nodes, info', nodes', p, e, x)
    ensures var x := Moved(at, p, e, g.n)[q]; x < g.n && x != p && nodes'[x] == nodes[at[q]]
  {
    var x := at[q];
    assert InsertedSlot(g, info, nodes, info', nodes', p, e, Moved(at, p, e, g.n)[q]);
    if Dist(p, x, g.n) < Dist(p, e, g.n) {
      assert Prev(Next(x, g.n), g.n) == x;
    }
  }

  lemma InsertSlotFollows<K, V>(g: Geometry<K>, info: seq<nat>, nodes: seq<Node<K, V>>, at: map<K, nat>,
                                info': seq<nat>, nodes': seq<Node<K, V>>, p: nat, e: nat, x: nat)
    requires |nodes| == g.n <= |info| && |nodes'| == g.n && |info'| == |info| && Indexed(nodes, at)
    requires p < g.n && e < g.n && UsedUpTo(nodes, p, e)
    requires x < g.n && InsertedSlot(g, info, nodes, info', nodes', p, e, x)
    requires nodes'[x].Pair? && x != p
    ensures nodes'[x].key in at && Moved(at, p, e, g.n)[nodes'[x].key] == x
  {
    if Dist(p, x, g.n) <= Dist(p, e, g.n) {
      var y := Prev(x, g.n);
      assert Dist(p, y, g.n) < Dist(p, e, g.n) && Next(y, g.n) == x;
    }
  }

  lemma InsertIndexed<K, V>(g: Geometry<K>, info: seq<nat>, nodes: seq<Node<K, V>>, at: map<K, nat>,
                            info': seq<nat>, nodes': seq<Node<K, V>>, p: nat, e: nat, b: nat, k: K, v: V)
    requires |nodes| == g.n <= |info| && Indexed(nodes, at) && k !in at
    requires p < g.n && e < g.n && UsedUpTo(nodes, p, e)
    requires InsertedAt(g, info, nodes, info', nodes', p, e, b, k, v)
    ensures Indexed(nodes', Moved(at, p, e, g.n)[k := p])
    ensures Contents(nodes', Moved(at, p, e, g.n)[k := p]) == Contents(nodes, at)[k := v]
  {
    var moved := Moved(at, p, e, g.n);
    forall q | q in at
      ensures moved[q] < g.n && moved[q] != p && nodes'[moved[q]] == nodes[at[q]]
    {
      InsertKeyFollows(g, info, nodes, at, info', nodes', p, e, q);
    }
    forall x | 0 <= x < g.n && nodes'[x].Pair? && x != p
      ensures nodes'[x].key in at && moved[nodes'[x].key] == x
    {
      assert InsertedSlot(g, info, nodes, info', nodes', p, e, x);
      InsertSlotFollows(g, info, nodes, at, info', nodes', p, e, x);
    }
  }

  /** Inserting an absent key where its probe stops keeps the layout and adds
      exactly that key. */
  lemma InsertKeepsLayout<K, V>(g: Geometry<K>, info: seq<nat>, nodes: seq<Node<K, V>>, at: map<K, nat>,
                                info': seq<nat>, nodes': seq<Node<K, V>>, p: nat, e: nat, b: nat, j: nat, k: K, v: V)
    returns (at': map<K, nat>)
    requires Layout(g, info, nodes, at) && k !in at
    requires StopsAt(g, info, k, j, p, b)
    requires e < g.n && UsedUpTo(nodes, p, e)
    requires InsertedAt(g, info, nodes, info', nodes', p, e, b, k, v)
    ensures Layout(g, info', nodes', at') && k in at' && at'[k] == p
    ensures Contents(nodes', at') == Contents(nodes, at)[k := v] && |at'| == |at| + 1
  {
    at' := Moved(at, p, e, g.n)[k := p];
    assert at'.Keys == at.Keys + {k};
    InsertShaped(g, info, nodes, info', nodes', p, e, b, j, k, v);
    InsertOrdered(g, info, nodes, info', nodes', p, e, b, j, k, v);
    InsertIndexed(g, info, nodes, at, info', nodes', p, e, b, k, v);
  }

  // ------------------------------------------------------------------ erasure

  /** The slots after q up to r move one step back, their bytes shrink by one
      distance unit, and slot r becomes raw. */
  ghost predicate ErasedSlot<K, V>(g: Geometry<K>, info: seq<nat>, nodes: seq<Node<K, V>>,
                                   info': seq<nat>, nodes': seq<Node<K, V>>, q: nat, r: nat, x: nat)
    requires q < g.n && r < g.n && x < g.n
    requires |nodes| == g.n <= |info| && |nodes'| == g.n && |info'| == |info|
  {
    if x == r then nodes'[x] == Raw && info'[x] == 0
    else if Dist(q, x, g.n) < Dist(q, r, g.n) then
      nodes'[x] == nodes[Next(x, g.n)] && info'[x] + g.inc == info[Next(x, g.n)]
    else nodes'[x] == nodes[x] && info'[x] == info[x]
  }

  ghost predicate ErasedAt<K, V>(g: Geometry<K>, info: seq<nat>, nodes: seq<Node<K, V>>,
                                 info': seq<nat>, nodes': seq<Node<K, V>>, q: nat, r: nat)
    requires q < g.n && r < g.n && |nodes| == g.n <= |info|
  {
    && |nodes'| == g.n && |info'| == |info|
    && forall x :: 0 <= x < g.n ==> ErasedSlot(g, info, nodes, info', nodes', q, r, x)
  }

  /** Half-way through the backward shift: slots before idx are done. */
  ghost predicate ClosingSlot<K, V>(g: Geometry<K>, info0: seq<nat>, nodes0: seq<Node<K, V>>,
                                    info: seq<nat>, nodes: seq<Node<K, V>>, q: nat, idx: nat, x: nat)
    requires q < g.n && idx < g.n && x < g.n
    requires |nodes0| == g.n <= |info0| && |nodes| == g.n && |info| == |info0|
  {
    if Dist(q, x, g.n) < Dist(q, idx, g.n) then
      nodes[x] == nodes0[Next(x, g.n)] && info[x] + g.inc == info0[Next(x, g.n)]
    else nodes[x] == nodes0[x] && info[x] == info0[x]
  }

  ghost predicate Closing<K, V>(g: Geometry<K>, info0: seq<nat>, nodes0: seq<Node<K, V>>,
                                info: seq<nat>, nodes: seq<Node<K, V>>, q: nat, idx: nat)
    requires q < g.n && |nodes0| == g.n <= |info0|
  {
    && |nodes| == g.n && |info| == |info0| && info[g.n..] == info0[g.n..] && idx < g.n
    && (forall x :: 0 <= x < g.n ==> ClosingSlot(g, info0, nodes0, info, nodes, q, idx, x))
    && (forall x :: 0 <= x < g.n && Dist(q, x, g.n) < Dist(q, idx, g.n) ==> FollowerAway(g, info0, x))
  }

  lemma ClosingStep<K, V>(g: Geometry<K>, info0: seq<nat>, nodes0: seq<Node<K, V>>,
                          info: seq<nat>, nodes: seq<Node<K, V>>, info': seq<nat>, nodes': seq<Node<K, V>>,
                          q: nat, idx: nat, y: nat, e: nat)
    requires Sized(g) && Shaped(g, info0, nodes0) && q < g.n && nodes0[q].Pair?
    requires Closing(g, info0, nodes0, info, nodes, q, idx)
    requires e < g.n && nodes0[e].Raw?
    requires y == Next(idx, g.n) && info[y] >= 2 * g.inc
    requires info' == info[idx := info[y] - g.inc] && nodes' == nodes[idx := nodes[y]]
    ensures Closing(g, info0, nodes0, info', nodes', q, y)
    ensures Dist(q, idx, g.n) < Dist(q, y, g.n) <= Dist(q, e, g.n)
  {
    RunBeforeRaw(g, info0, nodes0, q, idx, e);
    assert ClosingSlot(g, info0, nodes0, info, nodes, q, idx, y);
    forall x | 0 <= x < g.n
      ensures ClosingSlot(g, info0, nodes0, info', nodes', q, y, x)
    {
      assert ClosingSlot(g, info0, nodes0, info, nodes, q, idx, x);
    }
    forall x | 0 <= x < g.n && Dist(q, x, g.n) < Dist(q, y, g.n)
      ensures FollowerAway(g, info0, x)
    {
      if x != idx {
        assert Dist(q, x, g.n) < Dist(q, idx, g.n);
      }
    }
    assert info'[g.n..] == info[g.n..];
  }

  /** The slot after the gap has not been touched yet. */
  lemma ClosingReads<K, V>(g: Geometry<K>, info0: seq<nat>, nodes0: seq<Node<K, V>>,
                           info: seq<nat>, nodes: seq<Node<K, V>>, q: nat, idx: nat, e: nat)
    requires Sized(g) && Shaped(g, info0, nodes0) && q < g.n && nodes0[q].Pair?
    requires Closing(g, info0, nodes0, info, nodes, q, idx)
    requires e < g.n && nodes0[e].Raw?
    ensures info[Next(idx, g.n)] == info0[Next(idx, g.n)]
  {
    RunBeforeRaw(g, info0, nodes0, q, idx, e);
    assert ClosingSlot(g, info0, nodes0, info, nodes, q, idx, Next(idx, g.n));
  }

  lemma ClosingDone<K, V>(g: Geometry<K>, info0: seq<nat>, nodes0: seq<Node<K, V>>,
                          info: seq<nat>, nodes: seq<Node<K, V>>, q: nat, r: nat)
    requires q < g.n && |nodes0| == g.n <= |info0|
    requires Closing(g, info0, nodes0, info, nodes, q, r)
    ensures ErasedAt(g, info0, nodes0, info[r := 0], nodes[r := Raw], q, r)
  {
    var info', nodes' := info[r := 0], nodes[r := Raw];
    forall x | 0 <= x < g.n
      ensures ErasedSlot(g, info0, nodes0, info', nodes', q, r, x)
    {
      assert ClosingSlot(g, info0, nodes0, info, nodes, q, r, x);
    }
  }

  ghost predicate FollowerAway<K>(g: Geometry<K>, info: seq<nat>, x: nat)
    requires x < g.n <= |info|
  {
    info[Next(x, g.n)] >= 2 * g.inc
  }

  /** The slots after q up to r hold elements away from home; the one after r
      does not. */
  ghost predicate RunAfter<K>(g: Geometry<K>, info: seq<nat>, q: nat, r: nat)
    requires q < g.n && r < g.n && g.n <= |info|
  {
    && (forall x :: 0 <= x < g.n && Dist(q, x, g.n) < Dist(q, r, g.n) ==> FollowerAway(g, info, x))
    && !FollowerAway(g, info, r)
  }

  /** A run of displaced elements never reaches a raw slot. */
  lemma RunBeforeRaw<K, V>(g: Geometry<K>, info: seq<nat>, nodes: seq<Node<K, V>>,
                           q: nat, r: nat, e: nat)
    requires Sized(g) && Shaped(g, info, nodes)
    requires q < g.n && r < g.n && e < g.n && nodes[q].Pair? && nodes[e].Raw?
    requires forall x :: 0 <= x < g.n && Dist(q, x, g.n) < Dist(q, r, g.n) ==> FollowerAway(g, info, x)
    ensures Dist(q, r, g.n) < Dist(q, e, g.n)
  {
    ZeroIsRaw(g, info, nodes, e);
    IncIsEven(g);
    assert !FollowerAway(g, info, Prev(e, g.n));
  }

  lemma IncIsEven<K>(g: Geometry<K>)
    requires Sized(g)
    ensures 2 <= g.inc <= 32 && g.inc % 2 == 0
  {
    assert Pow2(1) == 2 && Pow2(2) == 4 && Pow2(3) == 8 && Pow2(4) == 16 && Pow2(5) == 32;
    assert g.shift in {59, 60, 61, 62, 63};
  }

  lemma EraseShaped<K, V>(g: Geometry<K>, info: seq<nat>, nodes: seq<Node<K, V>>,
                          info': seq<nat>, nodes': seq<Node<K, V>>, q: nat, r: nat)
    requires Sized(g) && Shaped(g, info, nodes)
    requires q < g.n && r < g.n && RunAfter(g, info, q, r)
    requires ErasedAt(g, info, nodes, info', nodes', q, r)
    ensures Shaped(g, info', nodes')
  {
    forall x | 0 <= x < g.n
      ensures SlotShape(g, info'[x], nodes'[x], x)
    {
      assert ErasedSlot(g, info, nodes, info', nodes', q, r, x);
      if x != r && Dist(q, x, g.n) < Dist(q, r, g.n) {
        var y := Next(x, g.n);
        assert FollowerAway(g, info, x);
        assert SlotShape(g, info[y], nodes[y], y);
        var home := Home(g, nodes[y].key);
        TagBelowInc(g, nodes[y].key);
        InfoAtRange(g.inc, Tag(g, nodes[y].key), Dist(home, y, g.n));
        assert Dist(home, y, g.n) == Dist(home, x, g.n) + 1;
      } else if x != r {
        assert SlotShape(g, info[x], nodes[x], x);
      }
    }
  }

  lemma EraseOrdered<K, V>(g: Geometry<K>, info: seq<nat>, nodes: seq<Node<K, V>>,
                           info': seq<nat>, nodes': seq<Node<K, V>>, q: nat, r: nat, e: nat)
    requires Sized(g) && Shaped(g, info, nodes) && Ordered(g, info)
    requires q < g.n && r < g.n && nodes[q].Pair? && RunAfter(g, info, q, r)
    requires e < g.n && nodes[e].Raw?
    requires ErasedAt(g, info, nodes, info', nodes', q, r)
    ensures Ordered(g, info')
  {
    RunBeforeRaw(g, info, nodes, q, r, e);
    forall x | 0 <= x < g.n
      ensures OrderedAt(g, info', x)
    {
      var y := Prev(x, g.n);
      assert ErasedSlot(g, info, nodes, info', nodes', q, r, x);
      assert ErasedSlot(g, info, nodes, info', nodes', q, r, y);
      assert OrderedAt(g, info, x);
      assert OrderedAt(g, info, Next(x, g.n));
      assert Next(y, g.n) == x;
    }
  }

  /** Where every remaining key is after the backward shift */
  ghost function MovedBack<K>(at: map<K, nat>, gone: K, q: nat, r: nat, n: nat): map<K, nat>
    requires q < n && r < n && forall k :: k in at ==> at[k] < n
  {
    map k | k in at && k != gone ::
      if 1 <= Dist(q, at[k], n) <= Dist(q, r, n) then Prev(at[k], n) else at[k]
  }

  lemma EraseKeyFollows<K, V>(g: Geometry<K>, info: seq<nat>, nodes: seq<Node<K, V>>, at: map<K, nat>,
                              info': seq<nat>, nodes': seq<Node<K, V>>, q: nat, r: nat, k: K)
    requires |nodes| == g.n <= |info| && Indexed(nodes, at) && k in at
    requires q < g.n && r < g.n && nodes[q].Pair? && k != nodes[q].key
    requires ErasedAt(g, info, nodes, info', nodes', q, r)
    ensures var x := MovedBack(at, nodes[q].key, q, r, g.n)[k]; x < g.n && nodes'[x] == nodes[at[k]]
  {
    var x := MovedBack(at, nodes[q].key, q, r, g.n)[k];
    assert at[k] != q;
    assert ErasedSlot(g, info, nodes, info', nodes', q, r, x);
  }

  lemma EraseSlotFollows<K, V>(g: Geometry<K>, info: seq<nat>, nodes: seq<Node<K, V>>, at: map<K, nat>,
                               info': seq<nat>, nodes': seq<Node<K, V>>, q: nat, r: nat, x: nat)
    requires |nodes| == g.n <= |info| && |nodes'| == g.n && |info'| == |info| && Indexed(nodes, at)
    requires q < g.n && r < g.n && nodes[q].Pair?
    requires x < g.n && ErasedSlot(g, info, nodes, info', nodes', q, r, x) && nodes'[x].Pair?
    ensures nodes'[x].key in at && nodes'[x].key != nodes[q].key
    ensures MovedBack(at, nodes[q].key, q, r, g.n)[nodes'[x].key] == x
  {
    if Dist(q, x, g.n) < Dist(q, r, g.n) {
      var y := Next(x, g.n);
      assert Prev(y, g.n) == x && Dist(q, y, g.n) == Dist(q, x, g.n) + 1;
    }
  }

  lemma EraseIndexed<K, V>(g: Geometry<K>, info: seq<nat>, nodes: seq<Node<K, V>>, at: map<K, nat>,
                           info': seq<nat>, nodes': seq<Node<K, V>>, q: nat, r: nat)
    requires |nodes| == g.n <= |info| && Indexed(nodes, at)
    requires q < g.n && r < g.n && nodes[q].Pair?
    requires ErasedAt(g, info, nodes, info', nodes', q, r)
    ensures Indexed(nodes', MovedBack(at, nodes[q].key, q, r, g.n))
    ensures Contents(nodes', MovedBack(at, nodes[q].key, q, r, g.n)) == Contents(nodes, at) - {nodes[q].key}
  {
    var moved := MovedBack(at, nodes[q].key, q, r, g.n);
    forall k | k in moved
      ensures moved[k] < g.n && nodes'[moved[k]] == nodes[at[k]]
    {
      EraseKeyFollows(g, info, nodes, at, info', nodes', q, r, k);
    }
    forall x | 0 <= x < g.n && nodes'[x].Pair?
      ensures nodes'[x].key in moved && moved[nodes'[x].key] == x
    {
      assert ErasedSlot(g, info, nodes, info', nodes', q, r, x);
      EraseSlotFollows(g, info, nodes, at, info', nodes', q, r, x);
    }
  }

  /** Erasing by backward shift keeps the layout and removes exactly that key. */
  lemma EraseKeepsLayout<K, V>(g: Geometry<K>, info: seq<nat>, nodes: seq<Node<K, V>>, at: map<K, nat>,
                               info': seq<nat>, nodes': seq<Node<K, V>>, q: nat, r: nat, e: nat)
    returns (at': map<K, nat>)
    requires Layout(g, info, nodes, at)
    requires q < g.n && r < g.n && nodes[q].Pair? && RunAfter(g, info, q, r)
    requires e < g.n && nodes[e].Raw?
    requires ErasedAt(g, info, nodes, info', nodes', q, r)
    ensures Layout(g, info', nodes', at')
    ensures Contents(nodes', at') == Contents(nodes, at) - {nodes[q].key} && |at'| == |at| - 1
  {
    at' := MovedBack(at, nodes[q].key, q, r, g.n);
    assert at'.Keys == at.Keys - {nodes[q].key};
    EraseShaped(g, info, nodes, info', nodes', q, r);
    EraseOrdered(g, info, nodes, info', nodes', q, r, e);
    EraseIndexed(g, info, nodes, at, info', nodes', q, r);
  }

  // ------------------------------------------------------------------ rescale

  lemma {:induction false} InfoAtHalves(inc: nat, tag: nat, d: nat)
    requires inc % 2 == 0
    ensures InfoAt(inc / 2, tag / 2, d) == InfoAt(inc, tag, d) / 2
  {
    if d > 0 {
      InfoAtHalves(inc, tag, d - 1);
    }
  }

  ghost predicate Halved(n: nat, info: seq<nat>, info': seq<nat>)
    requires n <= |info|
  {
    |info'| == |info| && info'[n..] == info[n..] && forall i :: 0 <= i < n ==> info'[i] == info[i] / 2
  }

  /** Halving every info byte gives the same layout for one hash bit less. */
  lemma RescaleKeepsLayout<K, V>(g: Geometry<K>, info: seq<nat>, nodes: seq<Node<K, V>>, at: map<K, nat>,
                                 info': seq<nat>)
    requires Layout(g, info, nodes, at) && g.shift < 63
    requires Halved(g.n, info, info')
    ensures Layout(g.(inc := g.inc / 2, shift := g.shift + 1), info', nodes, at)
  {
    var h := g.(inc := g.inc / 2, shift := g.shift + 1);
    IncIsEven(g);
    forall i | 0 <= i < g.n
      ensures SlotShape(h, info'[i], nodes[i], i)
    {
      assert SlotShape(g, info[i], nodes[i], i);
      if nodes[i].Pair? {
        var k := nodes[i].key;
        ShrStep(g.hash(k), g.shift);
        InfoAtHalves(g.inc, Tag(g, k), Dist(Home(g, k), i, g.n));
      }
    }
    forall i | 0 <= i < g.n
      ensures OrderedAt(h, info', i)
    {
      assert OrderedAt(g, info, i);
    }
  }

  // ------------------------------------------------------------------ counting

  lemma {:induction false} DistinctKeys<K, V>(nodes: seq<Node<K, V>>, at: map<K, nat>, m: nat)
    requires Indexed(nodes, at) && m <= |nodes|
    requires forall i :: 0 <= i < m ==> nodes[i].Pair?
    ensures (set i | 0 <= i < m :: nodes[i].key) <= at.Keys
    ensures |set i | 0 <= i < m :: nodes[i].key| == m
  {
    if m > 0 {
      DistinctKeys(nodes, at, m - 1);
      var before := set i | 0 <= i < m - 1 :: nodes[i].key;
      assert (set i | 0 <= i < m :: nodes[i].key) == before + {nodes[m - 1].key};
      assert nodes[m - 1].key !in before;
    }
  }

  /** A table with fewer keys than slots has a raw slot. */
  lemma HasRaw<K, V>(nodes: seq<Node<K, V>>, at: map<K, nat>)
    requires Indexed(nodes, at) && |at| < |nodes|
    ensures exists e :: 0 <= e < |nodes| && nodes[e].Raw?
  {
    if forall e :: 0 <= e < |nodes| ==> nodes[e].Pair? {
      DistinctKeys(nodes, at, |nodes|);
      SubsetCard(set i | 0 <= i < |nodes| :: nodes[i].key, at.Keys);
      assert false;
    }
  }

  // ----------------------------------------------------------- the whole table

  /** What follows the last slot's info byte: the sentinel and its padding */
  const TAIL: seq<nat> := [1, 0, 0, 0, 0, 0, 0, 0]

  function CalcMaxNumElementsAllowed(n: nat, loadPercent: nat): nat {
    if n <= (WORD - 1) / 100 then n * loadPercent / 100 else n / 100 * loadPercent
  }

  /** The load limit is loadPercent hundredths of n, rounded down; for an n too
      large to be multiplied by 100 it may fall short by up to loadPercent. */
  lemma AllowedIs(n: nat, loadPercent: nat)
    ensures var a := CalcMaxNumElementsAllowed(n, loadPercent);
      && a * 100 <= n * loadPercent
      && n * loadPercent < a * 100 + 100 * (if n * 100 < WORD then 1 else loadPercent + 1)
  {
    var q, r := n / 100, n % 100;
    assert n * loadPercent == (q * 100 + r) * loadPercent == q * loadPercent * 100 + r * loadPercent;
    TimesMono(r, 99, loadPercent);
  }

  lemma AllowedBelowSize(n: nat, loadPercent: nat)
    requires n > 0 && loadPercent < 100
    ensures CalcMaxNumElementsAllowed(n, loadPercent) < n
  {
    TimesMono(loadPercent, 99, n);
    TimesMono(loadPercent, 99, n / 100);
  }

  /** A table holding num elements does not double once its mask is this big. */
  function GrowthBound(num: nat): nat {
    100 * (2 * num + 1)
  }

  /** Doubling happens only while twice the elements reach the load limit, so
      only below the growth bound. */
  lemma GrowthIsBounded(n: nat, loadPercent: nat, num: nat)
    requires n > 0 && loadPercent > 10 && CalcMaxNumElementsAllowed(n, loadPercent) <= 2 * num
    ensures n < GrowthBound(num)
  {
    TimesMono(1, loadPercent, n);
    TimesMono(1, loadPercent, n / 100);
  }

  lemma TimesMono(a: nat, b: nat, c: nat)
    requires a <= b
    ensures a * c <= b * c
  {
  }

  lemma SplitHundreds(n: nat, p: nat)
    ensures n * p == 100 * (n / 100 * p) + n % 100 * p
  {
    assert n == 100 * (n / 100) + n % 100;
  }

  lemma AllowedGrows(n: nat, loadPercent: nat)
    requires loadPercent < 100
    ensures CalcMaxNumElementsAllowed(n, loadPercent) <= CalcMaxNumElementsAllowed(n * 2, loadPercent)
  {
    var m, q := n * 2, n / 100;
    if n > (WORD - 1) / 100 {
      TimesMono(q, m / 100, loadPercent);
    } else if m > (WORD - 1) / 100 {
      TimesMono(q + 1, m / 100, loadPercent);
      assert (q + 1) * loadPercent == q * loadPercent + loadPercent;
      SplitHundreds(n, loadPercent);
      TimesMono(n % 100, 99, loadPercent);
    } else {
      assert m * loadPercent == 2 * (n * loadPercent);
    }
  }

  /** Every info byte is a byte; and it leaves room for one more distance unit,
      unless the table has been told to grow first. */
  ghost predicate Fits<K>(g: Geometry<K>, allowed: nat, info: seq<nat>)
    requires g.n <= |info|
  {
    && (forall x :: 0 <= x < g.n ==> info[x] <= 255)
    && (allowed > 0 ==> forall x :: 0 <= x < g.n ==> info[x] + g.inc <= 255)
  }

  /** The invariant of a table with `num` elements and growth limit `allowed` */
  ghost predicate TableInv<K, V>(g: Geometry<K>, allowed: nat, num: nat, loadPercent: nat,
                                 info: seq<nat>, nodes: seq<Node<K, V>>, at: map<K, nat>)
  {
    && Layout(g, info, nodes, at)
    && |info| == g.n + 8
    && Fits(g, allowed, info)
    && num == |at| < g.n
    && (allowed == 0 || allowed == CalcMaxNumElementsAllowed(g.n, loadPercent))
    && (g.n == 1 ==> allowed == 0)
    && (g.n > 1 ==> info[g.n..] == TAIL && num <= CalcMaxNumElementsAllowed(g.n, loadPercent))
  }

  lemma EraseKeepsTable<K, V>(g: Geometry<K>, allowed: nat, num: nat, loadPercent: nat,
                              info: seq<nat>, nodes: seq<Node<K, V>>, at: map<K, nat>,
                              info': seq<nat>, nodes': seq<Node<K, V>>, q: nat, r: nat, e: nat)
    returns (at': map<K, nat>)
    requires TableInv(g, allowed, num, loadPercent, info, nodes, at)
    requires q < g.n && r < g.n && nodes[q].Pair? && RunAfter(g, info, q, r)
    requires e < g.n && nodes[e].Raw?
    requires ErasedAt(g, info, nodes, info', nodes', q, r)
    requires Fits(g, allowed, info') && info'[g.n..] == info[g.n..]
    ensures num > 0 && TableInv(g, allowed, num - 1, loadPercent, info', nodes', at')
    ensures Contents(nodes', at') == Contents(nodes, at) - {nodes[q].key}
  {
    at' := EraseKeepsLayout(g, info, nodes, at, info', nodes', q, r, e);
    assert nodes[q].key in at;
  }

  lemma InsertKeepsTable<K, V>(g: Geometry<K>, allowed: nat, allowed': nat, num: nat, loadPercent: nat,
                               info: seq<nat>, nodes: seq<Node<K, V>>, at: map<K, nat>,
                               info': seq<nat>, nodes': seq<Node<K, V>>,
                               p: nat, e: nat, b: nat, j: nat, k: K, v: V)
    returns (at': map<K, nat>)
    requires TableInv(g, allowed, num, loadPercent, info, nodes, at) && k !in at
    requires 10 < loadPercent < 100 && g.n > 1 && num < CalcMaxNumElementsAllowed(g.n, loadPercent)
    requires StopsAt(g, info, k, j, p, b)
    requires e < g.n && UsedUpTo(nodes, p, e)
    requires InsertedAt(g, info, nodes, info', nodes', p, e, b, k, v)
    requires allowed' == 0 || allowed' == allowed
    requires Fits(g, allowed', info') && info'[g.n..] == info[g.n..]
    ensures TableInv(g, allowed', num + 1, loadPercent, info', nodes', at') && k in at' && at'[k] == p
    ensures Contents(nodes', at') == Contents(nodes, at)[k := v]
  {
    at' := InsertKeepsLayout(g, info, nodes, at, info', nodes', p, e, b, j, k, v);
    AllowedBelowSize(g.n, loadPercent);
  }

  /** A probe that stops before growth is due carries a byte, so narrowing it to
      eight bits loses nothing. */
  lemma InsertionByteFits<K>(g: Geometry<K>, allowed: nat, info: seq<nat>, k: K, j: nat, p: nat, b: nat)
    requires Sized(g) && g.n <= |info| && Fits(g, allowed, info) && allowed > 0
    requires StopsAt(g, info, k, j, p, b)
    ensures b <= 255
  {
    TagBelowInc(g, k);
    IncIsEven(g);
  }

  lemma RescaleKeepsTable<K, V>(g: Geometry<K>, allowed: nat, num: nat, loadPercent: nat,
                                info: seq<nat>, nodes: seq<Node<K, V>>, at: map<K, nat>, info': seq<nat>)
    requires TableInv(g, allowed, num, loadPercent, info, nodes, at) && g.inc > 2 && g.n > 1
    requires Halved(g.n, info, info')
    ensures TableInv(g.(inc := g.inc / 2, shift := g.shift + 1), CalcMaxNumElementsAllowed(g.n, loadPercent),
                     num, loadPercent, info', nodes, at)
  {
    assert Pow2(1) == 2;
    RescaleKeepsLayout(g, info, nodes, at, info');
    IncIsEven(g);
  }

  lemma EmptyTable<K, V>(g: Geometry<K>, allowed: nat, loadPercent: nat, info: seq<nat>, nodes: seq<Node<K, V>>)
    requires Sized(g) && |nodes| == g.n && |info| == g.n + 8 && g.n > 1
    requires allowed == 0 || allowed == CalcMaxNumElementsAllowed(g.n, loadPercent)
    requires forall i :: 0 <= i < g.n ==> nodes[i].Raw? && info[i] == 0
    requires info[g.n..] == TAIL
    ensures TableInv(g, allowed, 0, loadPercent, info, nodes, map[])
    ensures Contents(nodes, map[]) == map[]
  {
    IncIsEven(g);
    forall i | 0 <= i < g.n
      ensures OrderedAt(g, info, i) && SlotShape(g, info[i], nodes[i], i)
    {
    }
  }

  // ------------------------------------------------------------------- moving

  /** The part of a table that sits in its first i slots */
  ghost function Upto<K, V>(nodes: seq<Node<K, V>>, at: map<K, nat>, i: nat): (m: map<K, V>)
    requires Indexed(nodes, at)
  {
    map k | k in at && at[k] < i :: nodes[at[k]].val
  }

  lemma UptoStep<K, V>(nodes: seq<Node<K, V>>, at: map<K, nat>, i: nat)
    requires Indexed(nodes, at) && i < |nodes|
    ensures nodes[i].Raw? ==> Upto(nodes, at, i + 1) == Upto(nodes, at, i)
    ensures nodes[i].Pair? ==> nodes[i].key !in Upto(nodes, at, i)
    ensures nodes[i].Pair? ==> Upto(nodes, at, i + 1) == Upto(nodes, at, i)[nodes[i].key := nodes[i].val]
    ensures nodes[i].Pair? ==> |Upto(nodes, at, i)| < |at|
  {
    if nodes[i].Pair? {
      var k := nodes[i].key;
      assert k in at && at[k] == i;
      assert Upto(nodes, at, i).Keys <= at.Keys - {k};
      SubsetCard(Upto(nodes, at, i).Keys, at.Keys - {k});
    }
  }

  lemma UptoAll<K, V>(nodes: seq<Node<K, V>>, at: map<K, nat>, i: nat)
    requires Indexed(nodes, at)
    ensures Submap(Upto(nodes, at, i), Contents(nodes, at))
    ensures i == 0 ==> Upto(nodes, at, i) == map[]
    ensures i == |nodes| ==> Upto(nodes, at, i) == Contents(nodes, at)
  {
  }

  ghost predicate Submap<K, V>(m: map<K, V>, n: map<K, V>) {
    forall k :: k in m ==> k in n && m[k] == n[k]
  }

  // ---------------------------------------------------------------- iterating

  /** slots lists exactly the occupied slots below i, each once, in order. */
  ghost predicate ListsOccupied<K, V>(nodes: seq<Node<K, V>>, slots: seq<nat>, i: nat)
    requires i <= |nodes|
  {
    && (forall t :: 0 <= t < |slots| ==> slots[t] < i && nodes[slots[t]].Pair?)
    && (forall t, u :: 0 <= t < u < |slots| ==> slots[t] < slots[u])
    && (forall x :: 0 <= x < i && nodes[x].Pair? ==> x in slots)
  }

  lemma ListsSkip<K, V>(nodes: seq<Node<K, V>>, slots: seq<nat>, i: nat, i': nat)
    requires i <= i' <= |nodes| && ListsOccupied(nodes, slots, i)
    requires forall x :: i <= x < i' ==> nodes[x].Raw?
    ensures ListsOccupied(nodes, slots, i')
  {
  }

  lemma ListsOne<K, V>(nodes: seq<Node<K, V>>, slots: seq<nat>, i: nat)
    requires i < |nodes| && ListsOccupied(nodes, slots, i) && nodes[i].Pair?
    ensures ListsOccupied(nodes, slots + [i], i + 1)
  {
    var slots' := slots + [i];
    forall x | 0 <= x < i + 1 && nodes[x].Pair?
      ensures x in slots'
    {
      if x == i {
        assert slots'[|slots|] == i;
      } else {
        assert x in slots;
      }
    }
  }

  lemma {:induction false} KeysOfSlots<K, V>(nodes: seq<Node<K, V>>, at: map<K, nat>, slots: seq<nat>)
    requires Indexed(nodes, at)
    requires forall i :: 0 <= i < |slots| ==> slots[i] < |nodes| && nodes[slots[i]].Pair?
    requires forall i, j :: 0 <= i < j < |slots| ==> slots[i] < slots[j]
    ensures |set i | 0 <= i < |slots| :: nodes[slots[i]].key| == |slots|
  {
    if slots != [] {
      var m := |slots| - 1;
      var rest := slots[..m];
      KeysOfSlots(nodes, at, rest);
      var before := set i | 0 <= i < |rest| :: nodes[rest[i]].key;
      assert before == set i | 0 <= i < m :: nodes[slots[i]].key;
      assert (set i | 0 <= i < |slots| :: nodes[slots[i]].key) == before + {nodes[slots[m]].key};
      assert nodes[slots[m]].key !in before;
    }
  }

  /** A list of the occupied slots is as long as there are keys. */
  lemma SlotsMatchKeys<K, V>(nodes: seq<Node<K, V>>, at: map<K, nat>, slots: seq<nat>)
    requires Indexed(nodes, at) && ListsOccupied(nodes, slots, |nodes|)
    ensures |slots| == |at.Keys|
  {
    KeysOfSlots(nodes, at, slots);
    var keys := set i | 0 <= i < |slots| :: nodes[slots[i]].key;
    forall k | k in at
      ensures k in keys
    {
      var i :| 0 <= i < |slots| && slots[i] == at[k];
    }
    assert keys == at.Keys;
  }
}
