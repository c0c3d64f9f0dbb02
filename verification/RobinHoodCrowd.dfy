/** How far from home a layout puts its elements, said of the keys alone: some
    element is d or more slots from home just when some stretch of l buckets is
    home to l + d keys or more. */
module RobinHoodCrowd {
  import opened Collections
  import opened Bits
  import opened RobinHoodLayout

  function HomeOf<K>(n: nat, hash: K -> Word, k: K): (i: nat)
    requires n > 0
    ensures i < n
  {
    And(hash(k), n - 1)
  }

  /** The keys at home in the l buckets from s on, wrapping at n */
  ghost function AtHome<K>(n: nat, hash: K -> Word, keys: set<K>, s: nat, l: nat): set<K>
    requires s < n
  {
    set k | k in keys && Dist(s, HomeOf(n, hash, k), n) < l
  }

  /** Some stretch of buckets is home to d more keys than it has buckets. */
  ghost predicate Crowded<K>(n: nat, hash: K -> Word, keys: set<K>, d: nat) {
    exists s, l :: 0 <= s < n && 0 < l <= n && |AtHome(n, hash, keys, s, l)| >= l + d
  }

  /** Some element is d or more slots from home. */
  ghost predicate Displaced<K, V>(g: Geometry<K>, nodes: seq<Node<K, V>>, d: nat)
    requires |nodes| == g.n
  {
    exists i :: 0 <= i < g.n && Away(g, nodes, i, d)
  }

  ghost predicate Away<K, V>(g: Geometry<K>, nodes: seq<Node<K, V>>, i: nat, d: nat)
    requires i < |nodes| == g.n
  {
    nodes[i].Pair? && Dist(Home(g, nodes[i].key), i, g.n) >= d
  }

  // ------------------------------------------------------- crowded, so displaced

  lemma {:induction false} InjectiveCard<K>(w: set<K>, f: map<K, nat>)
    requires w <= f.Keys && forall a, b :: a in w && b in w && a != b ==> f[a] != f[b]
    ensures |set k | k in w :: f[k]| == |w|
  {
    if w != {} {
      var k :| k in w;
      var rest := w - {k};
      InjectiveCard(rest, f);
      assert (set x | x in w :: f[x]) == (set x | x in rest :: f[x]) + {f[k]};
    }
  }

  /** A step from s to a and one of less than d from there stay within l + d. */
  lemma ShortSteps(s: nat, h: nat, i: nat, n: nat, l: nat, d: nat)
    requires s < n && h < n && i < n && Dist(s, h, n) < l && Dist(h, i, n) < d
    ensures Dist(s, i, n) < l + d - 1
  {
  }

  lemma CrowdedIsDisplaced<K, V>(g: Geometry<K>, info: seq<nat>, nodes: seq<Node<K, V>>, at: map<K, nat>, d: nat)
    requires Layout(g, info, nodes, at) && Crowded(g.n, g.hash, at.Keys, d)
    ensures Displaced(g, nodes, d)
  {
    var s: nat, l: nat :| s < g.n && 0 < l <= g.n && |AtHome(g.n, g.hash, at.Keys, s, l)| >= l + d;
    var w := AtHome(g.n, g.hash, at.Keys, s, l);
    if !Displaced(g, nodes, d) {
      var f := map k | k in w :: Dist(s, at[k], g.n);
      forall k | k in w
        ensures f[k] < l + d - 1
      {
        assert !Away(g, nodes, at[k], d);
        ShortSteps(s, HomeOf(g.n, g.hash, k), at[k], g.n, l, d);
      }
      InjectiveCard(w, f);
      var m: nat := l + d - 1;
      SubsetCard(set k | k in w :: f[k], Indices(m));
    }
  }

  // ------------------------------------------------------- displaced, so crowded

  /** The c slots from s on are used. */
  ghost predicate UsedRun<K, V>(nodes: seq<Node<K, V>>, s: nat, c: nat)
    requires s < |nodes| && c <= |nodes|
  {
    forall o :: 0 <= o < c ==> nodes[At(s, o, |nodes|)].Pair?
  }

  /** The run of used slots that i is in starts after a raw slot. */
  lemma {:induction false} RunStart<K, V>(nodes: seq<Node<K, V>>, i: nat, e: nat) returns (s: nat)
    requires i < |nodes| && e < |nodes| && nodes[i].Pair? && nodes[e].Raw?
    ensures s < |nodes| && nodes[Prev(s, |nodes|)].Raw?
    ensures UsedRun(nodes, s, Dist(s, i, |nodes|) + 1)
    decreases Dist(e, i, |nodes|)
  {
    var n := |nodes|;
    var p := Prev(i, n);
    if nodes[p].Raw? {
      s := i;
    } else {
      s := RunStart(nodes, p, e);
      forall o: nat | o <= Dist(s, i, n)
        ensures nodes[At(s, o, n)].Pair?
      {
        if o == Dist(s, i, n) { assert At(s, o, n) == i; }
      }
    }
  }

  /** In the run from s on, a home is at or after s and not after the slot. */
  lemma HomeInRun<K, V>(g: Geometry<K>, info: seq<nat>, nodes: seq<Node<K, V>>, s: nat, i: nat)
    requires Sized(g) && Shaped(g, info, nodes) && Ordered(g, info)
    requires s < g.n && i < g.n && nodes[i].Pair? && nodes[Prev(s, g.n)].Raw?
    ensures var h := Home(g, nodes[i].key); Dist(s, h, g.n) + Dist(h, i, g.n) == Dist(s, i, g.n)
  {
    BeforeRaw(g, info, nodes, i, Prev(s, g.n));
  }

  lemma {:induction false} InfoAtOrder(inc: nat, t0: nat, d0: nat, t1: nat, d1: nat)
    requires t0 < inc && t1 < inc && InfoAt(inc, t0, d0) + inc >= InfoAt(inc, t1, d1)
    ensures d1 <= d0 + 1
    decreases d0 + d1
  {
    if d0 > 0 && d1 > 0 {
      InfoAtOrder(inc, t0, d0 - 1, t1, d1 - 1);
    } else if d0 == 0 && d1 > 1 {
      InfoAtTwo(inc, t1, d1);
    }
  }

  lemma {:induction false} InfoAtTwo(inc: nat, t: nat, d: nat)
    requires d > 1 && inc > 0
    ensures InfoAt(inc, t, d) >= 3 * inc
  {
    if d > 2 { InfoAtTwo(inc, t, d - 1); }
  }

  /** Neighbours in a run are in the order of their homes. */
  lemma HomesInOrder<K, V>(g: Geometry<K>, info: seq<nat>, nodes: seq<Node<K, V>>, s: nat, i: nat)
    requires Sized(g) && Shaped(g, info, nodes) && Ordered(g, info)
    requires s < g.n && i < g.n && i != s && nodes[i].Pair? && nodes[Prev(s, g.n)].Raw? && nodes[Prev(i, g.n)].Pair?
    ensures Dist(s, Home(g, nodes[Prev(i, g.n)].key), g.n) <= Dist(s, Home(g, nodes[i].key), g.n)
  {
    var p := Prev(i, g.n);
    var k0, k1 := nodes[p].key, nodes[i].key;
    HomeInRun(g, info, nodes, s, p);
    HomeInRun(g, info, nodes, s, i);
    TagBelowInc(g, k0);
    TagBelowInc(g, k1);
    var d0, d1 := Dist(Home(g, k0), p, g.n), Dist(Home(g, k1), i, g.n);
    assert SlotShape(g, info[p], nodes[p], p) && SlotShape(g, info[i], nodes[i], i) && OrderedAt(g, info, i);
    InfoAtRange(g.inc, Tag(g, k1), d1);
    if d1 > 0 { InfoAtOrder(g.inc, Tag(g, k0), d0, Tag(g, k1), d1); }
  }

  /** The keys in the c slots from s on */
  lemma {:induction false} RunKeys<K, V>(nodes: seq<Node<K, V>>, at: map<K, nat>, s: nat, c: nat) returns (run: set<K>)
    requires Indexed(nodes, at) && s < |nodes| && c <= |nodes| && UsedRun(nodes, s, c)
    ensures |run| == c && forall k :: k in run ==> k in at && Dist(s, at[k], |nodes|) < c
  {
    run := {};
    if c > 0 {
      var rest := RunKeys(nodes, at, s, c - 1);
      run := rest + {nodes[At(s, c - 1, |nodes|)].key};
    }
  }

  /** In the run from s to i no home is after that of i. */
  lemma {:induction false} RunHomes<K, V>(
    g: Geometry<K>, info: seq<nat>, nodes: seq<Node<K, V>>, s: nat, o: nat, m: nat)
    requires Sized(g) && Shaped(g, info, nodes) && Ordered(g, info) && s < g.n && o <= m < g.n
    requires nodes[Prev(s, g.n)].Raw? && UsedRun(nodes, s, m + 1)
    ensures nodes[At(s, o, g.n)].Pair? && nodes[At(s, m, g.n)].Pair?
    ensures Dist(s, Home(g, nodes[At(s, o, g.n)].key), g.n) <= Dist(s, Home(g, nodes[At(s, m, g.n)].key), g.n)
    decreases m - o
  {
    if o < m {
      RunHomes(g, info, nodes, s, o, m - 1);
      var i := At(s, m, g.n);
      assert Prev(i, g.n) == At(s, m - 1, g.n);
      HomesInOrder(g, info, nodes, s, i);
    }
  }

  lemma DisplacedIsCrowded<K, V>(
    g: Geometry<K>, info: seq<nat>, nodes: seq<Node<K, V>>, at: map<K, nat>, e: nat, i: nat, d: nat)
    requires Layout(g, info, nodes, at) && e < g.n && nodes[e].Raw? && i < g.n && Away(g, nodes, i, d)
    ensures Crowded(g.n, g.hash, at.Keys, d)
  {
    var s := RunStart(nodes, i, e);
    var m := Dist(s, i, g.n);
    assert At(s, m, g.n) == i;
    HomeInRun(g, info, nodes, s, i);
    var l := Dist(s, Home(g, nodes[i].key), g.n) + 1;
    RunAtHome(g, info, nodes, at, s, m, l);
    assert |AtHome(g.n, g.hash, at.Keys, s, l)| >= l + d;
  }

  /** The m + 1 keys of a run are at home between its start and the last one's
      home. */
  lemma RunAtHome<K, V>(
    g: Geometry<K>, info: seq<nat>, nodes: seq<Node<K, V>>, at: map<K, nat>, s: nat, m: nat, l: nat)
    requires Layout(g, info, nodes, at) && s < g.n && m < g.n && nodes[Prev(s, g.n)].Raw?
    requires UsedRun(nodes, s, m + 1) && nodes[At(s, m, g.n)].Pair?
    requires l == Dist(s, Home(g, nodes[At(s, m, g.n)].key), g.n) + 1
    ensures |AtHome(g.n, g.hash, at.Keys, s, l)| > m
  {
    var home := AtHome(g.n, g.hash, at.Keys, s, l);
    var run := RunKeys(nodes, at, s, m + 1);
    forall k | k in run
      ensures k in home
    {
      KeyAtHome(g, info, nodes, at, s, m, l, k);
    }
    SubsetCard(run, home);
  }

  lemma KeyAtHome<K, V>(
    g: Geometry<K>, info: seq<nat>, nodes: seq<Node<K, V>>, at: map<K, nat>, s: nat, m: nat, l: nat, k: K)
    requires Layout(g, info, nodes, at) && s < g.n && m < g.n && nodes[Prev(s, g.n)].Raw?
    requires UsedRun(nodes, s, m + 1) && nodes[At(s, m, g.n)].Pair?
    requires l == Dist(s, Home(g, nodes[At(s, m, g.n)].key), g.n) + 1
    requires k in at && Dist(s, at[k], g.n) <= m
    ensures k in AtHome(g.n, g.hash, at.Keys, s, l)
  {
    var o := Dist(s, at[k], g.n);
    assert At(s, o, g.n) == at[k];
    RunHomes(g, info, nodes, s, o, m);
  }

  /** The distances of a layout are a matter of its keys' homes only. */
  lemma DisplacedExactly<K, V>(g: Geometry<K>, info: seq<nat>, nodes: seq<Node<K, V>>, at: map<K, nat>, e: nat, d: nat)
    requires Layout(g, info, nodes, at) && e < g.n && nodes[e].Raw?
    ensures Displaced(g, nodes, d) <==> Crowded(g.n, g.hash, at.Keys, d)
  {
    if Displaced(g, nodes, d) {
      var i :| 0 <= i < g.n && Away(g, nodes, i, d);
      DisplacedIsCrowded(g, info, nodes, at, e, i, d);
    }
    if Crowded(g.n, g.hash, at.Keys, d) {
      CrowdedIsDisplaced(g, info, nodes, at, d);
    }
  }

  // -------------------------------------------------------------- in info bytes

  lemma {:induction false} InfoAtGrows(inc: nat, tag: nat, d: nat)
    requires inc >= 2
    ensures InfoAt(inc, tag, d) >= 2 * d + 2 + tag && (inc == 2 ==> InfoAt(inc, tag, d) == 2 * d + 2 + tag)
    ensures inc >= 4 ==> InfoAt(inc, tag, d) >= 4 * d + 4
  {
    if d > 0 { InfoAtGrows(inc, tag, d - 1); }
  }

  /** Farther from home than that, no distance unit more fits into a byte of the
      coarsest scale. */
  const FARTHEST: nat := 126

  /** Whether the table at hand cannot take another element, in bytes and in
      keys: with no hash bit left, some byte is at its limit. */
  lemma FullExactly<K, V>(
    g: Geometry<K>, allowed: nat, info: seq<nat>, nodes: seq<Node<K, V>>, at: map<K, nat>, e: nat)
    requires Layout(g, info, nodes, at) && e < g.n && nodes[e].Raw? && Fits(g, allowed, info)
    requires allowed == 0 ==> exists x :: 0 <= x < g.n && info[x] + g.inc > 255
    ensures allowed == 0 && g.inc <= 2 <==> Crowded(g.n, g.hash, at.Keys, FARTHEST)
  {
    DisplacedExactly(g, info, nodes, at, e, FARTHEST);
    IncIsEven(g);
    if allowed == 0 && g.inc <= 2 {
      var x :| 0 <= x < g.n && info[x] + g.inc > 255;
      assert SlotShape(g, info[x], nodes[x], x);
      ZeroIsRaw(g, info, nodes, x);
      var k := nodes[x].key;
      TagBelowInc(g, k);
      InfoAtGrows(g.inc, Tag(g, k), Dist(Home(g, k), x, g.n));
      assert Away(g, nodes, x, FARTHEST);
    } else {
      forall i: nat | i < g.n
        ensures !Away(g, nodes, i, FARTHEST)
      {
        assert SlotShape(g, info[i], nodes[i], i);
        if nodes[i].Pair? {
          IncSteps(g);
          InfoAtGrows(g.inc, Tag(g, nodes[i].key), Dist(Home(g, nodes[i].key), i, g.n));
        }
      }
    }
  }

  lemma IncSteps<K>(g: Geometry<K>)
    requires Sized(g)
    ensures g.inc == 2 || g.inc >= 4
  {
    if g.shift < 63 {
      assert g.inc == 2 * Pow2(63 - g.shift) && Pow2(63 - g.shift) == 2 * Pow2(62 - g.shift);
    } else {
      assert Pow2(1) == 2;
    }
  }

  // ----------------------------------------------------------- moving to new buckets

  /** Slot x can be moved to n new buckets after the slots before it: their keys do
      not crowd there so far that no byte can hold a distance more. */
  ghost predicate MovesNext<K, V>(n: nat, hash: K -> Word, nodes: seq<Node<K, V>>, at: map<K, nat>, x: nat)
    requires Indexed(nodes, at) && x < |nodes|
  {
    nodes[x].Pair? ==> !Crowded(n, hash, Upto(nodes, at, x).Keys, FARTHEST)
  }

  ghost predicate FirstMove<K, V>(n: nat, hash: K -> Word, nodes: seq<Node<K, V>>, at: map<K, nat>, i: nat)
    requires Indexed(nodes, at) && i <= |nodes|
  {
    forall x :: 0 <= x < i ==> MovesNext(n, hash, nodes, at, x)
  }

  ghost predicate AllMove<K, V>(n: nat, hash: K -> Word, nodes: seq<Node<K, V>>, at: map<K, nat>)
    requires Indexed(nodes, at)
  {
    FirstMove(n, hash, nodes, at, |nodes|)
  }

  lemma FirstMoveStep<K, V>(n: nat, hash: K -> Word, nodes: seq<Node<K, V>>, at: map<K, nat>, i: nat, ok: bool)
    requires Indexed(nodes, at) && i < |nodes| && FirstMove(n, hash, nodes, at, i)
    requires ok <==> MovesNext(n, hash, nodes, at, i)
    ensures if ok then FirstMove(n, hash, nodes, at, i + 1)
            else StopsMoving(n, hash, nodes, at, i) && !AllMove(n, hash, nodes, at)
  {
  }

  /** Slot x is the first that cannot be moved. */
  ghost predicate StopsMoving<K, V>(n: nat, hash: K -> Word, nodes: seq<Node<K, V>>, at: map<K, nat>, x: nat)
    requires Indexed(nodes, at)
  {
    x < |nodes| && FirstMove(n, hash, nodes, at, x) && !MovesNext(n, hash, nodes, at, x)
  }

  /** Up to 127 elements can always be moved. */
  lemma FewMove<K, V>(n: nat, hash: K -> Word, nodes: seq<Node<K, V>>, at: map<K, nat>)
    requires Indexed(nodes, at) && |at| <= FARTHEST + 1
    ensures AllMove(n, hash, nodes, at)
  {
    forall x: nat | x < |nodes| && nodes[x].Pair?
      ensures !Crowded(n, hash, Upto(nodes, at, x).Keys, FARTHEST)
    {
      var keys := Upto(nodes, at, x).Keys;
      assert nodes[x].key in at.Keys && nodes[x].key !in keys;
      SubsetCard(keys, at.Keys - {nodes[x].key});
      assert |at.Keys| == |at|;
      FewUncrowded(n, hash, keys);
    }
  }

  lemma FewUncrowded<K>(n: nat, hash: K -> Word, keys: set<K>)
    requires |keys| <= FARTHEST
    ensures !Crowded(n, hash, keys, FARTHEST)
  {
    if s: nat, l: nat :| s < n && 0 < l <= n && |AtHome(n, hash, keys, s, l)| >= l + FARTHEST {
      SubsetCard(AtHome(n, hash, keys, s, l), keys);
    }
  }

  lemma NothingToMove<K, V>(n: nat, hash: K -> Word, nodes: seq<Node<K, V>>, at: map<K, nat>)
    requires Indexed(nodes, at) && Contents(nodes, at) == map[]
    ensures AllMove(n, hash, nodes, at)
  {
    assert |Contents(nodes, at).Keys| == |at.Keys| == |at| == 0;
    FewMove(n, hash, nodes, at);
  }
}
