/** Pooled cluster contexts: every context is in its cluster's pool, serves one
    top-level request, or is held by one vertex of a running graph; a reset gives
    back all that the run below it acquired. */
module ContextPool {
  import opened Collections
  import opened DagGraph

  /** Run state of one vertex; sub is the subgraph context it has acquired */
  datatype VertexState = VertexState(waiting: nat, slots: seq<Result>, result: Result, sub: Option<nat>)

  datatype GraphState = GraphState(join: nat, vs: seq<VertexState>)

  /** A cluster context: one graph context per graph of the cluster, of which at
      most one runs */
  datatype Context = Context(owner: nat, graphs: seq<GraphState>, running: Option<nat>)

  function FreshVertex(deps: nat): VertexState {
    VertexState(deps, seq(deps, _ => Invalid), Invalid, None)
  }

  /** The protocol state a run starts from, for a graph whose vertices have these
      numbers of dependencies */
  function FreshGraph(shape: seq<nat>): GraphState {
    GraphState(|shape|, seq(|shape|, v requires 0 <= v < |shape| => FreshVertex(shape[v])))
  }

  /** Where a context is. Held(h, v): vertex v of h's running graph has it. */
  datatype Place = InPool | Serving | Held(h: nat, v: nat)

  /** All contexts, the pools by cluster, and where each context is. depth grows
      from holder to held; no depth exceeds bound. */
  datatype World = World(
    ctxs: seq<Context>, pools: seq<seq<nat>>, place: seq<Place>, depth: seq<nat>, bound: nat)

  /** Number of dependencies, by cluster, graph and vertex */
  type Shapes = seq<seq<seq<nat>>>

  ghost predicate Idle(sh: Shapes, c: Context)
    requires c.owner < |sh| && |c.graphs| == |sh[c.owner]|
  {
    c.running == None && forall g :: 0 <= g < |c.graphs| ==> c.graphs[g] == FreshGraph(sh[c.owner][g])
  }

  /** A graph that is not running is as fresh. */
  ghost predicate CtxOk(sh: Shapes, c: Context) {
    && c.owner < |sh| && |c.graphs| == |sh[c.owner]|
    && (c.running.Some? ==> c.running.value < |c.graphs|
                            && |c.graphs[c.running.value].vs| == |sh[c.owner][c.running.value]|)
    && (forall g :: 0 <= g < |c.graphs| && c.running != Some(g) ==> c.graphs[g] == FreshGraph(sh[c.owner][g]))
  }

  /** The contexts its running graph's vertices hold */
  function Subs(c: Context): seq<Option<nat>> {
    if c.running.Some? && c.running.value < |c.graphs| then
      seq(|c.graphs[c.running.value].vs|, v requires 0 <= v < |c.graphs[c.running.value].vs| =>
        c.graphs[c.running.value].vs[v].sub)
    else []
  }

  ghost predicate PlaceOk(w: World, c: nat)
    requires |w.place| == |w.ctxs| == |w.depth| && c < |w.ctxs|
  {
    && w.depth[c] <= w.bound
    && match w.place[c]
       case InPool => w.ctxs[c].running == None && w.ctxs[c].owner < |w.pools| && c in w.pools[w.ctxs[c].owner]
       case Serving => true
       case Held(h, v) =>
         h < |w.ctxs| && w.depth[h] < w.depth[c] && v < |Subs(w.ctxs[h])| && Subs(w.ctxs[h])[v] == Some(c)
  }

  ghost predicate SubsOk(w: World, h: nat)
    requires |w.place| == |w.ctxs| && h < |w.ctxs|
  {
    var s := Subs(w.ctxs[h]);
    forall v :: 0 <= v < |s| && s[v].Some? ==> s[v].value < |w.ctxs| && w.place[s[v].value] == Held(h, v)
  }

  ghost predicate PoolOk(w: World, k: nat)
    requires |w.place| == |w.ctxs| && k < |w.pools|
  {
    && NoDup(w.pools[k])
    && forall c :: c in w.pools[k] ==> c < |w.ctxs| && w.ctxs[c].owner == k && w.place[c] == InPool
  }

  /** Every context is in exactly one place, and what is not in use is fresh. */
  ghost predicate Placed(sh: Shapes, w: World) {
    && |w.place| == |w.ctxs| == |w.depth| && |w.pools| == |sh|
    && (forall c {:trigger CtxOk(sh, w.ctxs[c])} :: 0 <= c < |w.ctxs| ==> CtxOk(sh, w.ctxs[c]))
    && (forall c {:trigger PlaceOk(w, c)} :: 0 <= c < |w.ctxs| ==> PlaceOk(w, c))
    && (forall h {:trigger SubsOk(w, h)} :: 0 <= h < |w.ctxs| ==> SubsOk(w, h))
    && (forall k {:trigger PoolOk(w, k)} :: 0 <= k < |w.pools| ==> PoolOk(w, k))
  }

  // --------------------------------------------------------------- who holds whom

  /** x was acquired, directly or not, by c's run. */
  ghost predicate Under(w: World, x: nat, c: nat, fuel: nat)
    decreases fuel
  {
    && x < |w.place| && w.place[x].Held? && fuel > 0
    && (w.place[x].h == c || Under(w, w.place[x].h, c, fuel - 1))
  }

  ghost predicate Below(w: World, x: nat, c: nat)
    requires |w.place| == |w.depth| == |w.ctxs|
  {
    x < |w.place| && Under(w, x, c, w.depth[x])
  }

  /** ... through this vertex of c */
  ghost predicate Via(w: World, x: nat, c: nat, v: nat)
    requires |w.place| == |w.depth| == |w.ctxs|
  {
    exists d: nat :: d < |w.place| && w.place[d] == Held(c, v) && (x == d || Below(w, x, d))
  }

  lemma {:induction false} MoreFuel(sh: Shapes, w: World, x: nat, c: nat, f: nat)
    requires Placed(sh, w) && x < |w.place| && f >= w.depth[x]
    ensures Under(w, x, c, f) <==> Under(w, x, c, w.depth[x])
    decreases f
  {
    assert PlaceOk(w, x);
    if w.place[x].Held? {
      var h := w.place[x].h;
      MoreFuel(sh, w, h, c, f - 1);
      if w.depth[x] > 0 { MoreFuel(sh, w, h, c, w.depth[x] - 1); }
    }
  }

  /** Below in terms of the holder */
  lemma BelowStep(sh: Shapes, w: World, x: nat, c: nat)
    requires Placed(sh, w) && x < |w.place|
    ensures Below(w, x, c) <==> w.place[x].Held? && (w.place[x].h == c || Below(w, w.place[x].h, c))
  {
    assert PlaceOk(w, x);
    if w.place[x].Held? {
      MoreFuel(sh, w, w.place[x].h, c, w.depth[x] - 1);
    }
  }

  /** Between w and w' some contexts have gone to the pool and no other has moved. */
  ghost predicate OnlyReturns(w: World, w': World) {
    && |w'.place| == |w.place| && w'.depth == w.depth && |w'.ctxs| == |w.ctxs|
    && forall x :: 0 <= x < |w.place| ==> w'.place[x] == w.place[x] || w'.place[x] == InPool
  }

  lemma {:induction false} BelowBefore(sh: Shapes, w: World, w': World, x: nat, c: nat)
    requires Placed(sh, w) && Placed(sh, w') && OnlyReturns(w, w') && Below(w', x, c)
    ensures Below(w, x, c)
    decreases w.depth[x]
  {
    BelowStep(sh, w', x, c);
    BelowStep(sh, w, x, c);
    assert PlaceOk(w', x);
    var h := w'.place[x].h;
    if h != c {
      BelowBefore(sh, w, w', h, c);
    }
  }

  /** Who was below c and has not moved, like all between, is still below c. */
  lemma {:induction false} BelowStill(sh: Shapes, w: World, w': World, x: nat, c: nat)
    requires Placed(sh, w) && Placed(sh, w') && OnlyReturns(w, w') && Below(w, x, c)
    requires forall y :: 0 <= y < |w.place| && Below(w, y, c) ==> w'.place[y] == w.place[y]
    ensures Below(w', x, c)
    decreases w.depth[x]
  {
    BelowStep(sh, w', x, c);
    BelowStep(sh, w, x, c);
    assert PlaceOk(w, x);
    var h := w.place[x].h;
    if h != c {
      BelowStill(sh, w, w', h, c);
    }
  }

  lemma {:induction false} BelowTrans(sh: Shapes, w: World, x: nat, d: nat, c: nat)
    requires Placed(sh, w) && Below(w, x, d) && Below(w, d, c)
    ensures Below(w, x, c)
    decreases w.depth[x]
  {
    BelowStep(sh, w, x, d);
    BelowStep(sh, w, x, c);
    assert PlaceOk(w, x);
    var h := w.place[x].h;
    if h != d {
      BelowTrans(sh, w, h, d, c);
    }
  }

  lemma {:induction false} BelowDeeper(sh: Shapes, w: World, x: nat, c: nat)
    requires Placed(sh, w) && Below(w, x, c)
    ensures c < |w.place| && w.depth[c] < w.depth[x]
    decreases w.depth[x]
  {
    BelowStep(sh, w, x, c);
    assert PlaceOk(w, x);
    if w.place[x].h != c {
      BelowDeeper(sh, w, w.place[x].h, c);
    }
  }

  /** Everything below c is below it through one of its vertices. */
  lemma {:induction false} BelowVia(sh: Shapes, w: World, x: nat, c: nat) returns (v: nat)
    requires Placed(sh, w) && Below(w, x, c)
    ensures Via(w, x, c, v) && c < |w.ctxs| && v < |Subs(w.ctxs[c])|
    decreases w.depth[x]
  {
    BelowStep(sh, w, x, c);
    assert PlaceOk(w, x);
    var h := w.place[x].h;
    if h == c {
      v := w.place[x].v;
      assert w.place[x] == Held(c, v);
    } else {
      v := BelowVia(sh, w, h, c);
      var d: nat :| d < |w.place| && w.place[d] == Held(c, v) && (h == d || Below(w, h, d));
      BelowStep(sh, w, x, d);
    }
  }

  lemma ViaBelow(sh: Shapes, w: World, x: nat, c: nat, v: nat)
    requires Placed(sh, w) && Via(w, x, c, v)
    ensures Below(w, x, c) && x != c
  {
    var d: nat :| d < |w.place| && w.place[d] == Held(c, v) && (x == d || Below(w, x, d));
    BelowStep(sh, w, d, c);
    if x != d {
      BelowTrans(sh, w, x, d, c);
    }
    BelowDeeper(sh, w, x, c);
  }

  /** Through one vertex only */
  lemma {:induction false} ViaOne(sh: Shapes, w: World, x: nat, c: nat, u: nat, v: nat)
    requires Placed(sh, w) && Via(w, x, c, u) && Via(w, x, c, v)
    ensures u == v
    decreases if x < |w.depth| then w.depth[x] else 0
  {
    var d: nat :| d < |w.place| && w.place[d] == Held(c, u) && (x == d || Below(w, x, d));
    var e: nat :| e < |w.place| && w.place[e] == Held(c, v) && (x == e || Below(w, x, e));
    assert PlaceOk(w, x);
    if x == d {
      if x != e {
        BelowStep(sh, w, x, e);
        BelowDeeper(sh, w, x, e);
        assert PlaceOk(w, e);
        HolderNotBelow(sh, w, c, e);
      }
    } else if x == e {
      BelowStep(sh, w, x, d);
      HolderNotBelow(sh, w, c, d);
    } else {
      BelowStep(sh, w, x, d);
      BelowStep(sh, w, x, e);
      var h := w.place[x].h;
      assert h == d || Below(w, h, d);
      assert h == e || Below(w, h, e);
      ViaOne(sh, w, h, c, u, v);
    }
  }

  /** A holder is not what it holds, nor below it. */
  lemma HolderNotBelow(sh: Shapes, w: World, c: nat, d: nat)
    requires Placed(sh, w) && d < |w.place| && w.place[d].Held? && w.place[d].h == c
    ensures c != d && !Below(w, c, d)
  {
    assert PlaceOk(w, d);
    if Below(w, c, d) {
      BelowDeeper(sh, w, c, d);
    }
  }

  // ------------------------------------------------------------------- resetting

  /** x is where and as it was. */
  ghost predicate Untouched(w: World, w': World, x: nat) {
    && x < |w.ctxs| && x < |w'.ctxs| && x < |w.place| && x < |w'.place|
    && w'.ctxs[x] == w.ctxs[x] && w'.place[x] == w.place[x]
  }

  ghost predicate Returned(sh: Shapes, w': World, x: nat) {
    && x < |w'.ctxs| && x < |w'.place| && w'.place[x] == InPool
    && CtxOk(sh, w'.ctxs[x]) && Idle(sh, w'.ctxs[x])
  }

  /** Resetting c returned exactly the contexts below c and left c itself fresh. */
  ghost predicate ResetTo(sh: Shapes, w: World, w': World, c: nat)
    requires |w.place| == |w.depth| == |w.ctxs|
  {
    && OnlyReturns(w, w') && w'.bound == w.bound && c < |w.ctxs| && w'.place[c] == w.place[c]
    && w'.ctxs[c].owner == w.ctxs[c].owner && CtxOk(sh, w'.ctxs[c]) && Idle(sh, w'.ctxs[c])
    && forall x {:trigger Untouched(w, w', x)} :: 0 <= x < |w.ctxs| && x != c ==>
         if Below(w, x, c) then Returned(sh, w', x) else Untouched(w, w', x)
  }

  function WithVertex(c: Context, g: nat, v: nat, s: VertexState): Context
    requires g < |c.graphs| && v < |c.graphs[g].vs|
  {
    c.(graphs := c.graphs[g := c.graphs[g].(vs := c.graphs[g].vs[v := s])])
  }

  /** Resetting vertex v returned exactly what was acquired through it. */
  ghost predicate VertexResetTo(sh: Shapes, w: World, w': World, c: nat, g: nat, v: nat)
    requires |w.place| == |w.depth| == |w.ctxs|
  {
    && OnlyReturns(w, w') && w'.bound == w.bound && c < |w.ctxs| && w'.place[c] == w.place[c]
    && CtxOk(sh, w.ctxs[c]) && g < |w.ctxs[c].graphs| && v < |w.ctxs[c].graphs[g].vs| && v < |sh[w.ctxs[c].owner][g]|
    && w'.ctxs[c] == WithVertex(w.ctxs[c], g, v, FreshVertex(sh[w.ctxs[c].owner][g][v]))
    && forall x {:trigger Untouched(w, w', x)} :: 0 <= x < |w.ctxs| && x != c ==>
         if Via(w, x, c, v) then Returned(sh, w', x) else Untouched(w, w', x)
  }

  ghost predicate ViaBefore(w: World, x: nat, c: nat, i: nat)
    requires |w.place| == |w.depth| == |w.ctxs|
  {
    exists u :: 0 <= u < i && Via(w, x, c, u)
  }

  ghost predicate PartGraph(sh: Shapes, was: Context, now: Context, g: nat, i: nat)
    requires CtxOk(sh, was) && g < |was.graphs|
  {
    && now.owner == was.owner && now.running == was.running && |now.graphs| == |was.graphs|
    && (forall k :: 0 <= k < |was.graphs| && k != g ==> now.graphs[k] == was.graphs[k])
    && |now.graphs[g].vs| == |was.graphs[g].vs| == |sh[was.owner][g]| && i <= |was.graphs[g].vs|
    && (forall u :: 0 <= u < i ==> now.graphs[g].vs[u] == FreshVertex(sh[was.owner][g][u]))
    && (forall u :: i <= u < |was.graphs[g].vs| ==> now.graphs[g].vs[u] == was.graphs[g].vs[u])
  }

  /** The first i vertices of c's running graph g are reset. */
  ghost predicate PartReset(sh: Shapes, w: World, w': World, c: nat, g: nat, i: nat)
    requires |w.place| == |w.depth| == |w.ctxs|
  {
    && OnlyReturns(w, w') && w'.bound == w.bound && c < |w.ctxs| && w'.place[c] == w.place[c]
    && CtxOk(sh, w.ctxs[c]) && w.ctxs[c].running == Some(g) && g < |w.ctxs[c].graphs|
    && PartGraph(sh, w.ctxs[c], w'.ctxs[c], g, i)
    && forall x {:trigger Untouched(w, w', x)} :: 0 <= x < |w.ctxs| && x != c ==>
         if ViaBefore(w, x, c, i) then Returned(sh, w', x) else Untouched(w, w', x)
  }

  /** What hangs on vertex i is untouched until its turn comes. */
  lemma ViaStill(sh: Shapes, w: World, w': World, c: nat, g: nat, i: nat, x: nat)
    requires Placed(sh, w) && Placed(sh, w') && PartReset(sh, w, w', c, g, i) && x < |w.ctxs|
    ensures Via(w', x, c, i) <==> Via(w, x, c, i)
  {
    if Via(w, x, c, i) {
      var d: nat :| d < |w.place| && w.place[d] == Held(c, i) && (x == d || Below(w, x, d));
      forall y: nat | y < |w.place| && (y == d || Below(w, y, d))
        ensures w'.place[y] == w.place[y]
      {
        assert Via(w, y, c, i);
        NotBefore(sh, w, y, c, i);
        ViaBelow(sh, w, y, c, i);
        assert Untouched(w, w', y);
      }
      if x != d { BelowStill(sh, w, w', x, d); }
    }
    if Via(w', x, c, i) {
      var d: nat :| d < |w'.place| && w'.place[d] == Held(c, i) && (x == d || Below(w', x, d));
      if x != d { BelowBefore(sh, w, w', x, d); }
    }
  }

  lemma NotBefore(sh: Shapes, w: World, x: nat, c: nat, i: nat)
    requires Placed(sh, w) && Via(w, x, c, i)
    ensures !ViaBefore(w, x, c, i)
  {
    if ViaBefore(w, x, c, i) {
      var u: nat :| u < i && Via(w, x, c, u);
      ViaOne(sh, w, x, c, u, i);
    }
  }

  lemma PartStep(sh: Shapes, w0: World, w: World, w': World, c: nat, g: nat, i: nat)
    requires Placed(sh, w0) && Placed(sh, w) && PartReset(sh, w0, w, c, g, i) && VertexResetTo(sh, w, w', c, g, i)
    ensures PartReset(sh, w0, w', c, g, i + 1)
  {
    forall x: nat | x < |w0.ctxs| && x != c
      ensures if ViaBefore(w0, x, c, i + 1) then Returned(sh, w', x) else Untouched(w0, w', x)
    {
      ViaStill(sh, w0, w, c, g, i, x);
      BeforeNext(w0, x, c, i);
      assert Untouched(w0, w, x) || Returned(sh, w, x);
      assert Untouched(w, w', x) || Returned(sh, w', x);
    }
  }

  lemma BeforeNext(w: World, x: nat, c: nat, i: nat)
    requires |w.place| == |w.depth| == |w.ctxs|
    ensures ViaBefore(w, x, c, i + 1) <==> ViaBefore(w, x, c, i) || Via(w, x, c, i)
  {
    if ViaBefore(w, x, c, i + 1) {
      var u: nat :| u < i + 1 && Via(w, x, c, u);
    }
  }

  /** Vertex v of c's running graph gives d, idle by now, back to its pool. */
  ghost predicate Returns(sh: Shapes, w: World, w': World, c: nat, g: nat, v: nat, d: nat) {
    && Placed(sh, w) && c < |w.ctxs| && d < |w.ctxs| && c != d && w.ctxs[c].running == Some(g) && g < |w.ctxs[c].graphs|
    && v < |w.ctxs[c].graphs[g].vs| && w.ctxs[c].graphs[g].vs[v].sub == Some(d)
    && CtxOk(sh, w.ctxs[c]) && CtxOk(sh, w.ctxs[d]) && Idle(sh, w.ctxs[d]) && v < |sh[w.ctxs[c].owner][g]|
    && w' == w.(ctxs := w.ctxs[c := WithVertex(w.ctxs[c], g, v, FreshVertex(sh[w.ctxs[c].owner][g][v]))],
                pools := w.pools[w.ctxs[d].owner := w.pools[w.ctxs[d].owner] + [d]],
                place := w.place[d := InPool])
  }

  lemma SubsAfter(sh: Shapes, c: Context, g: nat, v: nat)
    requires CtxOk(sh, c) && c.running == Some(g)
    requires v < |c.graphs[g].vs| && v < |sh[c.owner][g]|
    ensures var c' := WithVertex(c, g, v, FreshVertex(sh[c.owner][g][v]));
      CtxOk(sh, c') && Subs(c') == Subs(c)[v := None]
  {
  }

  lemma ReturnKeeps(sh: Shapes, w: World, w': World, c: nat, g: nat, v: nat, d: nat)
    requires Returns(sh, w, w', c, g, v, d)
    ensures Placed(sh, w') && w.place[d] == Held(c, v)
  {
    assert CtxOk(sh, w.ctxs[c]) && SubsOk(w, c) && Subs(w.ctxs[c])[v] == Some(d);
    SubsAfter(sh, w.ctxs[c], g, v);
    forall x: nat | x < |w'.ctxs|
      ensures CtxOk(sh, w'.ctxs[x])
    {
      assert CtxOk(sh, w.ctxs[x]);
    }
    forall x: nat | x < |w'.ctxs|
      ensures PlaceOk(w', x)
    {
      ReturnPlaces(sh, w, w', c, g, v, d, x);
    }
    forall h: nat | h < |w'.ctxs|
      ensures SubsOk(w', h)
    {
      ReturnSubs(sh, w, w', c, g, v, d, h);
    }
    forall k: nat | k < |w'.pools|
      ensures PoolOk(w', k)
    {
      ReturnPools(sh, w, w', c, g, v, d, k);
    }
  }

  lemma ReturnPlaces(sh: Shapes, w: World, w': World, c: nat, g: nat, v: nat, d: nat, x: nat)
    requires Returns(sh, w, w', c, g, v, d) && x < |w'.ctxs|
    ensures PlaceOk(w', x)
  {
    assert CtxOk(sh, w.ctxs[c]) && SubsOk(w, c) && Subs(w.ctxs[c])[v] == Some(d);
    SubsAfter(sh, w.ctxs[c], g, v);
    assert PlaceOk(w, x);
  }

  lemma ReturnSubs(sh: Shapes, w: World, w': World, c: nat, g: nat, v: nat, d: nat, h: nat)
    requires Returns(sh, w, w', c, g, v, d) && h < |w'.ctxs|
    ensures SubsOk(w', h)
  {
    assert CtxOk(sh, w.ctxs[c]) && SubsOk(w, c) && Subs(w.ctxs[c])[v] == Some(d);
    SubsAfter(sh, w.ctxs[c], g, v);
    assert SubsOk(w, h);
  }

  lemma ReturnPools(sh: Shapes, w: World, w': World, c: nat, g: nat, v: nat, d: nat, k: nat)
    requires Returns(sh, w, w', c, g, v, d) && k < |w'.pools|
    ensures PoolOk(w', k)
  {
    assert PoolOk(w, k) && SubsOk(w, c) && Subs(w.ctxs[c])[v] == Some(d);
  }

  /** A vertex without a subgraph context is reset in place. */
  lemma PlainKeeps(sh: Shapes, w: World, w': World, c: nat, g: nat, v: nat)
    requires Placed(sh, w) && c < |w.ctxs| && w.ctxs[c].running == Some(g) && CtxOk(sh, w.ctxs[c])
    requires v < |w.ctxs[c].graphs[g].vs| && w.ctxs[c].graphs[g].vs[v].sub == None && v < |sh[w.ctxs[c].owner][g]|
    requires w' == w.(ctxs := w.ctxs[c := WithVertex(w.ctxs[c], g, v, FreshVertex(sh[w.ctxs[c].owner][g][v]))])
    ensures Placed(sh, w') && VertexResetTo(sh, w, w', c, g, v)
  {
    SubsAfter(sh, w.ctxs[c], g, v);
    assert Subs(w.ctxs[c])[v] == None;
    assert Subs(w'.ctxs[c]) == Subs(w.ctxs[c]);
    forall x: nat | x < |w'.ctxs|
      ensures CtxOk(sh, w'.ctxs[x]) && PlaceOk(w', x) && SubsOk(w', x)
    {
      assert CtxOk(sh, w.ctxs[x]) && PlaceOk(w, x) && SubsOk(w, x);
    }
    forall k: nat | k < |w'.pools|
      ensures PoolOk(w', k)
    {
      assert PoolOk(w, k);
    }
    forall x: nat | x < |w.ctxs| && x != c
      ensures !Via(w, x, c, v) && Untouched(w, w', x)
    {
      if Via(w, x, c, v) {
        var d: nat :| d < |w.place| && w.place[d] == Held(c, v) && (x == d || Below(w, x, d));
        HolderHas(sh, w, d);
      }
    }
  }

  lemma HolderHas(sh: Shapes, w: World, d: nat)
    requires Placed(sh, w) && d < |w.place| && w.place[d].Held?
    ensures var h, v := w.place[d].h, w.place[d].v;
      h < |w.ctxs| && v < |Subs(w.ctxs[h])| && Subs(w.ctxs[h])[v] == Some(d)
  {
    assert PlaceOk(w, d);
  }

  /** Resetting the held context and giving it back is resetting the vertex. */
  lemma HeldReset(sh: Shapes, w: World, w1: World, w2: World, c: nat, g: nat, v: nat, d: nat)
    requires Placed(sh, w) && c < |w.ctxs| && w.ctxs[c].running == Some(g) && CtxOk(sh, w.ctxs[c])
    requires v < |w.ctxs[c].graphs[g].vs| && w.ctxs[c].graphs[g].vs[v].sub == Some(d)
    requires d < |w.ctxs| && w.place[d] == Held(c, v) && ResetTo(sh, w, w1, d) && Returns(sh, w1, w2, c, g, v, d)
    ensures VertexResetTo(sh, w, w2, c, g, v)
  {
    HolderNotBelow(sh, w, c, d);
    assert Untouched(w, w1, c);
    forall x: nat | x < |w.ctxs| && x != c
      ensures if Via(w, x, c, v) then Returned(sh, w2, x) else Untouched(w, w2, x)
    {
      ViaThis(sh, w, c, v, d, x);
      assert x != d ==> Untouched(w, w1, x) || Returned(sh, w1, x);
    }
  }

  lemma ViaThis(sh: Shapes, w: World, c: nat, v: nat, d: nat, x: nat)
    requires Placed(sh, w) && d < |w.place| && w.place[d] == Held(c, v) && x < |w.place|
    ensures Via(w, x, c, v) <==> x == d || Below(w, x, d)
  {
    assert PlaceOk(w, d);
    if Via(w, x, c, v) {
      var e: nat :| e < |w.place| && w.place[e] == Held(c, v) && (x == e || Below(w, x, e));
      assert PlaceOk(w, e);
    }
  }

  /** All vertices are reset: the graph no longer runs. */
  lemma WholeReset(sh: Shapes, w0: World, w: World, w': World, c: nat, g: nat, n: nat)
    requires Placed(sh, w0) && Placed(sh, w) && PartReset(sh, w0, w, c, g, n) && n == |w0.ctxs[c].graphs[g].vs|
    requires w' == w.(ctxs := w.ctxs[c := w.ctxs[c].(running := None,
                        graphs := w.ctxs[c].graphs[g := w.ctxs[c].graphs[g].(join := |sh[w.ctxs[c].owner][g]|)])])
    ensures Placed(sh, w') && ResetTo(sh, w0, w', c)
  {
    assert w'.ctxs[c].graphs[g].vs == FreshGraph(sh[w.ctxs[c].owner][g]).vs;
    assert CtxOk(sh, w'.ctxs[c]) && Idle(sh, w'.ctxs[c]) && Subs(w'.ctxs[c]) == [];
    forall x: nat | x < |w'.ctxs|
      ensures CtxOk(sh, w'.ctxs[x]) && PlaceOk(w', x) && SubsOk(w', x)
    {
      assert CtxOk(sh, w.ctxs[x]) && PlaceOk(w, x) && SubsOk(w, x);
      assert forall v :: 0 <= v < |Subs(w.ctxs[c])| ==> Subs(w.ctxs[c])[v] == None;
    }
    forall k: nat | k < |w'.pools|
      ensures PoolOk(w', k)
    {
      assert PoolOk(w, k);
    }
    forall x: nat | x < |w0.ctxs| && x != c
      ensures if Below(w0, x, c) then Returned(sh, w', x) else Untouched(w0, w', x)
    {
      if Below(w0, x, c) {
        var v := BelowVia(sh, w0, x, c);
        assert Via(w0, x, c, v) && ViaBefore(w0, x, c, n);
      } else if ViaBefore(w0, x, c, n) {
        var u: nat :| u < n && Via(w0, x, c, u);
        ViaBelow(sh, w0, x, c, u);
      }
      assert Untouched(w0, w, x) || Returned(sh, w, x);
    }
  }

  // ------------------------------------------------------------------ acquiring

  function FreshContext(sh: Shapes, k: nat): Context
    requires k < |sh|
  {
    Context(k, seq(|sh[k]|, g requires 0 <= g < |sh[k]| => FreshGraph(sh[k][g])), None)
  }

  /** A new context, as if it had been waiting in the pool */
  ghost function Minted(sh: Shapes, w: World, k: nat): World
    requires k < |sh| && k < |w.pools|
  {
    w.(ctxs := w.ctxs + [FreshContext(sh, k)], pools := w.pools[k := [|w.ctxs|]],
       place := w.place + [InPool], depth := w.depth + [0])
  }

  lemma MintKeeps(sh: Shapes, w: World, k: nat)
    requires Placed(sh, w) && k < |sh| && w.pools[k] == []
    ensures Placed(sh, Minted(sh, w, k))
  {
    var w' := Minted(sh, w, k);
    forall x: nat | x < |w'.ctxs|
      ensures CtxOk(sh, w'.ctxs[x]) && PlaceOk(w', x) && SubsOk(w', x)
    {
      if x < |w.ctxs| {
        assert CtxOk(sh, w.ctxs[x]) && PlaceOk(w, x) && SubsOk(w, x);
        if w.place[x].InPool? { assert w.ctxs[x].owner != k; }
      }
    }
    forall j: nat | j < |w'.pools|
      ensures PoolOk(w', j)
    {
      assert PoolOk(w, j);
    }
  }

  /** The first context of a pool is idle and nowhere else. */
  lemma FirstInPool(sh: Shapes, w: World, k: nat)
    requires Placed(sh, w) && k < |w.pools| && w.pools[k] != []
    ensures var c := w.pools[k][0];
      && c < |w.ctxs| && w.place[c] == InPool && w.ctxs[c].owner == k && w.ctxs[c].running == None
      && CtxOk(sh, w.ctxs[c]) && Idle(sh, w.ctxs[c])
    ensures w.pools[k][0] !in w.pools[k][1..] && NoDup(w.pools[k][1..])
    ensures forall j :: 0 <= j < |w.pools| && j != k ==> w.pools[k][0] !in w.pools[j]
  {
    var c := w.pools[k][0];
    assert PoolOk(w, k) && c in w.pools[k];
    assert PlaceOk(w, c) && CtxOk(sh, w.ctxs[c]);
    forall j: nat | j < |w.pools| && j != k
      ensures c !in w.pools[j]
    {
      assert PoolOk(w, j);
    }
  }

  lemma PoolsAfter(sh: Shapes, w: World, w': World, k: nat, j: nat)
    requires Placed(sh, w) && k < |w.pools| && w.pools[k] != [] && j < |w.pools|
    requires |w'.place| == |w'.ctxs| == |w.ctxs| && w'.pools == w.pools[k := w.pools[k][1..]]
    requires forall x :: 0 <= x < |w.ctxs| && x != w.pools[k][0] ==> w'.place[x] == w.place[x]
    requires forall x :: 0 <= x < |w.ctxs| ==> w'.ctxs[x].owner == w.ctxs[x].owner
    ensures PoolOk(w', j)
  {
    FirstInPool(sh, w, k);
    assert PoolOk(w, j) && PoolOk(w, k);
    assert forall x :: x in w.pools[k][1..] ==> x in w.pools[k];
  }

  lemma ServeKeeps(sh: Shapes, w: World, w': World, k: nat)
    requires Placed(sh, w) && k < |w.pools| && w.pools[k] != [] && w.pools[k][0] < |w.place|
    requires w' == w.(pools := w.pools[k := w.pools[k][1..]], place := w.place[w.pools[k][0] := Serving])
    ensures Placed(sh, w')
  {
    var c := w.pools[k][0];
    FirstInPool(sh, w, k);
    forall x: nat | x < |w'.ctxs|
      ensures PlaceOk(w', x) && SubsOk(w', x)
    {
      assert PlaceOk(w, x) && SubsOk(w, x);
      if w.place[x].InPool? && x != c && w.ctxs[x].owner == k {
        assert w.pools[k] == [c] + w.pools[k][1..];
      }
    }
    forall j: nat | j < |w'.pools|
      ensures PoolOk(w', j)
    {
      PoolsAfter(sh, w, w', k, j);
    }
  }

  /** Vertex v of h's running graph g takes the first context of pool k. */
  ghost predicate Holds(sh: Shapes, w: World, w': World, k: nat, h: nat, g: nat, v: nat) {
    && Placed(sh, w) && k < |w.pools| && w.pools[k] != [] && h < |w.ctxs| && w.pools[k][0] < |w.ctxs|
    && w.ctxs[h].running == Some(g) && g < |w.ctxs[h].graphs| && v < |w.ctxs[h].graphs[g].vs|
    && w.ctxs[h].graphs[g].vs[v].sub == None && w'.bound >= w.bound && w'.bound > w.depth[h]
    && w' == World(
         w.ctxs[h := WithVertex(w.ctxs[h], g, v, w.ctxs[h].graphs[g].vs[v].(sub := Some(w.pools[k][0])))],
         w.pools[k := w.pools[k][1..]], w.place[w.pools[k][0] := Held(h, v)],
         w.depth[w.pools[k][0] := w.depth[h] + 1], w'.bound)
  }

  lemma HoldCtx(sh: Shapes, c: Context, g: nat, v: nat, d: nat)
    requires CtxOk(sh, c) && c.running == Some(g) && v < |c.graphs[g].vs|
    ensures var c' := WithVertex(c, g, v, c.graphs[g].vs[v].(sub := Some(d)));
      CtxOk(sh, c') && Subs(c') == Subs(c)[v := Some(d)]
  {
  }

  lemma HoldKeeps(sh: Shapes, w: World, w': World, k: nat, h: nat, g: nat, v: nat)
    requires Holds(sh, w, w', k, h, g, v)
    ensures Placed(sh, w')
  {
    var c := w.pools[k][0];
    FirstInPool(sh, w, k);
    assert CtxOk(sh, w.ctxs[h]) && PlaceOk(w, h) && SubsOk(w, h) && SubsOk(w, c);
    HoldCtx(sh, w.ctxs[h], g, v, c);
    assert Subs(w.ctxs[c]) == [];
    forall x: nat | x < |w'.ctxs|
      ensures CtxOk(sh, w'.ctxs[x])
    {
      assert CtxOk(sh, w.ctxs[x]);
    }
    forall x: nat | x < |w'.ctxs|
      ensures PlaceOk(w', x)
    {
      HeldPlace(sh, w, w', k, h, g, v, x);
    }
    forall x: nat | x < |w'.ctxs|
      ensures SubsOk(w', x)
    {
      assert SubsOk(w, x);
    }
    forall j: nat | j < |w'.pools|
      ensures PoolOk(w', j)
    {
      PoolsAfter(sh, w, w', k, j);
    }
  }

  lemma HeldPlace(sh: Shapes, w: World, w': World, k: nat, h: nat, g: nat, v: nat, x: nat)
    requires Holds(sh, w, w', k, h, g, v) && x < |w.ctxs|
    ensures PlaceOk(w', x)
  {
    var c := w.pools[k][0];
    FirstInPool(sh, w, k);
    assert CtxOk(sh, w.ctxs[h]) && PlaceOk(w, h) && PlaceOk(w, x);
    HoldCtx(sh, w.ctxs[h], g, v, c);
    if w.place[x].InPool? && x != c && w.ctxs[x].owner == k {
      assert w.pools[k] == [c] + w.pools[k][1..];
    }
  }

  class Manager {
    const shapes: Shapes
    var ctxs: seq<Context>
    var pools: seq<seq<nat>>
    ghost var place: seq<Place>
    ghost var depth: seq<nat>
    ghost var bound: nat

    ghost function W(): World
      reads this
    {
      World(ctxs, pools, place, depth, bound)
    }

    ghost predicate Valid()
      reads this
    {
      Placed(shapes, W())
    }

    constructor (shapes: Shapes)
      ensures this.shapes == shapes && Valid() && ctxs == []
    {
      this.shapes := shapes;
      ctxs, pools := [], seq(|shapes|, _ => []);
      place, depth, bound := [], [], 0;
    }

    /** VertexContext::Reset: counters and slots as at the start; an acquired
        subgraph context is reset and released */
    method ResetVertex(c: nat, g: nat, v: nat)
      requires Valid() && c < |ctxs| && ctxs[c].running == Some(g) && g < |ctxs[c].graphs| && v < |ctxs[c].graphs[g].vs|
      modifies this`ctxs, this`pools, this`place
      ensures Valid() && VertexResetTo(shapes, old(W()), W(), c, g, v)
      decreases bound - depth[c], 0, |ctxs[c].graphs[g].vs| - v
    {
      ghost var w := W();
      assert CtxOk(shapes, ctxs[c]) && SubsOk(w, c) && PlaceOk(w, c);
      var deps, sub := shapes[ctxs[c].owner][g][v], ctxs[c].graphs[g].vs[v].sub;
      if sub.None? {
        ctxs := ctxs[c := WithVertex(ctxs[c], g, v, FreshVertex(deps))];
        PlainKeeps(shapes, w, W(), c, g, v);
      } else {
        var d := sub.value;
        assert Subs(ctxs[c])[v] == Some(d) && PlaceOk(w, d);
        Reset(d);
        ghost var w1 := W();
        HolderNotBelow(shapes, w, c, d);
        assert Untouched(w, w1, c);
        Release(c, g, v, d);
        HeldReset(shapes, w, w1, W(), c, g, v, d);
      }
    }

    /** ReleaseContext, and the vertex forgets the context */
    method Release(c: nat, g: nat, v: nat, d: nat)
      requires Valid() && c < |ctxs| && d < |ctxs| && c != d && ctxs[c].running == Some(g) && g < |ctxs[c].graphs|
      requires v < |ctxs[c].graphs[g].vs| && ctxs[c].graphs[g].vs[v].sub == Some(d)
      requires CtxOk(shapes, ctxs[d]) && Idle(shapes, ctxs[d])
      modifies this`ctxs, this`pools, this`place
      ensures Valid() && Returns(shapes, old(W()), W(), c, g, v, d)
    {
      ghost var w := W();
      assert CtxOk(shapes, ctxs[c]);
      var k := ctxs[d].owner;
      pools := pools[k := pools[k] + [d]];
      place := place[d := InPool];
      ctxs := ctxs[c := WithVertex(ctxs[c], g, v, FreshVertex(shapes[ctxs[c].owner][g][v]))];
      ReturnKeeps(shapes, w, W(), c, g, v, d);
    }

    /** GraphClusterContext::Reset: everything the run acquired goes back, each
        context once, and all counters are as before the run. */
    method Reset(c: nat)
      requires Valid() && c < |ctxs|
      modifies this`ctxs, this`pools, this`place
      ensures Valid() && ResetTo(shapes, old(W()), W(), c)
      ensures old(ctxs[c].running == None) ==> W() == old(W())
      decreases bound - depth[c], 1
    {
      ghost var w0 := W();
      assert CtxOk(shapes, ctxs[c]);
      if ctxs[c].running.Some? {
        var g := ctxs[c].running.value;
        var n := |ctxs[c].graphs[g].vs|;
        NothingYet(shapes, w0, c, g);
        for v := 0 to n
          invariant Valid() && PartReset(shapes, w0, W(), c, g, v)
          invariant depth == w0.depth && bound == w0.bound
        {
          ghost var w := W();
          ResetVertex(c, g, v);
          PartStep(shapes, w0, w, W(), c, g, v);
        }
        ghost var w := W();
        var join := |shapes[ctxs[c].owner][g]|;
        ctxs := ctxs[c := ctxs[c].(running := None, graphs := ctxs[c].graphs[g := ctxs[c].graphs[g].(join := join)])];
        WholeReset(shapes, w0, w, W(), c, g, n);
      } else {
        NoneBelow(shapes, w0, c);
      }
    }

    // --------------------------------------------------------- life of a context

    /** GetContext: the first of the cluster's pool, else a new one. Either way it
        is as if taken from the pool of the world `from`. */
    method GetContext(k: nat) returns (c: nat, ghost from: World)
      requires Valid() && k < |shapes|
      modifies this
      ensures Placed(shapes, from) && k < |from.pools| && from.pools[k] != [] && from.pools[k][0] == c < |from.ctxs|
      ensures from == (if old(pools[k]) == [] then Minted(shapes, old(W()), k) else old(W()))
      ensures W() == from.(pools := from.pools[k := from.pools[k][1..]])
    {
      from := W();
      if pools[k] != [] {
        c := pools[k][0];
        pools := pools[k := pools[k][1..]];
      } else {
        MintKeeps(shapes, from, k);
        from := Minted(shapes, from, k);
        c := |ctxs|;
        ctxs := ctxs + [FreshContext(shapes, k)];
        place, depth := place + [InPool], depth + [0];
        assert from.pools[k][1..] == [] == pools[k];
        assert pools == from.pools[k := from.pools[k][1..]];
      }
      FirstInPool(shapes, from, k);
    }

    /** A top-level request takes a context of cluster k: it is idle, and whatever
        else there was is where it was. */
    method Serve(k: nat) returns (c: nat)
      requires Valid() && k < |shapes|
      modifies this
      ensures Valid() && |ctxs| >= old(|ctxs|) && c < |ctxs| && place[c] == Serving
      ensures ctxs[c] == FreshContext(shapes, k)
      ensures c >= old(|ctxs|) || old(place[c]) == InPool
      ensures forall x :: 0 <= x < old(|ctxs|) && x != c ==>
        x < |ctxs| && ctxs[x] == old(ctxs[x]) && place[x] == old(place[x])
    {
      ghost var from;
      c, from := GetContext(k);
      FirstInPool(shapes, from, k);
      IdleIsFresh(shapes, from.ctxs[c]);
      place := place[c := Serving];
      ServeKeeps(shapes, from, W(), k);
    }

    /** Vertex v of h's running graph g takes a context of cluster k. */
    method Take(h: nat, g: nat, v: nat, k: nat) returns (c: nat)
      requires Valid() && k < |shapes| && h < |ctxs| && ctxs[h].running == Some(g) && g < |ctxs[h].graphs|
      requires v < |ctxs[h].graphs[g].vs| && ctxs[h].graphs[g].vs[v].sub == None
      modifies this
      ensures Valid() && |ctxs| >= old(|ctxs|) && c < |ctxs| && c != h
      ensures place[c] == Held(h, v) && ctxs[c] == FreshContext(shapes, k)
      ensures c >= old(|ctxs|) || old(place[c]) == InPool
      ensures ctxs[h] == WithVertex(old(ctxs[h]), g, v, old(ctxs[h].graphs[g].vs[v]).(sub := Some(c)))
      ensures forall x :: 0 <= x < old(|ctxs|) && x != c ==>
        place[x] == old(place[x]) && (x != h ==> ctxs[x] == old(ctxs[x]))
    {
      ghost var from;
      c, from := GetContext(k);
      FirstInPool(shapes, from, k);
      IdleIsFresh(shapes, from.ctxs[c]);
      ctxs := ctxs[h := WithVertex(ctxs[h], g, v, ctxs[h].graphs[g].vs[v].(sub := Some(c)))];
      place, depth := place[c := Held(h, v)], depth[c := depth[h] + 1];
      bound := if bound > depth[h] then bound else depth[h] + 1;
      HoldKeeps(shapes, from, W(), k, h, g, v);
    }

    /** Execute of a vertex that stands for a subgraph: it acquires a context of
        cluster k unless it has one. */
    method Acquire(h: nat, v: nat, k: nat) returns (c: nat)
      requires Valid() && k < |shapes| && h < |ctxs| && ctxs[h].running.Some? && v < |Subs(ctxs[h])|
      modifies this
      ensures Valid() && |ctxs| >= old(|ctxs|) && c < |ctxs| && v < |Subs(ctxs[h])| && Subs(ctxs[h])[v] == Some(c)
      ensures old(Subs(ctxs[h])[v].Some?) ==> W() == old(W())
      ensures old(Subs(ctxs[h])[v].None?) ==>
        place[c] == Held(h, v) && ctxs[c] == FreshContext(shapes, k) && (c >= old(|ctxs|) || old(place[c]) == InPool)
      ensures forall x :: 0 <= x < old(|ctxs|) && x != c && x != h ==>
        x < |ctxs| && ctxs[x] == old(ctxs[x]) && place[x] == old(place[x])
    {
      assert CtxOk(shapes, ctxs[h]) && SubsOk(W(), h);
      var g := ctxs[h].running.value;
      if ctxs[h].graphs[g].vs[v].sub.Some? {
        c := ctxs[h].graphs[g].vs[v].sub.value;
        assert Subs(ctxs[h])[v] == Some(c);
      } else {
        c := Take(h, g, v, k);
        HoldCtx(shapes, old(ctxs[h]), g, v, c);
      }
    }

    /** GetRunGraph: the graph that runs already, or graph g from the protocol's
        initial state; false if the cluster has no such graph */
    method Start(c: nat, g: nat) returns (ok: bool)
      requires Valid() && c < |ctxs| && place[c] != InPool
      modifies this`ctxs
      ensures Valid() && ok == (old(ctxs[c].running.Some?) || g < |ctxs[c].graphs|)
      ensures !ok || old(ctxs[c].running.Some?) ==> W() == old(W())
      ensures ok && old(ctxs[c].running.None?) ==>
        W() == old(W()).(ctxs := old(ctxs)[c := old(ctxs[c]).(running := Some(g))])
        && ctxs[c].owner < |shapes| && g < |shapes[ctxs[c].owner]|
        && ctxs[c].graphs[g] == FreshGraph(shapes[ctxs[c].owner][g])
    {
      assert CtxOk(shapes, ctxs[c]);
      if ctxs[c].running.Some? {
        return true;
      }
      if g >= |ctxs[c].graphs| {
        return false;
      }
      ghost var w := W();
      ctxs := ctxs[c := ctxs[c].(running := Some(g))];
      StartKeeps(shapes, w, W(), c, g);
      return true;
    }

    /** A run writes its counters, slots and results, but not who holds what. */
    method Progress(c: nat, st: GraphState)
      requires Valid() && c < |ctxs| && ctxs[c].running.Some? && |st.vs| == |Subs(ctxs[c])|
      requires forall v :: 0 <= v < |st.vs| ==> st.vs[v].sub == Subs(ctxs[c])[v]
      modifies this`ctxs
      ensures Valid() && |ctxs| == old(|ctxs|) && ctxs[c].running == old(ctxs[c].running)
      ensures ctxs[c].running.value < |ctxs[c].graphs| && ctxs[c].graphs[ctxs[c].running.value] == st
      ensures forall x :: 0 <= x < |ctxs| && x != c ==> ctxs[x] == old(ctxs[x])
    {
      ghost var w := W();
      assert CtxOk(shapes, ctxs[c]) && PlaceOk(w, c);
      var g := ctxs[c].running.value;
      ctxs := ctxs[c := ctxs[c].(graphs := ctxs[c].graphs[g := st])];
      assert Subs(ctxs[c]) == Subs(w.ctxs[c]);
      SameSubs(shapes, w, W(), c);
    }

    /** The end of a top-level request: its context and all that its run acquired
        are back in their pools, fresh. */
    method Finish(c: nat)
      requires Valid() && c < |ctxs| && place[c] == Serving
      modifies this`ctxs, this`pools, this`place
      ensures Valid() && |ctxs| == old(|ctxs|) && Returned(shapes, W(), c)
      ensures forall x {:trigger Untouched(old(W()), W(), x)} :: 0 <= x < |ctxs| && x != c ==>
        if Below(old(W()), x, c) then Returned(shapes, W(), x) else Untouched(old(W()), W(), x)
    {
      ghost var w0 := W();
      Reset(c);
      ghost var w := W();
      var k := ctxs[c].owner;
      pools := pools[k := pools[k] + [c]];
      place := place[c := InPool];
      EnqueueKeeps(shapes, w, W(), c);
      forall x: nat | x < |ctxs| && x != c
        ensures if Below(w0, x, c) then Returned(shapes, W(), x) else Untouched(w0, W(), x)
      {
        assert Untouched(w0, w, x) || Returned(shapes, w, x);
      }
    }
  }

  /** Only c's own state has changed, and it holds what it held. */
  lemma SameSubs(sh: Shapes, w: World, w': World, c: nat)
    requires Placed(sh, w) && c < |w.ctxs| && |w'.ctxs| == |w.ctxs|
    requires w' == w.(ctxs := w.ctxs[c := w'.ctxs[c]]) && CtxOk(sh, w'.ctxs[c]) && Subs(w'.ctxs[c]) == Subs(w.ctxs[c])
    requires w'.ctxs[c].owner == w.ctxs[c].owner && w.place[c] != InPool
    ensures Placed(sh, w')
  {
    forall x: nat | x < |w'.ctxs|
      ensures CtxOk(sh, w'.ctxs[x]) && PlaceOk(w', x) && SubsOk(w', x)
    {
      assert CtxOk(sh, w.ctxs[x]) && PlaceOk(w, x) && SubsOk(w, x);
    }
    forall j: nat | j < |w'.pools|
      ensures PoolOk(w', j)
    {
      assert PoolOk(w, j);
    }
  }

  /** A graph that starts to run holds nothing yet. */
  lemma StartKeeps(sh: Shapes, w: World, w': World, c: nat, g: nat)
    requires Placed(sh, w) && c < |w.ctxs| && w.ctxs[c].running == None && g < |w.ctxs[c].graphs|
    requires w.place[c] != InPool
    requires w' == w.(ctxs := w.ctxs[c := w.ctxs[c].(running := Some(g))])
    ensures Placed(sh, w')
  {
    assert CtxOk(sh, w.ctxs[c]) && CtxOk(sh, w'.ctxs[c]);
    assert forall v :: 0 <= v < |Subs(w'.ctxs[c])| ==> Subs(w'.ctxs[c])[v] == None;
    forall x: nat | x < |w'.ctxs|
      ensures CtxOk(sh, w'.ctxs[x])
    {
      assert CtxOk(sh, w.ctxs[x]);
    }
    forall x: nat | x < |w'.ctxs|
      ensures PlaceOk(w', x)
    {
      assert PlaceOk(w, x);
    }
    forall x: nat | x < |w'.ctxs|
      ensures SubsOk(w', x)
    {
      assert SubsOk(w, x);
    }
    forall j: nat | j < |w'.pools|
      ensures PoolOk(w', j)
    {
      assert PoolOk(w, j);
    }
  }

  lemma IdleIsFresh(sh: Shapes, c: Context)
    requires CtxOk(sh, c) && Idle(sh, c)
    ensures c == FreshContext(sh, c.owner)
  {
    assert c.graphs == FreshContext(sh, c.owner).graphs;
  }

  lemma EnqueueKeeps(sh: Shapes, w: World, w': World, c: nat)
    requires Placed(sh, w) && c < |w.ctxs| && w.place[c] == Serving && w.ctxs[c].running == None && CtxOk(sh, w.ctxs[c])
    requires var k := w.ctxs[c].owner;
      k < |w.pools| && w' == w.(pools := w.pools[k := w.pools[k] + [c]], place := w.place[c := InPool])
    ensures Placed(sh, w')
  {
    forall x: nat | x < |w'.ctxs|
      ensures PlaceOk(w', x) && SubsOk(w', x)
    {
      assert PlaceOk(w, x) && SubsOk(w, x);
    }
    forall j: nat | j < |w'.pools|
      ensures PoolOk(w', j)
    {
      assert PoolOk(w, j);
    }
  }

  lemma NothingYet(sh: Shapes, w: World, c: nat, g: nat)
    requires Placed(sh, w) && c < |w.ctxs| && w.ctxs[c].running == Some(g)
    ensures PartReset(sh, w, w, c, g, 0)
  {
    assert CtxOk(sh, w.ctxs[c]);
    forall x: nat | x < |w.ctxs|
      ensures Untouched(w, w, x) && !ViaBefore(w, x, c, 0)
    {
    }
  }

  /** A context whose graphs do not run holds nothing. */
  lemma NoneBelow(sh: Shapes, w: World, c: nat)
    requires Placed(sh, w) && c < |w.ctxs| && w.ctxs[c].running == None
    ensures ResetTo(sh, w, w, c)
  {
    assert CtxOk(sh, w.ctxs[c]);
    forall x: nat | x < |w.ctxs|
      ensures Untouched(w, w, x) && !Below(w, x, c)
    {
      if Below(w, x, c) {
        var v := BelowVia(sh, w, x, c);
      }
    }
  }
}
