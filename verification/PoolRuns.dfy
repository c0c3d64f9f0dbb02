/** Any sequence of requests, nested calls, graph runs and releases on the context
    pools, and how a fresh context matches the engine's initial state. */
module PoolRuns {
  import opened Collections
  import opened DagGraph
  import DagEngine
  import opened ContextPool

  /** A request for a cluster, a graph run in a context, a nested call from a
      vertex, whatever a run writes, and the end of a request */
  datatype Op =
    | Request(k: nat)
    | Enter(c: nat, g: nat)
    | Nest(h: nat, v: nat, k: nat)
    | Write(c: nat, st: GraphState)
    | End(c: nat)

  predicate Pooled(ctxs: seq<Context>, pools: seq<seq<nat>>, c: nat)
    requires c < |ctxs|
  {
    ctxs[c].owner < |pools| && c in pools[ctxs[c].owner]
  }

  predicate HeldBySome(ctxs: seq<Context>, c: nat) {
    exists h :: 0 <= h < |ctxs| && Some(c) in Subs(ctxs[h])
  }

  /** A step that the managing code can take: only contexts that are out are
      used, and only those of requests are given back. */
  predicate Applies(clusters: nat, ctxs: seq<Context>, pools: seq<seq<nat>>, op: Op) {
    match op
    case Request(k) => k < clusters
    case Enter(c, g) => c < |ctxs| && !Pooled(ctxs, pools, c) && g < |ctxs[c].graphs|
    case Nest(h, v, k) => k < clusters && h < |ctxs| && ctxs[h].running.Some? && v < |Subs(ctxs[h])|
    case Write(c, st) =>
      && c < |ctxs| && ctxs[c].running.Some? && |st.vs| == |Subs(ctxs[c])|
      && forall v :: 0 <= v < |st.vs| ==> st.vs[v].sub == Subs(ctxs[c])[v]
    case End(c) => c < |ctxs| && !Pooled(ctxs, pools, c) && !HeldBySome(ctxs, c)
  }

  /** Where a context is can be read off the pools and the vertices. */
  lemma PlaceRead(sh: Shapes, w: World, c: nat)
    requires Placed(sh, w) && c < |w.ctxs|
    ensures Pooled(w.ctxs, w.pools, c) <==> w.place[c] == InPool
    ensures HeldBySome(w.ctxs, c) <==> w.place[c].Held?
  {
    assert PlaceOk(w, c) && CtxOk(sh, w.ctxs[c]);
    if Pooled(w.ctxs, w.pools, c) { assert PoolOk(w, w.ctxs[c].owner); }
    if HeldBySome(w.ctxs, c) {
      var h :| 0 <= h < |w.ctxs| && Some(c) in Subs(w.ctxs[h]);
      assert SubsOk(w, h);
    }
    if w.place[c].Held? {
      assert Some(c) in Subs(w.ctxs[w.place[c].h]);
    }
  }

  /** Nothing but c has changed. */
  ghost predicate OnlyChanges(w: World, w': World, c: nat) {
    |w.ctxs| <= |w'.ctxs| && forall x :: 0 <= x < |w.ctxs| && x != c ==> Untouched(w, w', x)
  }

  /** Context c, which was idle or is new, serves a request for cluster k. */
  ghost predicate Serves(sh: Shapes, w: World, w': World, k: nat, c: nat) {
    && k < |sh| && c < |w'.ctxs| && c < |w'.place| && w'.place[c] == Serving && w'.ctxs[c] == FreshContext(sh, k)
    && (c < |w.ctxs| && c < |w.place| ==> w.place[c] == InPool) && OnlyChanges(w, w', c)
  }

  /** Graph g runs in c, unless one does already. */
  ghost predicate Enters(w: World, w': World, c: nat, g: nat) {
    && c < |w.ctxs| == |w'.ctxs| && OnlyChanges(w, w', c) && w'.place == w.place
    && w'.ctxs[c].running == (if w.ctxs[c].running.Some? then w.ctxs[c].running else Some(g))
  }

  /** Vertex v of h has context c, the one it had or else a fresh one of cluster k
      that was idle or is new, and nobody else is concerned. */
  ghost predicate Nests(sh: Shapes, w: World, w': World, h: nat, v: nat, k: nat, c: nat) {
    && k < |sh| && h < |w.ctxs| <= |w'.ctxs| && v < |Subs(w.ctxs[h])|
    && v < |Subs(w'.ctxs[h])| && Subs(w'.ctxs[h])[v] == Some(c)
    && (if Subs(w.ctxs[h])[v].Some? then w' == w
        else
          && c < |w'.ctxs| && c < |w'.place| && w'.ctxs[c] == FreshContext(sh, k) && w'.place[c] == Held(h, v)
          && (c < |w.ctxs| && c < |w.place| ==> w.place[c] == InPool))
    && forall x :: 0 <= x < |w.ctxs| && x != h && x != c ==> Untouched(w, w', x)
  }

  /** The graph that runs in c is in state st. */
  ghost predicate Writes(w: World, w': World, c: nat, st: GraphState) {
    && c < |w.ctxs| == |w'.ctxs| && w'.place == w.place && OnlyChanges(w, w', c)
    && w'.ctxs[c].running.Some? && w'.ctxs[c].running.value < |w'.ctxs[c].graphs|
    && w'.ctxs[c].graphs[w'.ctxs[c].running.value] == st
  }

  /** Context c and all its run acquired are back, fresh; nobody else is
      concerned. */
  ghost predicate Ends(sh: Shapes, w: World, w': World, c: nat)
    requires |w.place| == |w.depth| == |w.ctxs|
  {
    && Returned(sh, w', c) && |w'.ctxs| == |w.ctxs|
    && forall x {:trigger Untouched(w, w', x)} :: 0 <= x < |w.ctxs| && x != c ==>
         if Below(w, x, c) then Returned(sh, w', x) else Untouched(w, w', x)
  }

  ghost predicate Effect(sh: Shapes, w: World, w': World, op: Op)
    requires |w.place| == |w.depth| == |w.ctxs|
  {
    match op
    case Request(k) => exists c :: Serves(sh, w, w', k, c)
    case Enter(c, g) => Enters(w, w', c, g)
    case Nest(h, v, k) => exists c :: Nests(sh, w, w', h, v, k, c)
    case Write(c, st) => Writes(w, w', c, st)
    case End(c) => Ends(sh, w, w', c)
  }

  method DoRequest(m: Manager, k: nat)
    requires m.Valid() && k < |m.shapes|
    modifies m
    ensures m.Valid() && exists c :: Serves(m.shapes, old(m.W()), m.W(), k, c)
  {
    ghost var w := m.W();
    var c := m.Serve(k);
    assert Serves(m.shapes, w, m.W(), k, c);
  }

  method DoEnter(m: Manager, c: nat, g: nat)
    requires m.Valid() && c < |m.ctxs| && !Pooled(m.ctxs, m.pools, c) && g < |m.ctxs[c].graphs|
    modifies m
    ensures m.Valid() && Enters(old(m.W()), m.W(), c, g)
  {
    PlaceRead(m.shapes, m.W(), c);
    var ok := m.Start(c, g);
  }

  method DoNest(m: Manager, h: nat, v: nat, k: nat)
    requires m.Valid() && k < |m.shapes| && h < |m.ctxs| && m.ctxs[h].running.Some? && v < |Subs(m.ctxs[h])|
    modifies m
    ensures m.Valid() && exists c :: Nests(m.shapes, old(m.W()), m.W(), h, v, k, c)
  {
    ghost var w := m.W();
    var c := m.Acquire(h, v, k);
    assert Nests(m.shapes, w, m.W(), h, v, k, c);
  }

  method DoWrite(m: Manager, c: nat, st: GraphState)
    requires m.Valid() && c < |m.ctxs| && m.ctxs[c].running.Some? && |st.vs| == |Subs(m.ctxs[c])|
    requires forall v :: 0 <= v < |st.vs| ==> st.vs[v].sub == Subs(m.ctxs[c])[v]
    modifies m
    ensures m.Valid() && Writes(old(m.W()), m.W(), c, st)
  {
    m.Progress(c, st);
  }

  method DoEnd(m: Manager, c: nat)
    requires m.Valid() && c < |m.ctxs| && !Pooled(m.ctxs, m.pools, c) && !HeldBySome(m.ctxs, c)
    modifies m
    ensures m.Valid() && Ends(m.shapes, old(m.W()), m.W(), c)
  {
    ghost var w := m.W();
    PlaceRead(m.shapes, w, c);
    m.Finish(c);
    forall x: nat | x < |w.ctxs| && x != c
      ensures if Below(w, x, c) then Returned(m.shapes, m.W(), x) else Untouched(w, m.W(), x)
    {
      assert Untouched(w, m.W(), x) || Returned(m.shapes, m.W(), x);
    }
  }

  /** One step, if it applies */
  method Perform(m: Manager, op: Op) returns (done: bool)
    requires m.Valid()
    modifies m
    ensures m.Valid() && done == Applies(|m.shapes|, old(m.ctxs), old(m.pools), op)
    ensures if done then Effect(m.shapes, old(m.W()), m.W(), op) else m.W() == old(m.W())
  {
    done := Applies(|m.shapes|, m.ctxs, m.pools, op);
    if done {
      match op
      case Request(k) => DoRequest(m, k);
      case Enter(c, g) => DoEnter(m, c, g);
      case Nest(h, v, k) => DoNest(m, h, v, k);
      case Write(c, st) => DoWrite(m, c, st);
      case End(c) => DoEnd(m, c);
    }
  }

  /** Every step of ops that applies when its turn comes has its effect, and the
      others have none. */
  ghost predicate IsTrace(sh: Shapes, ops: seq<Op>, worlds: seq<World>) {
    && |worlds| == |ops| + 1
    && (forall i :: 0 <= i < |worlds| ==> Placed(sh, worlds[i]))
    && (forall i :: 0 <= i < |ops| ==> Follows(sh, worlds[i], worlds[i + 1], ops[i]))
  }

  ghost predicate Follows(sh: Shapes, w: World, w': World, op: Op) {
    && |w.place| == |w.depth| == |w.ctxs|
    && if Applies(|sh|, w.ctxs, w.pools, op) then Effect(sh, w, w', op) else w' == w
  }

  /** Any sequence of steps, from pools that are all empty: each context is in
      exactly one place at every moment. */
  method Run(shapes: Shapes, ops: seq<Op>) returns (m: Manager, ghost worlds: seq<World>)
    ensures m.shapes == shapes && IsTrace(shapes, ops, worlds) && worlds[|ops|] == m.W() && worlds[0].ctxs == []
  {
    m := new Manager(shapes);
    worlds := [m.W()];
    for i := 0 to |ops|
      invariant m.Valid() && m.shapes == shapes && |worlds| == i + 1 && worlds[i] == m.W() && worlds[0].ctxs == []
      invariant forall j :: 0 <= j <= i ==> Placed(shapes, worlds[j])
      invariant forall j :: 0 <= j < i ==> Follows(shapes, worlds[j], worlds[j + 1], ops[j])
    {
      ghost var w := m.W();
      var done := Perform(m, ops[i]);
      assert Follows(shapes, w, m.W(), ops[i]);
      worlds := worlds + [m.W()];
    }
  }

  /** Once no request is being served, every context is back in its pool and as
      good as new. */
  lemma AllBack(sh: Shapes, w: World, x: nat)
    requires Placed(sh, w) && x < |w.ctxs| && forall c :: 0 <= c < |w.ctxs| ==> w.place[c] != Serving
    ensures w.place[x] == InPool && w.ctxs[x].owner < |sh| && w.ctxs[x] == FreshContext(sh, w.ctxs[x].owner)
    decreases w.depth[x]
  {
    assert PlaceOk(w, x) && CtxOk(sh, w.ctxs[x]);
    if w.place[x].Held? {
      AllBack(sh, w, w.place[x].h);
    } else {
      IdleIsFresh(sh, w.ctxs[x]);
    }
  }

  // ---------------------------------------------------------------- engine and pool

  /** How many dependencies each vertex of the graph has */
  function Shape(g: Graph): seq<nat> {
    seq(|g.deps|, v requires 0 <= v < |g.deps| => |g.deps[v]|)
  }

  /** What a reset leaves is what the engine's runs start from. */
  lemma FreshIsInitial(g: Graph, starts: seq<nat>)
    requires Sized(g)
    ensures var fresh', s := FreshGraph(Shape(g)), DagEngine.Initial(g, starts);
      && fresh'.join == s.join && |fresh'.vs| == |g.verts|
      && forall v :: 0 <= v < |g.verts| ==>
           && fresh'.vs[v].waiting == s.waiting[v] && fresh'.vs[v].slots == s.slots[v]
           && fresh'.vs[v].result == s.results[v] && fresh'.vs[v].sub == None
  {
  }
}
