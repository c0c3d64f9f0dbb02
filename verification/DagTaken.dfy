/** What becomes of a graph in which a condition vertex is given the name of a
    declared vertex: it is built, but it cannot be run to its end. */
module DagTaken {
  import opened Collections
  import opened DagGraph
  import opened DagTables
  import opened DagCircle
  import opened DagHang
  import opened DagBuild
  import opened DagEngine

  // ------------------------------------------------------------------- any graph

  /** In a run in which x does not execute, nothing that x leads to executes,
      joins or gets a result. A table that lacks x has no context to execute. */
  lemma {:induction false} Stalls(g: Graph, s: State, x: nat, p: seq<nat>)
    requires Inv(g, s) && IsWalk(g, p) && p[0] == x && s.runs[x] == 0
    ensures forall i :: 0 <= i < |p| ==> s.runs[p[i]] == 0 && p[i] !in s.joined && s.results[p[i]] == Invalid
  {
    assert CountsOk(g, s, x);
    if |p| > 1 {
      var q := p[..|p| - 1];
      assert IsWalk(g, q);
      Stalls(g, s, x, q);
      var u, w := p[|p| - 2], p[|p| - 1];
      assert u == q[|q| - 1] && s.runs[u] == 0;
      assert p[|p| - 2 + 1] in g.succs[p[|p| - 2]];
      StallsNext(g, s, u, w);
    }
  }

  lemma StallsNext(g: Graph, s: State, u: nat, w: nat)
    requires Inv(g, s) && u < |g.verts| && w < |g.verts| && w in g.succs[u] && s.runs[u] == 0
    ensures s.runs[w] == 0 && w !in s.joined && s.results[w] == Invalid
  {
    var i :| 0 <= i < |g.succs[u]| && g.succs[u][i] == w;
    assert EdgeWell(g, u, i) && CountsOk(g, s, u) && CountsOk(g, s, w);
    if !s.phase[w].Waiting? {
      SlotsFinal(g, s, w, g.depIdx[u][i]);
    }
  }

  /** So an executor whose table lacks x never gets to the end: the join counter
      keeps counting every vertex that waits for x, and the closure is not called. */
  lemma HiddenNeverDone(g: Graph, starts: seq<nat>, run: seq<State>, x: nat, p: seq<nat>)
    requires WellBuilt(g) && Starts(g, starts) && IsRun(g, starts, run) && IsWalk(g, p) && p[0] == x
    requires x < |run[|run| - 1].runs| && run[|run| - 1].runs[x] == 0
    ensures var s := run[|run| - 1];
      Inv(g, s) && s.fired == 0 && forall i :: 0 <= i < |p| ==> s.runs[p[i]] == 0 && p[i] !in s.joined
  {
    var s := run[|run| - 1];
    RunBounded(g, starts, run);
    Stalls(g, s, x, p);
    SafeState(g, s);
    assert s.results[p[0]] == Invalid;
  }

  // --------------------------------------------------------------------- a graph

  function Plain(id: string, isStart: bool, expecting: string, successor: seq<string>): Spec {
    Spec(id, "p", "", expecting, true, isStart, [], [], [], [], successor, [], [], [], [], [], [])
  }

  /** Vertex b expects condition c; the other one, which b waits for as well, goes
      by the name that c's vertex is given, the graph's name with _0. */
  function Example(name: string, b: string, c: string): seq<Spec> {
    [Plain(GenId(name, 0), true, "", [b]), Plain(b, false, c, [])]
  }

  predicate Names3(name: string, b: string, c: string) {
    b != "" && c != "" && b != GenId(name, 0)
  }

  lemma ExampleNames(name: string, expr: string, b: string, c: string, was: seq<Spec>)
    requires Names3(name, b, c) && was == Example(name, b, c)
    ensures DeclName(name, expr, was, 0) == GenId(name, 0) && DeclName(name, expr, was, 1) == b
    ensures !Generates(was, 0) && Generates(was, 1) && CondName(name, expr, was, 1) == GenId(name, 0)
    ensures !FreshNames(name, expr, was)
  {
    assert Drawn(was, expr, 0) == 0;
    assert CondNumber(was, expr, 0) == 0 && Drawn(was, expr, 1) == 0 && CondNumber(was, expr, 1) == 0;
  }

  lemma ExampleGens(name: string, expr: string, b: string, c: string, was: seq<Spec>, t: Names)
    requires Names3(name, b, c) && was == Example(name, b, c) && NamedUpTo(name, expr, was, t, 2, 2)
    ensures |t.gen| == 1 && t.gen[0] == CondSpec(GenId(name, 0), expr, was[1])
  {
    assert DoneOk(was, t, 1);
    ExampleGen(name, expr, b, c, was, t, 0);
    ExampleGen(name, expr, b, c, was, t, |t.gen| - 1);
  }

  lemma ExampleGen(name: string, expr: string, b: string, c: string, was: seq<Spec>, t: Names, j: nat)
    requires Names3(name, b, c) && was == Example(name, b, c) && NamedUpTo(name, expr, was, t, 2, 2) && j < |t.gen|
    ensures c in t.conds && t.conds[c] == j && t.gen[j] == CondSpec(GenId(name, 0), expr, was[1])
  {
    ExampleNames(name, expr, b, c, was);
    var x := GenNamed(name, expr, was, t, 2, j);
    assert GenOk(name, expr, was, t, 2, j);
  }

  lemma ExampleVertices(name: string, expr: string, b: string, c: string, was: seq<Spec>, t: Names)
    requires Names3(name, b, c) && was == Example(name, b, c) && NamedUpTo(name, expr, was, t, 2, 2)
    ensures |t.vertex| == 2 && t.vertex[0] == was[0] && t.vertex[1] == was[1].(depsOnOk := t.vertex[1].depsOnOk)
    ensures forall y :: y in t.vertex[1].depsOnOk <==> y == GenId(name, 0)
  {
    ExampleNames(name, expr, b, c, was);
    ExampleGens(name, expr, b, c, was, t);
    assert DoneOk(was, t, 0) && DoneOk(was, t, 1);
    assert Identified(name, expr, was, 0, t.vertex[0]) && Identified(name, expr, was, 1, t.vertex[1]);
    assert MergeSuccessor(was[0]) == was[0] && MergeSuccessor(was[1]) == was[1];
    Empty(t.vertex[0].depsOnOk);
  }

  lemma Empty(s: seq<string>)
    ensures (forall y :: y !in s) ==> s == []
  {
    if s != [] { assert s[0] in s; }
  }

  /** Naming goes through, and the first vertex is in no table. */
  lemma ExampleTable(name: string, expr: string, b: string, c: string, was: seq<Spec>, t: Names)
    requires Names3(name, b, c) && was == Example(name, b, c) && NamedUpTo(name, expr, was, t, 2, 2)
    ensures t.nodes == map[GenId(name, 0) := 2, b := 1] && Hidden(t, 0)
  {
    ExampleGens(name, expr, b, c, was, t);
    ExampleVertices(name, expr, b, c, was, t);
    assert DoneOk(was, t, 1) && GenOk(name, expr, was, t, 2, 0);
    assert NodeOk(t, 2, b);
    forall id | id in t.nodes
      ensures id == GenId(name, 0) || id == b
    {
      assert NodeOk(t, 2, id);
    }
  }

  /** Every vertex passes, so naming does not stop at one. */
  lemma ExampleFaultless(m: Builder, b: string, c: string, i: nat)
    requires Names3(m.name, b, c) && m.was == Example(m.name, b, c) && i < 2
    ensures !m.Fault(i)
  {
    ExampleNames(m.name, m.expr, b, c, m.was);
    var t, id := m.Tables(), DeclName(m.name, m.expr, m.was, i);
    if m.Naming(i) && id in t.nodes {
      assert NodeOk(t, i, id);
      var x := t.nodes[id];
      if x >= |t.vertex| {
        var y := GenNamed(m.name, m.expr, m.was, t, i + 1, x - |t.vertex|);
      }
    }
  }

  /** The tables that naming leaves for the example */
  ghost predicate ExampleTables(name: string, expr: string, b: string, c: string, t: Names) {
    var was := Example(name, b, c);
    && Names3(name, b, c) && |t.gen| == 1 && |t.vertex| == 2
    && t.nodes == map[GenId(name, 0) := 2, b := 1]
    && t.gen[0] == CondSpec(GenId(name, 0), expr, was[1])
    && t.vertex[0] == was[0] && t.vertex[1] == was[1].(depsOnOk := t.vertex[1].depsOnOk)
    && forall y :: y in t.vertex[1].depsOnOk <==> y == GenId(name, 0)
  }

  lemma ExampleResolves(name: string, expr: string, b: string, c: string, t: Names)
    requires ExampleTables(name, expr, b, c, t)
    ensures ResolvableUpTo(t, 3)
  {
    assert Resolvable(t.nodes, t.producers, At(t, 0));
    assert Resolvable(t.nodes, t.producers, At(t, 1));
    assert Resolvable(t.nodes, t.producers, At(t, 2));
  }

  lemma ExampleDecls(name: string, expr: string, b: string, c: string, t: Names, x: nat)
    requires ExampleTables(name, expr, b, c, t) && x < 3
    ensures Resolvable(t.nodes, t.producers, At(t, x))
    ensures forall d :: d in VertexDecls(t.nodes, t.producers, At(t, x), x) <==>
      (x == 0 && d == Decl(0, 1, OnAll)) || (x == 1 && d == Decl(2, 1, OnOk))
  {
    ExampleResolves(name, expr, b, c, t);
    var n := At(t, x);
    var deps, succs := AllDeps(t.nodes, n, x), AllSuccs(t.nodes, n, x);
    assert VertexDecls(t.nodes, t.producers, n, x) == deps + succs;
    if x == 1 {
      OnlyDecl(t.nodes, n.depsOnOk, GenId(name, 0), 1);
      assert deps == DepDecls(t.nodes, n.depsOnOk, 1, OnOk) && succs == [];
    } else if x == 0 {
      assert deps == [] && succs == SuccDecls(t.nodes, [b], 0, OnAll) == [Decl(0, 1, OnAll)];
    } else {
      assert deps == [] && succs == [];
    }
  }

  lemma OnlyDecl(nodes: map<string, nat>, ids: seq<string>, id: string, v: nat)
    requires id in nodes && forall y :: y in ids <==> y == id
    ensures forall d :: d in DepDecls(nodes, ids, v, OnOk) <==> d == Decl(nodes[id], v, OnOk)
  {
    var ds := DepDecls(nodes, ids, v, OnOk);
    assert id in ids;
    var k :| 0 <= k < |ids| && ids[k] == id;
    assert ds[k] == Decl(nodes[id], v, OnOk);
    forall d | d in ds
      ensures d == Decl(nodes[id], v, OnOk)
    {
      var l :| 0 <= l < |ds| && ds[l] == d;
      assert ids[l] in ids;
    }
  }

  lemma ExampleLog(name: string, expr: string, b: string, c: string, t: Names, log: seq<Decl>)
    requires ExampleTables(name, expr, b, c, t) && ResolvableUpTo(t, 3) && LogIs(t, 3, log)
    ensures forall d :: d in log <==> d == Decl(0, 1, OnAll) || d == Decl(2, 1, OnOk)
  {
    ExampleDecls(name, expr, b, c, t, 0);
    ExampleDecls(name, expr, b, c, t, 1);
    ExampleDecls(name, expr, b, c, t, 2);
    var d0 := VertexDecls(t.nodes, t.producers, At(t, 0), 0);
    var d1 := VertexDecls(t.nodes, t.producers, At(t, 1), 1);
    var d2 := VertexDecls(t.nodes, t.producers, At(t, 2), 2);
    assert AllDecls(t, 0) == [];
    assert AllDecls(t, 1) == [] + d0;
    assert AllDecls(t, 2) == [] + d0 + d1;
    assert log == [] + d0 + d1 + d2;
  }

  /** The example has two edges, into b. */
  ghost predicate ExampleEdges(succs: seq<set<nat>>) {
    succs == [{1}, {}, {1}]
  }

  lemma ExampleLinks(e: Edges, deps: seq<seq<nat>>, log: seq<Decl>)
    requires DagTables.EdgesOk(3, e, deps, log)
    requires forall d :: d in log <==> d == Decl(0, 1, OnAll) || d == Decl(2, 1, OnOk)
    ensures ExampleEdges(e.succs) && Declared(log, 0, 1) && Declared(log, 2, 1)
  {
    assert Decl(0, 1, OnAll) in log && Decl(2, 1, OnOk) in log;
    forall u: nat, w: nat | u < 3 && w < 3
      ensures w in e.succs[u] <==> Declared(log, u, w)
    {
      assert PairOk(e, log, u, w);
    }
    assert e.succs[0] == {1} && e.succs[1] == {} && e.succs[2] == {1};
  }

  lemma ExampleStep(g: Graph, p: seq<nat>, i: nat)
    requires Sized(g) && Lists(g.succs, [{1}, {}, {1}]) && IsWalk(g, p) && i + 1 < |p|
    ensures p[i + 1] == 1 != p[i]
  {
    assert Orders(g.succs[0], {1}) && Orders(g.succs[1], {}) && Orders(g.succs[2], {1});
    assert p[i + 1] in g.succs[p[i]];
  }

  lemma ExampleWalk(g: Graph, p: seq<nat>)
    requires Sized(g) && Lists(g.succs, [{1}, {}, {1}]) && IsWalk(g, p)
    ensures |p| <= 2 && (|p| == 2 ==> p[0] != p[1])
  {
    if |p| > 1 { ExampleStep(g, p, 0); }
    if |p| > 2 { ExampleStep(g, p, 1); }
  }

  lemma ExampleAcyclic(g: Graph)
    requires Mirrored(g) && |g.verts| == 3 && Lists(g.succs, [{1}, {}, {1}])
    ensures WellBuilt(g)
  {
    forall v: nat | v < 3
      ensures !Reaches(g, v, v)
    {
      if Reaches(g, v, v) {
        var p :| IsWalk(g, p) && |p| >= 2 && p[0] == v && p[|p| - 1] == v;
        ExampleWalk(g, p);
      }
    }
  }

  lemma ExamplePassStep(v: nat, p: seq<nat>, i: nat)
    requires IsPass([{1}, {}, {1}], v, p) && i + 1 < |p|
    ensures p[i + 1] == 1 != p[i]
  {
    var sets: seq<set<nat>> := [{1}, {}, {1}];
    assert sets[0] == {1} && sets[1] == {} && sets[2] == {1};
    assert Passes(sets, v, p[i]) && p[i + 1] in sets[p[i]];
  }

  lemma ExamplePass(v: nat, p: seq<nat>)
    requires IsPass([{1}, {}, {1}], v, p)
    ensures |p| <= 2 && (|p| == 2 ==> p[0] != p[1])
  {
    if |p| > 1 { ExamplePassStep(v, p, 0); }
    if |p| > 2 { ExamplePassStep(v, p, 1); }
  }

  lemma ExampleSearchEnds(v: nat)
    ensures !Revisits([{1}, {}, {1}], v)
  {
    var sets: seq<set<nat>> := [{1}, {}, {1}];
    if Revisits(sets, v) {
      var p :| IsPass(sets, v, p) && p[0] == v && Repeats(p);
      ExamplePass(v, p);
    }
  }

  lemma ExampleAssembled(m: Builder, b: string, c: string)
    requires Names3(m.name, b, c) && m.was == Example(m.name, b, c) && m.Settled() && m.built == |m.vertex| + |m.gen|
    ensures |m.vertex| == 2 && |m.gen| == 1 && Hidden(m.Tables(), 0) && ExampleEdges(m.succs)
    ensures forall v :: 0 <= v < 3 ==> m.Verified(v)
  {
    var t := m.Tables();
    ExampleTable(m.name, m.expr, b, c, m.was, t);
    ExampleGens(m.name, m.expr, b, c, m.was, t);
    ExampleVertices(m.name, m.expr, b, c, m.was, t);
    assert ExampleTables(m.name, m.expr, b, c, t);
    ExampleLog(m.name, m.expr, b, c, t, m.log);
    ExampleLinks(m.Links(), m.deps, m.log);
    assert m.Verified(0) && m.Verified(1) && m.Verified(2);
  }

  lemma ExampleNotBad(m: Builder, b: string, c: string)
    requires Names3(m.name, b, c) && m.was == Example(m.name, b, c)
    ensures forall i :: 0 <= i < |m.was| ==> !m.Fault(i)
  {
    ExampleFaultless(m, b, c, 0);
    ExampleFaultless(m, b, c, 1);
  }

  lemma ExampleNotDangling(m: Builder, b: string, c: string)
    requires Names3(m.name, b, c) && m.was == Example(m.name, b, c) && m.Named(2)
    ensures |m.vertex| + |m.gen| == 3 && ResolvableUpTo(m.Tables(), |m.vertex| + |m.gen|)
  {
    var t := m.Tables();
    ExampleTable(m.name, m.expr, b, c, m.was, t);
    ExampleGens(m.name, m.expr, b, c, m.was, t);
    ExampleVertices(m.name, m.expr, b, c, m.was, t);
    ExampleResolves(m.name, m.expr, b, c, t);
  }

  lemma ExampleFits(m: Builder, b: string, c: string, order: seq<seq<nat>>)
    requires Names3(m.name, b, c) && m.was == Example(m.name, b, c) && m.Assembled() && Lists(order, m.succs)
    ensures m.Runnable(order) && !m.GoesRound()
  {
    ExampleAssembled(m, b, c);
    forall attrs | |attrs| == 3
      ensures WellBuilt(m.GraphFor(attrs, order))
    {
      GraphMirrored(3, attrs, m.Links(), m.deps, m.log, order);
      ExampleAcyclic(m.GraphFor(attrs, order));
    }
    forall v | v in m.nodes.Values
      ensures !Revisits(m.succs, v)
    {
      ExampleSearchEnds(v);
    }
  }

  /** Build accepts the example, and no table has its first vertex, which b waits
      for. */
  method HidesVertex(name: string, expr: string, b: string, c: string) returns (m: Builder, r: Outcome)
    requires Names3(name, b, c)
    ensures m.was == Example(name, b, c) && r == Built && |m.vertex| == 2 && |m.gen| == 1
    ensures Hidden(m.Tables(), 0) && m.succs == [{1}, {}, {1}]
  {
    m := new Builder(name, expr, Example(name, b, c));
    var order;
    r, order := m.Build(3);
    ExampleNotBad(m, b, c);
    if r == Rejected(DanglingName) || r == Rejected(NoVertex) {
      ExampleNotDangling(m, b, c);
    } else if r == Rejected(NotVerified) {
      ExampleAssembled(m, b, c);
    } else {
      ExampleFits(m, b, c, order);
      ExampleAssembled(m, b, c);
    }
  }
}
