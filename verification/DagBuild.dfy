/** Graph::Build: vertices get unique names, declared and data-derived
    dependencies become edges, and the edges are checked for circles. */
module DagBuild {
  import opened Collections
  import opened DagGraph
  import opened DagTables
  import opened DagCircle
  import opened DagHang

  /** Why Build returns an error: a name or output is taken or a field or config
      setting is missing, a name refers to nothing, a vertex stands alone, there
      is a circle, there is no vertex */
  datatype Reason = BadVertex | DanglingName | NotVerified | Circle | NoVertex

  datatype Outcome = Built | Rejected(why: Reason) | Hangs

  /** One of outs has no field, a producer already, or the name of an earlier one. */
  ghost predicate OutputsClash(producers: map<string, nat>, outs: seq<Data>) {
    exists k :: 0 <= k < |outs| && (outs[k].field == "" || DataName(outs[k]) in producers
      || exists l :: 0 <= l < k && DataName(outs[l]) == DataName(outs[k]))
  }

  class Builder {
    const name: string
    const expr: string
    const was: seq<Spec>
    var vertex: seq<Spec>
    var gen: seq<Spec>
    var nodes: map<string, nat>
    var producers: map<string, nat>
    var conds: map<string, nat>
    var nextId: nat
    var depIdx: seq<map<nat, nat>>
    var masks: seq<seq<Expected>>
    var succs: seq<set<nat>>
    /** Who each dependency position stands for, every Depend call so far, and
        how many vertices are through */
    ghost var deps: seq<seq<nat>>
    ghost var log: seq<Decl>
    ghost var built: nat

    function Tables(): Names
      reads this`vertex, this`gen, this`nodes, this`producers, this`conds
    {
      Names(vertex, gen, nodes, producers, conds)
    }

    function Links(): Edges
      reads this`depIdx, this`masks, this`succs
    {
      Edges(depIdx, masks, succs)
    }

    ghost predicate Named(i: nat)
      reads this`vertex, this`gen, this`nodes, this`producers, this`conds
    {
      NamedUpTo(name, expr, was, Tables(), i, i)
    }

    /** Vertex i is about to get its name: its condition may have its vertex. */
    ghost predicate Naming(i: nat)
      reads this`vertex, this`gen, this`nodes, this`producers, this`conds
    {
      NamedUpTo(name, expr, was, Tables(), i, i + 1)
    }

    ghost predicate Linked()
      reads this`vertex, this`gen, this`nodes, this`producers, this`conds,
            this`depIdx, this`masks, this`succs, this`deps, this`log
    {
      Named(|was|) && EdgesOk(|vertex| + |gen|, Links(), deps, log)
    }

    /** With the vertices before it named, declared vertex i has an unknown
        setting, an input without a field, a name that is taken, or outputs that
        clash. */
    ghost predicate Fault(i: nat)
      requires i < |was|
      reads this`vertex, this`gen, this`nodes, this`producers, this`conds
    {
      && Naming(i)
      && (|| !was[i].configOk || (exists d :: d in was[i].input && d.field == "")
          || DeclName(name, expr, was, i) in nodes || OutputsClash(producers, was[i].output))
    }

    constructor (name: string, expr: string, vertex: seq<Spec>)
      ensures this.name == name && this.expr == expr && this.was == vertex && Named(0) && nextId == 0
    {
      this.name, this.expr, this.was := name, expr, vertex;
      this.vertex, gen, nodes, producers, conds, nextId := vertex, [], map[], map[], map[], 0;
      depIdx, masks, succs, deps, log, built := [], [], [], [], [], 0;
    }

    // ------------------------------------------------------------------ naming

    /** The vertex's own name: given, its processor's, or generated */
    method Identify(i: nat) returns (r: Spec)
      requires i < |was| && Named(i) && nextId == Drawn(was, expr, i)
      modifies this`nextId
      ensures nextId == CondNumber(was, expr, i)
      ensures r == was[i].(id := r.id, processor := r.processor) && Identified(name, expr, was, i, r)
    {
      r := vertex[i];
      if r.processor == "" && r.cond != "" {
        r := r.(processor := expr);
      }
      if r.id == "" {
        if r.processor == "" {
          r := r.(id := GenId(name, nextId));
          nextId := nextId + 1;
        } else {
          r := r.(id := r.processor);
        }
      }
    }

    method GenerateCond(i: nat)
      requires i < |was| && Named(i) && was[i].expecting != "" && was[i].expecting !in conds
      requires nextId == CondNumber(was, expr, i)
      modifies this`gen, this`nodes, this`conds, this`nextId
      ensures Naming(i) && was[i].expecting in conds && nextId == Drawn(was, expr, i + 1)
    {
      ghost var t := Tables();
      CondUnseen(name, expr, was, t, i, i);
      var c := CondSpec(GenId(name, nextId), expr, vertex[i]);
      nodes := nodes[c.id := |vertex| + |gen|];
      conds := conds[vertex[i].expecting := |gen|];
      gen := gen + [c];
      nextId := nextId + 1;
      CondKeeps(name, expr, was, t, i, Tables());
    }

    /** The producers with the vertex's outputs added, unless one has a producer
        already or no field */
    method AddOutputs(outs: seq<Data>, i: nat) returns (ok: bool, now: map<string, nat>)
      ensures ok ==> Produces(producers, now, outs, i)
      ensures !ok ==> OutputsClash(producers, outs)
    {
      now := producers;
      var k := 0;
      while k < |outs|
        invariant 0 <= k <= |outs| && Produces(producers, now, outs[..k], i)
      {
        var d := DataName(outs[k]);
        if outs[k].field == "" || d in now {
          if d in now && d !in producers {
            var o :| o in outs[..k] && DataName(o) == d;
          }
          return false, now;
        }
        now := now[d := i];
        assert outs[..k + 1] == outs[..k] + [outs[k]];
        k := k + 1;
      }
      assert outs[..k] == outs;
      return true, now;
    }

    /** The vertex with the condition it expects added to what it waits for */
    method AddExpected(i: nat, n: Spec) returns (r: Spec)
      requires i < |was| && Named(i) && n == was[i].(id := n.id, processor := n.processor)
      requires nextId == CondNumber(was, expr, i)
      modifies this`gen, this`nodes, this`conds, this`nextId
      ensures Naming(i) && r == n.(depsOnOk := r.depsOnOk) && nextId == Drawn(was, expr, i + 1)
      ensures was[i].expecting == "" ==> r == n
      ensures was[i].expecting != "" ==>
        was[i].expecting in conds && conds[was[i].expecting] < |gen|
        && r.depsOnOk == Insert(n.depsOnOk, gen[conds[was[i].expecting]].id)
    {
      r := n;
      GensWider(name, expr, was, Tables(), i, i + 1);
      if n.expecting != "" {
        if n.expecting !in conds {
          GenerateCond(i);
        } else {
          CondSeen(name, expr, was, Tables(), i);
        }
        assert CondOk(Tables(), n.expecting);
        r := r.(depsOnOk := Insert(r.depsOnOk, gen[conds[n.expecting]].id));
      }
    }

    /** One round of the naming loop */
    method NameVertex(i: nat) returns (ok: bool)
      requires i < |was| && Named(i) && nextId == Drawn(was, expr, i)
      modifies this`vertex, this`gen, this`nodes, this`producers, this`conds, this`nextId
      ensures ok ==> Named(i + 1) && nextId == Drawn(was, expr, i + 1)
      ensures !ok ==> Fault(i)
    {
      var n := Identify(i);
      if !n.configOk {
        GensWider(name, expr, was, Tables(), i, i + 1);
        return false;
      }
      n := AddExpected(i, n);
      if n.id in nodes {
        return false;
      }
      n := MergeSuccessor(n);
      var added, now := AddOutputs(n.output, i);
      if !added || exists d :: d in n.input && d.field == "" {
        return false;
      }
      ghost var t := Tables();
      nodes := nodes[n.id := i];
      vertex := vertex[i := n];
      producers := now;
      PlaceKeeps(name, expr, was, t, i, n, Tables());
      return true;
    }

    // ------------------------------------------------------------------- edges

    method FindVertexById(id: string) returns (found: bool, u: nat)
      requires Named(|was|)
      ensures found <==> id in nodes
      ensures found ==> u == nodes[id] < |vertex| + |gen|
    {
      if id in nodes {
        assert NodeOk(Tables(), |was|, id);
        return true, nodes[id];
      }
      return false, 0;
    }

    method FindVertexByData(id: string) returns (found: bool, u: nat)
      requires Named(|was|)
      ensures found <==> id in producers
      ensures found ==> u == producers[id] < |vertex| + |gen|
    {
      if id in producers {
        assert ProducerOk(Tables(), |was|, id);
        return true, producers[id];
      }
      return false, 0;
    }

    method AddEdge(w: nat, u: nat, accepts: Expected)
      requires w < |depIdx| == |masks| && u < |succs|
      modifies this`depIdx, this`masks, this`succs
      ensures Links() == DagTables.Depend(old(Links()), w, u, accepts)
    {
      succs := succs[u := succs[u] + {w}];
      if u !in depIdx[w] {
        var row: map<nat, nat> := depIdx[w][u := |masks[w]|];
        depIdx := depIdx[w := row];
        masks := masks[w := masks[w] + [accepts]];
      }
    }

    method Depend(w: nat, u: nat, accepts: Expected)
      requires Linked() && w < |vertex| + |gen| && u < |vertex| + |gen|
      modifies this`depIdx, this`masks, this`succs, this`deps, this`log
      ensures Linked() && log == old(log) + [Decl(u, w, accepts)]
    {
      DependKeeps(|vertex| + |gen|, Links(), deps, log, w, u, accepts);
      deps := DependDeps(Links(), deps, w, u);
      log := log + [Decl(u, w, accepts)];
      AddEdge(w, u, accepts);
    }

    method BuildDeps(v: nat, ids: seq<string>, accepts: Expected) returns (ok: bool)
      requires Linked() && v < |vertex| + |gen|
      modifies this`depIdx, this`masks, this`succs, this`deps, this`log
      ensures Linked() && ok == Known(nodes, ids)
      ensures ok ==> log == old(log) + DepDecls(nodes, ids, v, accepts)
    {
      var k := 0;
      assert old(log) + [] == log;
      while k < |ids|
        invariant 0 <= k <= |ids| && Linked() && Known(nodes, ids[..k])
        invariant log == old(log) + DepDecls(nodes, ids[..k], v, accepts)
      {
        var found, u := FindVertexById(ids[k]);
        if !found {
          return false;
        }
        DeclsStep(nodes, ids, k, v, accepts);
        Assoc(old(log), DepDecls(nodes, ids[..k], v, accepts), [Decl(u, v, accepts)]);
        Depend(v, u, accepts);
        k := k + 1;
      }
      assert ids[..k] == ids;
      return true;
    }

    method BuildSuccessors(v: nat, ids: seq<string>, accepts: Expected) returns (ok: bool)
      requires Linked() && v < |vertex| + |gen|
      modifies this`depIdx, this`masks, this`succs, this`deps, this`log
      ensures Linked() && ok == Known(nodes, ids)
      ensures ok ==> log == old(log) + SuccDecls(nodes, ids, v, accepts)
    {
      var k := 0;
      assert old(log) + [] == log;
      while k < |ids|
        invariant 0 <= k <= |ids| && Linked() && Known(nodes, ids[..k])
        invariant log == old(log) + SuccDecls(nodes, ids[..k], v, accepts)
      {
        var found, w := FindVertexById(ids[k]);
        if !found {
          return false;
        }
        DeclsStep(nodes, ids, k, v, accepts);
        Assoc(old(log), SuccDecls(nodes, ids[..k], v, accepts), [Decl(v, w, accepts)]);
        Depend(w, v, accepts);
        k := k + 1;
      }
      assert ids[..k] == ids;
      return true;
    }

    method BuildSource(v: nat, d: Data, id: string) returns (ok: bool)
      requires Linked() && v < |vertex| + |gen|
      modifies this`depIdx, this`masks, this`succs, this`deps, this`log
      ensures Linked() && ok == (d.isExtern || id in producers)
      ensures ok ==> log == old(log) + SourceDecls(producers, v, d, id)
    {
      var found, u := FindVertexByData(id);
      if !found || (d.aggregate == [] && d.isInOut && u == v) {
        assert log == log + [];
        return found || d.isExtern;
      }
      Depend(v, u, NeedOf(d));
      return true;
    }

    /** One input: the single datum or each of the aggregated ones */
    method BuildInput(v: nat, d: Data) returns (ok: bool)
      requires Linked() && v < |vertex| + |gen|
      modifies this`depIdx, this`masks, this`succs, this`deps, this`log
      ensures Linked() && ok == InputKnown(producers, d)
      ensures ok ==> log == old(log) + SourcesDecls(producers, v, d, Sources(d))
    {
      var ids, k := Sources(d), 0;
      assert old(log) + [] == log;
      while k < |ids|
        invariant 0 <= k <= |ids| && Linked() && (d.isExtern || Known(producers, ids[..k]))
        invariant log == old(log) + SourcesDecls(producers, v, d, ids[..k])
      {
        SourcesStep(producers, v, d, ids, k);
        Assoc(old(log), SourcesDecls(producers, v, d, ids[..k]), SourceDecls(producers, v, d, ids[k]));
        ok := BuildSource(v, d, ids[k]);
        if !ok {
          return;
        }
        k := k + 1;
      }
      assert ids[..k] == ids;
      return true;
    }

    method BuildInputs(v: nat, input: seq<Data>) returns (ok: bool)
      requires Linked() && v < |vertex| + |gen|
      modifies this`depIdx, this`masks, this`succs, this`deps, this`log
      ensures Linked() && ok == forall d :: d in input ==> InputKnown(producers, d)
      ensures ok ==> log == old(log) + InputDecls(producers, v, input)
    {
      var k := 0;
      assert old(log) + [] == log;
      while k < |input|
        invariant 0 <= k <= |input| && Linked() && forall d :: d in input[..k] ==> InputKnown(producers, d)
        invariant log == old(log) + InputDecls(producers, v, input[..k])
      {
        var d := input[k];
        assert input[..k + 1] == input[..k] + [d] && input[..k + 1][..k] == input[..k];
        Assoc(old(log), InputDecls(producers, v, input[..k]), SourcesDecls(producers, v, d, Sources(d)));
        ok := BuildInput(v, d);
        if !ok {
          return;
        }
        k := k + 1;
      }
      assert input[..k] == input;
      return true;
    }

    method BuildAllDeps(v: nat, n: Spec) returns (ok: bool)
      requires Linked() && v < |vertex| + |gen|
      modifies this`depIdx, this`masks, this`succs, this`deps, this`log
      ensures Linked() && ok == DepsKnown(nodes, n)
      ensures ok ==> log == old(log) + AllDeps(nodes, n, v)
    {
      ok := BuildDeps(v, n.deps, OnAll);
      if !ok { return; }
      ok := BuildDeps(v, n.depsOnOk, OnOk);
      if !ok { return; }
      ok := BuildDeps(v, n.depsOnErr, OnErr);
      if !ok { return; }
      Assoc3(old(log), DepDecls(nodes, n.deps, v, OnAll),
             DepDecls(nodes, n.depsOnOk, v, OnOk), DepDecls(nodes, n.depsOnErr, v, OnErr));
    }

    method BuildAllSuccessors(v: nat, n: Spec) returns (ok: bool)
      requires Linked() && v < |vertex| + |gen|
      modifies this`depIdx, this`masks, this`succs, this`deps, this`log
      ensures Linked() && ok == SuccsKnown(nodes, n)
      ensures ok ==> log == old(log) + AllSuccs(nodes, n, v)
    {
      ok := BuildSuccessors(v, n.successor, OnAll);
      if !ok { return; }
      ok := BuildSuccessors(v, n.successorOnOk, OnOk);
      if !ok { return; }
      ok := BuildSuccessors(v, n.successorOnErr, OnErr);
      if !ok { return; }
      Assoc3(old(log), SuccDecls(nodes, n.successor, v, OnAll),
             SuccDecls(nodes, n.successorOnOk, v, OnOk), SuccDecls(nodes, n.successorOnErr, v, OnErr));
    }

    /** Vertex::Build of n as vertex v */
    method BuildVertex(v: nat, n: Spec) returns (ok: bool)
      requires Linked() && v < |vertex| + |gen|
      modifies this`depIdx, this`masks, this`succs, this`deps, this`log
      ensures Linked() && ok == Resolvable(nodes, producers, n)
      ensures ok ==> log == old(log) + VertexDecls(nodes, producers, n, v)
    {
      ok := BuildAllDeps(v, n);
      if !ok { return; }
      ok := BuildAllSuccessors(v, n);
      if !ok { return; }
      ok := BuildInputs(v, n.input);
      if !ok { return; }
      Assoc3(old(log), AllDeps(nodes, n, v), AllSuccs(nodes, n, v), InputDecls(producers, v, n.input));
    }

    /** The edges in the tables are those of the vertices that are through. */
    ghost predicate Settled()
      reads this
    {
      && Linked() && built <= |vertex| + |gen|
      && ResolvableUpTo(Tables(), built) && LogIs(Tables(), built, log)
    }

    method ClearEdges()
      requires Named(|was|)
      modifies this`depIdx, this`masks, this`succs, this`deps, this`log, this`built
      ensures Settled() && built == 0
    {
      var n := |vertex| + |gen|;
      depIdx := seq(n, _ => map[]);
      masks := seq(n, _ => []);
      succs := seq(n, _ => {});
      deps := seq(n, _ => []);
      log, built := [], 0;
      NoEdges(n, Links(), deps);
    }

    method Through(ghost x: nat)
      requires Linked() && x <= |vertex| + |gen| && ResolvableUpTo(Tables(), x) && LogIs(Tables(), x, log)
      modifies this`built
      ensures Settled() && built == x
    {
      built := x;
    }

    method BuildNext(x: nat) returns (ok: bool)
      requires Settled() && built == x < |vertex| + |gen|
      modifies this`depIdx, this`masks, this`succs, this`deps, this`log, this`built
      ensures ok ==> Settled() && built == x + 1
      ensures !ok ==> !ResolvableUpTo(Tables(), |vertex| + |gen|)
    {
      ghost var t, before := Tables(), log;
      var n := At(Tables(), x);
      ok := BuildVertex(x, n);
      if ok {
        ghost var x' := x + 1;
        LogStep(t, x, x', n, before, log);
        Through(x');
      }
    }

    /** Every vertex, declared ones first, then generated ones */
    method BuildEdges() returns (ok: bool)
      requires Named(|was|)
      modifies this`depIdx, this`masks, this`succs, this`deps, this`log, this`built
      ensures ok ==> Settled() && built == |vertex| + |gen|
      ensures !ok ==> !ResolvableUpTo(Tables(), |vertex| + |gen|)
    {
      ClearEdges();
      var x := 0;
      while x < |vertex| + |gen|
        invariant 0 <= x == built <= |vertex| + |gen| && Settled()
      {
        ok := BuildNext(x);
        if !ok {
          return;
        }
        x := x + 1;
      }
      ok := true;
    }

    /** A start vertex declares no dependency; any other vertex has a dependency
        or a successor. */
    ghost predicate Verified(v: nat)
      requires v < |vertex| + |gen|
      reads this
    {
      var n := At(Tables(), v);
      if n.isStart then n.deps == [] && n.depsOnOk == [] && n.depsOnErr == []
      else exists u :: 0 <= u < |vertex| + |gen| && (Declared(log, u, v) || Declared(log, v, u))
    }

    method VerifyVertex(v: nat) returns (ok: bool)
      requires Linked() && v < |vertex| + |gen|
      ensures ok <==> Verified(v)
    {
      var n := At(Tables(), v);
      if n.isStart {
        return n.deps == [] && n.depsOnOk == [] && n.depsOnErr == [];
      }
      ok := succs[v] != {} || |depIdx[v]| > 0;
      if succs[v] != {} {
        var u :| u in succs[v];
        assert PairOk(Links(), log, v, u);
      } else if |depIdx[v]| > 0 {
        var u :| u in depIdx[v];
        assert PairOk(Links(), log, u, v);
      } else {
        forall u: nat | u < |vertex| + |gen|
          ensures !Declared(log, u, v) && !Declared(log, v, u)
        {
          assert PairOk(Links(), log, u, v) && PairOk(Links(), log, v, u);
        }
      }
    }

    method VerifyAll() returns (ok: bool)
      requires Linked()
      ensures ok <==> forall v :: 0 <= v < |vertex| + |gen| ==> Verified(v)
    {
      for v := 0 to |vertex| + |gen|
        invariant forall x :: 0 <= x < v ==> Verified(x)
      {
        ok := VerifyVertex(v);
        if !ok {
          return;
        }
      }
      ok := true;
    }

    // ------------------------------------------------------------- whole builds

    method NameAll() returns (ok: bool)
      requires Named(0) && nextId == 0
      modifies this`vertex, this`gen, this`nodes, this`producers, this`conds, this`nextId
      ensures ok ==> Named(|was|)
      ensures !ok ==> exists i :: 0 <= i < |was| && Fault(i)
    {
      for i := 0 to |was|
        invariant Named(i) && nextId == Drawn(was, expr, i)
      {
        ok := NameVertex(i);
        if !ok {
          return;
        }
      }
      ok := true;
    }

    /** The iteration order of one set of vertices */
    method ListOne(s: set<nat>) returns (order: seq<nat>)
      ensures Orders(order, s)
    {
      var rest := s;
      order := [];
      while rest != {}
        invariant rest <= s && NoDup(order)
        invariant forall w :: w in order <==> w in s && w !in rest
      {
        var w :| w in rest;
        order, rest := order + [w], rest - {w};
      }
    }

    method ListSuccessors() returns (order: seq<seq<nat>>)
      ensures Lists(order, succs)
    {
      order := [];
      for u := 0 to |succs|
        invariant |order| == u && Lists(order, succs[..u])
      {
        var o := ListOne(succs[u]);
        order := order + [o];
      }
      assert succs[..|succs|] == succs;
    }

    /** SetupSuccessors of u: its position at each successor. It aborts at one that
        has no context because it is in no table. */
    method SetupSuccessors(order: seq<seq<nat>>, u: nat) returns (ok: bool, positions: seq<nat>)
      requires Linked() && Lists(order, succs) && u < |vertex| + |gen|
      ensures ok <==> forall w :: w in succs[u] ==> !Hidden(Tables(), w)
      ensures ok ==> positions == Positions(Links(), order[u], u)
    {
      positions := [];
      for i := 0 to |order[u]|
        invariant |positions| == i && positions == Positions(Links(), order[u], u)[..i]
        invariant forall w :: w in order[u][..i] ==> !Hidden(Tables(), w)
      {
        GraphEdge(|vertex| + |gen|, Links(), deps, log, order, u, i);
        var w := order[u][i];
        if w !in nodes.Values {
          assert w in order[u] && Hidden(Tables(), w);
          return false, positions;
        }
        positions := positions + [depIdx[w][u]];
      }
      ok := true;
    }

    ghost function GraphFor(attrs: seq<Vertex>, order: seq<seq<nat>>): Graph
      reads this
    {
      GraphOf(attrs, Links(), deps, order)
    }

    /** Every vertex is named, linked and verified. */
    ghost predicate Assembled()
      reads this
    {
      && Settled() && built == |vertex| + |gen|
      && forall v :: 0 <= v < |vertex| + |gen| ==> Verified(v)
    }

    method Assemble() returns (ok: bool, why: Reason)
      requires Named(0) && nextId == 0
      modifies this
      ensures ok ==> Assembled()
      ensures !ok && why == BadVertex ==> exists i :: 0 <= i < |was| && Fault(i)
      ensures !ok && why != BadVertex ==> Named(|was|)
      ensures !ok && why == DanglingName ==> !ResolvableUpTo(Tables(), |vertex| + |gen|)
      ensures !ok && why == NotVerified ==>
        Settled() && built == |vertex| + |gen| && exists v :: 0 <= v < |vertex| + |gen| && !Verified(v)
      ensures !ok ==> why == BadVertex || why == DanglingName || why == NotVerified
    {
      why := BadVertex;
      ok := NameAll();
      if ok {
        why := DanglingName;
        ok := BuildEdges();
        if ok {
          why := NotVerified;
          ok := VerifyAll();
        }
      }
    }

    method Build(depth: nat) returns (r: Outcome, order: seq<seq<nat>>)
      requires Named(0) && nextId == 0
      modifies this
      ensures r == Built ==>
        && Assembled() && |vertex| + |gen| > 0 && Lists(order, succs)
        && if FreshNames(name, expr, was) then Runnable(order) else exists x :: Hidden(Tables(), x)
      ensures r == Hangs || r == Rejected(Circle) ==> Assembled() && Lists(order, succs)
      ensures r == Hangs ==> depth < |vertex| + |gen| || (!Runnable(order) && GoesRound())
      ensures r == Rejected(Circle) ==> !Runnable(order)
      ensures r == Rejected(NoVertex) ==> |vertex| + |gen| == 0
      ensures r == Rejected(BadVertex) ==> exists i :: 0 <= i < |was| && Fault(i)
      ensures r.Rejected? && r.why != BadVertex ==> Named(|was|)
      ensures r == Rejected(DanglingName) ==> !ResolvableUpTo(Tables(), |vertex| + |gen|)
      ensures r == Rejected(NotVerified) ==>
        Settled() && built == |vertex| + |gen| && exists v :: 0 <= v < |vertex| + |gen| && !Verified(v)
    {
      order := [];
      var ok, why := Assemble();
      if !ok {
        return Rejected(why), order;
      }
      order := ListSuccessors();
      var a := Circles(order, depth);
      match a {
        case Yes => r := Rejected(Circle);
        case TooDeep => r := Hangs;
        case No => r := if |vertex| + |gen| == 0 then Rejected(NoVertex) else Built;
      }
      TableComplete(name, expr, was, Tables());
    }

    /** Whatever its vertices do, the graph is fit to be run. */
    ghost predicate Runnable(order: seq<seq<nat>>)
      reads this
    {
      forall attrs :: |attrs| == |vertex| + |gen| > 0 ==> WellBuilt(GraphFor(attrs, order))
    }

    /** From some vertex of the table a walk past vertices that do not lead back to
        it comes to a vertex twice. */
    ghost predicate GoesRound()
      reads this`nodes, this`succs
    {
      exists v :: v in nodes.Values && Revisits(succs, v)
    }

    method Circles(order: seq<seq<nat>>, depth: nat) returns (a: Answer)
      requires Linked() && Lists(order, succs)
      ensures a == No && FreshNames(name, expr, was) ==> Runnable(order)
      ensures a == TooDeep ==> depth < |vertex| + |gen| || (!Runnable(order) && GoesRound())
      ensures a == Yes ==> !Runnable(order)
    {
      ghost var n := |vertex| + |gen|;
      ghost var plain := seq(n, _ => Vertex(false, false, NoConfig, false, false, 0, false, false));
      ghost var g := GraphFor(plain, order);
      GraphMirrored(n, plain, Links(), deps, log, order);
      forall id | id in nodes
        ensures nodes[id] < n
      {
        assert NodeOk(Tables(), |was|, id);
      }
      var table := ListOne(nodes.Values);
      a := TestCircle(g, order, table, depth);
      if a == TooDeep && depth >= n && !GoesRound() { TestEnough(order, succs, table, depth); }
      if a == No && FreshNames(name, expr, was) {
        TableComplete(name, expr, was, Tables());
        forall attrs | |attrs| == n > 0
          ensures WellBuilt(GraphFor(attrs, order))
        {
          GraphMirrored(n, attrs, Links(), deps, log, order);
          forall v: nat | v < n
            ensures !Reaches(GraphFor(attrs, order), v, v)
          {
            assert !Hidden(Tables(), v) && v in table;
            SameWalks(GraphFor(attrs, order), g, v);
          }
        }
      }
      if a == Yes || (a == TooDeep && depth >= n) {
        assert !Acyclic(g) && n > 0;
        assert !WellBuilt(GraphFor(plain, order));
      }
    }
  }

  /** Walks depend on the successor lists alone. */
  lemma SameWalks(g: Graph, h: Graph, v: nat)
    requires Sized(g) && Sized(h) && g.succs == h.succs
    ensures Reaches(g, v, v) <==> Reaches(h, v, v)
  {
    if Reaches(g, v, v) {
      var p :| IsWalk(g, p) && |p| >= 2 && p[0] == v && p[|p| - 1] == v;
      assert IsWalk(h, p);
    }
    if Reaches(h, v, v) {
      var p :| IsWalk(h, p) && |p| >= 2 && p[0] == v && p[|p| - 1] == v;
      assert IsWalk(g, p);
    }
  }
}
