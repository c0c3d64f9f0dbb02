/** What the declarations of a graph make of its edges: who waits for whom, what
    it accepts, and so which results a run can end with. */
module DagDeclared {
  import opened DagGraph
  import opened DagTables
  import opened DagEngine
  import opened DagBuild

  /** What Build is given: the graph's name, its default condition processor and
      its vertices */
  datatype Given = Given(name: string, expr: string, was: seq<Spec>)

  // --------------------------------------------------------------- what is declared

  /** id is the name of the vertex that stands for the condition. */
  ghost predicate Stands(gv: Given, cond: string, id: string) {
    exists y :: 0 <= y < |gv.was| && Generates(gv.was, y) && gv.was[y].expecting == cond
                && id == CondName(gv.name, gv.expr, gv.was, y)
  }

  /** A declared vertex names id on its list of this number: 0 to 2 are those it
      depends on in any case, on success and on failure, 3 to 5 those that depend
      on it likewise. */
  ghost predicate OnList(gv: Given, n: Spec, list: nat, id: string) {
    match list
    case 0 => id in n.deps
    case 1 => id in n.depsOnOk || (n.expecting != "" && Stands(gv, n.expecting, id))
    case 2 => id in n.depsOnErr
    case 3 => id in n.successor
    case 4 => id in n.successorOnOk || id in n.consequent
    case 5 => id in n.successorOnErr || id in n.alternative
    case _ => false
  }

  /** The lists of the vertex generated for the condition that n expects */
  ghost predicate OnCondList(n: Spec, list: nat, id: string) {
    if n.expectDeps != [] then list == 0 && id in n.expectDeps
    else
      match list
      case 0 => id in n.deps
      case 1 => id in n.depsOnOk
      case 2 => id in n.depsOnErr
      case _ => false
  }

  /** Vertex v goes by the name of the condition that x is first to expect. */
  ghost predicate StandsFor(gv: Given, t: Names, v: nat, x: nat)
    requires v < |t.vertex| + |t.gen|
  {
    x < |gv.was| && Generates(gv.was, x) && At(t, v).id == CondName(gv.name, gv.expr, gv.was, x)
  }

  ghost predicate Says(gv: Given, t: Names, v: nat, list: nat, id: string)
    requires v < |t.vertex| + |t.gen|
  {
    if v < |gv.was| then OnList(gv, gv.was[v], list, id)
    else exists x: nat :: StandsFor(gv, t, v, x) && OnCondList(gv.was[x], list, id)
  }

  function Accepted(list: nat): Expected {
    match list
    case 1 => OnOk
    case 4 => OnOk
    case 2 => OnErr
    case 5 => OnErr
    case _ => OnAll
  }

  /** The input takes the datum id. */
  ghost predicate Takes(d: Data, id: string) {
    if d.aggregate == [] then id == (if d.id == "" then d.field else d.id) else id in d.aggregate
  }

  /** With its item of this number vertex v asks that w wait for u and accept e:
      a list names the other vertex, or from 6 on an input takes what u produces. */
  ghost predicate Asks(gv: Given, t: Names, v: nat, item: nat, u: nat, w: nat, e: Expected)
    requires v < |t.vertex| + |t.gen|
  {
    if item < 3 then
      v == w && e == Accepted(item) && exists id :: Says(gv, t, v, item, id) && id in t.nodes && t.nodes[id] == u
    else if item < 6 then
      v == u && e == Accepted(item) && exists id :: Says(gv, t, v, item, id) && id in t.nodes && t.nodes[id] == w
    else
      && v == w < |gv.was| && item - 6 < |gv.was[v].input|
      && var d := gv.was[v].input[item - 6];
         && e == (if d.required then OnOk else OnAll) && !(u == w && d.isInOut && d.aggregate == [])
         && exists id :: Takes(d, id) && id in t.producers && t.producers[id] == u
  }

  // ------------------------------------------------------------------ item by item

  ghost function ListOf(n: Spec, list: nat): seq<string> {
    match list
    case 0 => n.deps
    case 1 => n.depsOnOk
    case 2 => n.depsOnErr
    case 3 => n.successor
    case 4 => n.successorOnOk
    case 5 => n.successorOnErr
    case _ => []
  }

  ghost predicate AllNamed(gv: Given, t: Names) {
    NamedUpTo(gv.name, gv.expr, gv.was, t, |gv.was|, |gv.was|)
  }

  /** The vertex a condition stands for is the one generated for it. */
  lemma StandsIs(gv: Given, t: Names, cond: string, id: string)
    requires AllNamed(gv, t) && cond in t.conds
    ensures t.conds[cond] < |t.gen| && (Stands(gv, cond, id) <==> id == t.gen[t.conds[cond]].id)
  {
    assert CondOk(t, cond);
    var x := GenNamed(gv.name, gv.expr, gv.was, t, |gv.was|, t.conds[cond]);
    assert forall y :: 0 <= y < |gv.was| && Generates(gv.was, y) && gv.was[y].expecting == cond ==> y == x;
  }

  lemma ResolvedLists(gv: Given, was: Spec, now: Spec, c: string, list: nat, id: string)
    requires Resolved(was, now, c) && (was.expecting != "" ==> (Stands(gv, was.expecting, id) <==> id == c))
    ensures OnList(gv, was, list, id) <==> id in ListOf(now, list)
  {
  }

  lemma DeclaredSays(gv: Given, t: Names, v: nat, list: nat, id: string)
    requires AllNamed(gv, t) && v < |gv.was|
    ensures OnList(gv, gv.was[v], list, id) <==> id in ListOf(t.vertex[v], list)
  {
    var was := gv.was[v];
    assert DoneOk(gv.was, t, v);
    if was.expecting != "" {
      StandsIs(gv, t, was.expecting, id);
    }
    ResolvedLists(gv, was, t.vertex[v], if was.expecting != "" then t.gen[t.conds[was.expecting]].id else "", list, id);
  }

  lemma CondLists(cid: string, processor: string, n: Spec, list: nat, id: string)
    ensures OnCondList(n, list, id) <==> id in ListOf(CondSpec(cid, processor, n), list)
  {
  }

  lemma OneCond(gv: Given, x: nat, y: nat)
    requires x < |gv.was| && y < |gv.was| && Generates(gv.was, x) && Generates(gv.was, y)
    requires CondName(gv.name, gv.expr, gv.was, x) == CondName(gv.name, gv.expr, gv.was, y)
    ensures x == y
  {
    if x < y { CondNamesDiffer(gv.name, gv.expr, gv.was, x, y); }
    if y < x { CondNamesDiffer(gv.name, gv.expr, gv.was, y, x); }
  }

  lemma CondSays(gv: Given, t: Names, v: nat, j: nat, n: Spec, list: nat, id: string)
    requires GensOk(gv.name, gv.expr, gv.was, t, |gv.was|) && |gv.was| == |t.vertex|
    requires v == |t.vertex| + j && j < |t.gen| && n == t.gen[j]
    ensures Says(gv, t, v, list, id) <==> id in ListOf(n, list)
  {
    var x, c := CondOf(gv, t, v, j, n);
    CondLists(c, gv.expr, gv.was[x], list, id);
    if Says(gv, t, v, list, id) {
      var y: nat :| StandsFor(gv, t, v, y) && OnCondList(gv.was[y], list, id);
      OneCond(gv, x, y);
    }
  }

  lemma CondOf(gv: Given, t: Names, v: nat, j: nat, n: Spec) returns (x: nat, c: string)
    requires GensOk(gv.name, gv.expr, gv.was, t, |gv.was|) && v == |t.vertex| + j && j < |t.gen| && n == t.gen[j]
    ensures StandsFor(gv, t, v, x) && n == CondSpec(c, gv.expr, gv.was[x])
  {
    x := GenNamed(gv.name, gv.expr, gv.was, t, |gv.was|, j);
    c := CondName(gv.name, gv.expr, gv.was, x);
  }

  /** The table has of vertex v the lists and inputs that were declared. */
  ghost predicate Faithful(gv: Given, t: Names, v: nat)
    requires v < |t.vertex| + |t.gen|
  {
    && (forall list: nat, id :: Says(gv, t, v, list, id) <==> id in ListOf(At(t, v), list))
    && At(t, v).input == if v < |gv.was| then gv.was[v].input else []
  }

  ghost predicate AllFaithful(gv: Given, t: Names) {
    forall v: nat :: v < |t.vertex| + |t.gen| ==> Faithful(gv, t, v)
  }

  lemma DeclaredFaithful(gv: Given, t: Names, v: nat)
    requires AllNamed(gv, t) && v < |gv.was|
    ensures Faithful(gv, t, v)
  {
    assert DoneOk(gv.was, t, v);
    forall list: nat, id
      ensures Says(gv, t, v, list, id) <==> id in ListOf(At(t, v), list)
    {
      DeclaredSays(gv, t, v, list, id);
    }
  }

  lemma CondFaithful(gv: Given, t: Names, v: nat, j: nat, n: Spec)
    requires GensOk(gv.name, gv.expr, gv.was, t, |gv.was|) && |gv.was| == |t.vertex|
    requires v == |t.vertex| + j && j < |t.gen| && n == t.gen[j]
    ensures Faithful(gv, t, v)
  {
    var x, c := CondOf(gv, t, v, j, n);
    forall list: nat, id
      ensures Says(gv, t, v, list, id) <==> id in ListOf(At(t, v), list)
    {
      CondSays(gv, t, v, j, n, list, id);
    }
  }

  lemma NamedFaithful(gv: Given, t: Names)
    requires AllNamed(gv, t)
    ensures AllFaithful(gv, t)
  {
    forall v: nat | v < |t.vertex| + |t.gen|
      ensures Faithful(gv, t, v)
    {
      if v < |gv.was| {
        DeclaredFaithful(gv, t, v);
      } else {
        CondFaithful(gv, t, v, v - |t.vertex|, At(t, v));
      }
    }
  }

  lemma InDeps(nodes: map<string, nat>, ids: seq<string>, v: nat, accepts: Expected, d: Decl)
    requires Known(nodes, ids)
    ensures d in DepDecls(nodes, ids, v, accepts) <==>
      d.vertex == v && d.accepts == accepts && exists id :: id in ids && nodes[id] == d.dep
  {
    var ds := DepDecls(nodes, ids, v, accepts);
    if d.vertex == v && d.accepts == accepts && exists id :: id in ids && nodes[id] == d.dep {
      var k: nat :| k < |ids| && nodes[ids[k]] == d.dep;
      assert ds[k] == d;
    }
  }

  lemma InSuccs(nodes: map<string, nat>, ids: seq<string>, v: nat, accepts: Expected, d: Decl)
    requires Known(nodes, ids)
    ensures d in SuccDecls(nodes, ids, v, accepts) <==>
      d.dep == v && d.accepts == accepts && exists id :: id in ids && nodes[id] == d.vertex
  {
    var ds := SuccDecls(nodes, ids, v, accepts);
    if d.dep == v && d.accepts == accepts && exists id :: id in ids && nodes[id] == d.vertex {
      var k: nat :| k < |ids| && nodes[ids[k]] == d.vertex;
      assert ds[k] == d;
    }
  }

  lemma {:induction false} InSources(producers: map<string, nat>, v: nat, d: Data, ids: seq<string>, c: Decl)
    ensures c in SourcesDecls(producers, v, d, ids) <==> exists id :: id in ids && c in SourceDecls(producers, v, d, id)
    decreases |ids|
  {
    if ids != [] {
      var rest, last := ids[..|ids| - 1], ids[|ids| - 1];
      InSources(producers, v, d, rest, c);
      assert forall id :: id in ids <==> id in rest || id == last;
    }
  }

  /** The Depend calls that one item gives rise to */
  ghost function Part(t: Names, v: nat, item: nat): seq<Decl>
    requires v < |t.vertex| + |t.gen| && Resolvable(t.nodes, t.producers, At(t, v))
    requires item < 6 + |At(t, v).input|
  {
    var n := At(t, v);
    if item < 3 then DepDecls(t.nodes, ListOf(n, item), v, Accepted(item))
    else if item < 6 then SuccDecls(t.nodes, ListOf(n, item), v, Accepted(item))
    else SourcesDecls(t.producers, v, n.input[item - 6], Sources(n.input[item - 6]))
  }

  lemma InListPart(gv: Given, t: Names, v: nat, item: nat, d: Decl)
    requires v < |t.vertex| + |t.gen| && Faithful(gv, t, v) && Resolvable(t.nodes, t.producers, At(t, v)) && item < 6
    ensures d in Part(t, v, item) <==> Asks(gv, t, v, item, d.dep, d.vertex, d.accepts)
  {
    var ids := ListOf(At(t, v), item);
    if item < 3 {
      InDeps(t.nodes, ids, v, Accepted(item), d);
    } else {
      InSuccs(t.nodes, ids, v, Accepted(item), d);
    }
    assert forall id :: Says(gv, t, v, item, id) <==> id in ids;
  }

  lemma InPart(gv: Given, t: Names, v: nat, item: nat, d: Decl)
    requires v < |t.vertex| + |t.gen| && Faithful(gv, t, v) && Resolvable(t.nodes, t.producers, At(t, v))
    requires item < 6 + |At(t, v).input|
    ensures d in Part(t, v, item) <==> Asks(gv, t, v, item, d.dep, d.vertex, d.accepts)
  {
    if item < 6 {
      InListPart(gv, t, v, item, d);
    } else {
      var src := At(t, v).input[item - 6];
      InSources(t.producers, v, src, Sources(src), d);
      assert forall id :: Takes(src, id) <==> id in Sources(src);
    }
  }

  // ------------------------------------------------------------------ the first item

  ghost function Flat(parts: seq<seq<Decl>>): seq<Decl> {
    if parts == [] then [] else Flat(parts[..|parts| - 1]) + parts[|parts| - 1]
  }

  lemma {:induction false} FlatAppend(a: seq<seq<Decl>>, b: seq<seq<Decl>>)
    ensures Flat(a + b) == Flat(a) + Flat(b)
    decreases |b|
  {
    if b == [] {
      assert a + b == a;
    } else {
      var rest := b[..|b| - 1];
      assert (a + b)[..|a + b| - 1] == a + rest;
      FlatAppend(a, rest);
    }
  }

  lemma FlatThree(a: seq<Decl>, b: seq<Decl>, c: seq<Decl>)
    ensures Flat([a, b, c]) == a + (b + c)
  {
    assert [a, b, c][..2] == [a, b] && [a, b][..1] == [a] && [a][..0] == [];
    assert Flat([a]) == a;
    Assoc(a, b, c);
  }

  lemma InLog(log: seq<Decl>, u: nat, w: nat)
    ensures Declared(log, u, w) ==> Decl(u, w, FirstMask(log, u, w)) in log
    decreases |log|
  {
    if log != [] {
      var rest, last := log[..|log| - 1], log[|log| - 1];
      InLog(rest, u, w);
      LogGrows(rest, last, u, w);
      assert rest + [last] == log;
    }
  }

  lemma {:induction false} FirstOfTwo(a: seq<Decl>, b: seq<Decl>, u: nat, w: nat)
    ensures Declared(a + b, u, w) <==> Declared(a, u, w) || Declared(b, u, w)
    ensures Declared(a, u, w) ==> FirstMask(a + b, u, w) == FirstMask(a, u, w)
    ensures !Declared(a, u, w) && Declared(b, u, w) ==> FirstMask(a + b, u, w) == FirstMask(b, u, w)
    decreases |b|
  {
    if b == [] {
      assert a + b == a;
    } else {
      var rest, last := b[..|b| - 1], b[|b| - 1];
      assert rest + [last] == b && a + b == a + rest + [last];
      FirstOfTwo(a, rest, u, w);
      LogGrows(rest, last, u, w);
      LogGrows(a + rest, last, u, w);
    }
  }

  /** The mask of a pair is what the first part that declares it says. */
  lemma {:induction false} FirstPart(parts: seq<seq<Decl>>, u: nat, w: nat) returns (i: nat)
    ensures !Declared(Flat(parts), u, w) ==> forall j :: 0 <= j < |parts| ==> !Declared(parts[j], u, w)
    ensures Declared(Flat(parts), u, w) ==>
      && i < |parts| && Declared(parts[i], u, w) && FirstMask(Flat(parts), u, w) == FirstMask(parts[i], u, w)
      && forall j :: 0 <= j < i ==> !Declared(parts[j], u, w)
    decreases |parts|
  {
    i := 0;
    if parts != [] {
      var rest, last := parts[..|parts| - 1], parts[|parts| - 1];
      i := FirstPart(rest, u, w);
      FirstOfTwo(Flat(rest), last, u, w);
      assert forall j :: 0 <= j < |rest| ==> rest[j] == parts[j];
      if !Declared(Flat(rest), u, w) {
        i := |parts| - 1;
      }
    }
  }

  ghost function InputParts(producers: map<string, nat>, v: nat, input: seq<Data>): seq<seq<Decl>> {
    seq(|input|, k requires 0 <= k < |input| => SourcesDecls(producers, v, input[k], Sources(input[k])))
  }

  lemma {:induction false} InputsFlat(producers: map<string, nat>, v: nat, input: seq<Data>)
    ensures InputDecls(producers, v, input) == Flat(InputParts(producers, v, input))
    decreases |input|
  {
    if input != [] {
      var rest, last := input[..|input| - 1], input[|input| - 1];
      InputsFlat(producers, v, rest);
      var parts, own := InputParts(producers, v, rest), SourcesDecls(producers, v, last, Sources(last));
      assert InputParts(producers, v, input) == parts + [own];
      FlatMore(parts, own);
    }
  }

  lemma FlatMore(parts: seq<seq<Decl>>, own: seq<Decl>)
    ensures Flat(parts + [own]) == Flat(parts) + own
  {
    assert (parts + [own])[..|parts|] == parts;
  }

  ghost function Parts(t: Names, v: nat): seq<seq<Decl>>
    requires v < |t.vertex| + |t.gen| && Resolvable(t.nodes, t.producers, At(t, v))
  {
    seq(6 + |At(t, v).input|, i requires 0 <= i < 6 + |At(t, v).input| => Part(t, v, i))
  }

  lemma PartsFlat(t: Names, v: nat)
    requires v < |t.vertex| + |t.gen| && Resolvable(t.nodes, t.producers, At(t, v))
    ensures VertexDecls(t.nodes, t.producers, At(t, v), v) == Flat(Parts(t, v))
  {
    var n := At(t, v);
    var deps := [Part(t, v, 0), Part(t, v, 1), Part(t, v, 2)];
    var succs := [Part(t, v, 3), Part(t, v, 4), Part(t, v, 5)];
    var inputs := InputParts(t.producers, v, n.input);
    FlatThree(Part(t, v, 0), Part(t, v, 1), Part(t, v, 2));
    FlatThree(Part(t, v, 3), Part(t, v, 4), Part(t, v, 5));
    InputsFlat(t.producers, v, n.input);
    FlatAppend(succs, inputs);
    FlatAppend(deps, succs + inputs);
    PartsAre(t, v, deps, succs, inputs);
  }

  lemma PartsAre(t: Names, v: nat, deps: seq<seq<Decl>>, succs: seq<seq<Decl>>, inputs: seq<seq<Decl>>)
    requires v < |t.vertex| + |t.gen| && Resolvable(t.nodes, t.producers, At(t, v))
    requires deps == [Part(t, v, 0), Part(t, v, 1), Part(t, v, 2)]
    requires succs == [Part(t, v, 3), Part(t, v, 4), Part(t, v, 5)]
    requires inputs == InputParts(t.producers, v, At(t, v).input)
    ensures Parts(t, v) == deps + (succs + inputs)
  {
    var parts, all := Parts(t, v), deps + (succs + inputs);
    forall i: nat | i < |parts|
      ensures parts[i] == all[i]
    {
      if i >= 6 { assert all[i] == inputs[i - 6]; }
    }
  }

  /** Item (v, i) goes before item (x, j). */
  ghost predicate Before(v: nat, i: nat, x: nat, j: nat) {
    v < x || (v == x && i < j)
  }

  /** Of all that ask for the pair, item i of vertex v is the first, and e is what
      it accepts. */
  ghost predicate FirstAsk(gv: Given, t: Names, u: nat, w: nat, e: Expected, v: nat, i: nat) {
    && v < |t.vertex| + |t.gen| && Asks(gv, t, v, i, u, w, e)
    && forall x: nat, j: nat, f :: x < |t.vertex| + |t.gen| && Before(x, j, v, i) ==> !Asks(gv, t, x, j, u, w, f)
  }

  ghost predicate NoneAsks(gv: Given, t: Names, v: nat, u: nat, w: nat)
    requires v < |t.vertex| + |t.gen|
  {
    forall i: nat, f :: !Asks(gv, t, v, i, u, w, f)
  }

  lemma NotInPart(gv: Given, t: Names, v: nat, i: nat, u: nat, w: nat, f: Expected)
    requires v < |t.vertex| + |t.gen| && Faithful(gv, t, v) && Resolvable(t.nodes, t.producers, At(t, v))
    requires i < 6 + |At(t, v).input| ==> !Declared(Part(t, v, i), u, w)
    ensures !Asks(gv, t, v, i, u, w, f)
  {
    if i < 6 + |At(t, v).input| {
      InPart(gv, t, v, i, Decl(u, w, f));
    }
  }

  lemma FirstPartOf(t: Names, v: nat, u: nat, w: nat, log: seq<Decl>) returns (i: nat)
    requires v < |t.vertex| + |t.gen| && Resolvable(t.nodes, t.producers, At(t, v))
    requires log == VertexDecls(t.nodes, t.producers, At(t, v), v)
    ensures var top := 6 + |At(t, v).input|;
      && (Declared(log, u, w) ==>
            i < top && Declared(Part(t, v, i), u, w) && FirstMask(log, u, w) == FirstMask(Part(t, v, i), u, w))
      && forall j: nat :: j < top && (Declared(log, u, w) ==> j < i) ==> !Declared(Part(t, v, j), u, w)
  {
    var parts := Parts(t, v);
    PartsFlat(t, v);
    i := FirstPart(parts, u, w);
    forall j: nat | j < 6 + |At(t, v).input| && (Declared(log, u, w) ==> j < i)
      ensures !Declared(Part(t, v, j), u, w)
    {
      assert parts[j] == Part(t, v, j);
    }
  }

  /** What vertex v declares of the pair is decided by the first of its items that
      asks for it. */
  lemma FirstItem(gv: Given, t: Names, v: nat, u: nat, w: nat, log: seq<Decl>) returns (i: nat)
    requires v < |t.vertex| + |t.gen| && Faithful(gv, t, v) && Resolvable(t.nodes, t.producers, At(t, v))
    requires log == VertexDecls(t.nodes, t.producers, At(t, v), v)
    ensures !Declared(log, u, w) ==> NoneAsks(gv, t, v, u, w)
    ensures Declared(log, u, w) ==> Asks(gv, t, v, i, u, w, FirstMask(log, u, w))
    ensures Declared(log, u, w) ==> forall j: nat, f :: j < i ==> !Asks(gv, t, v, j, u, w, f)
  {
    i := FirstPartOf(t, v, u, w, log);
    if Declared(log, u, w) {
      InLog(Part(t, v, i), u, w);
      InPart(gv, t, v, i, Decl(u, w, FirstMask(log, u, w)));
    }
    forall j: nat, f | Declared(log, u, w) ==> j < i
      ensures !Asks(gv, t, v, j, u, w, f)
    {
      NotInPart(gv, t, v, j, u, w, f);
    }
  }

  ghost predicate NoneBelow(gv: Given, t: Names, x: nat, u: nat, w: nat)
    requires x <= |t.vertex| + |t.gen|
  {
    forall y: nat :: y < x ==> NoneAsks(gv, t, y, u, w)
  }

  /** The first item of the first x vertices that asks for the pair is item i of
      v, and log has its mask; or there is none. */
  ghost predicate Decided(gv: Given, t: Names, x: nat, u: nat, w: nat, log: seq<Decl>, v: nat, i: nat)
    requires x <= |t.vertex| + |t.gen|
  {
    if Declared(log, u, w) then FirstAsk(gv, t, u, w, FirstMask(log, u, w), v, i) else NoneBelow(gv, t, x, u, w)
  }

  lemma LastDecls(t: Names, y: nat, x: nat)
    requires x == y + 1 <= |t.vertex| + |t.gen| && ResolvableUpTo(t, x)
    ensures ResolvableUpTo(t, y) && Resolvable(t.nodes, t.producers, At(t, y))
    ensures AllDecls(t, x) == AllDecls(t, y) + VertexDecls(t.nodes, t.producers, At(t, y), y)
  {
  }

  lemma {:induction false} FirstOfAll(gv: Given, t: Names, x: nat, u: nat, w: nat, log: seq<Decl>)
    returns (v: nat, i: nat)
    requires AllFaithful(gv, t) && x <= |t.vertex| + |t.gen| && ResolvableUpTo(t, x) && log == AllDecls(t, x)
    ensures Decided(gv, t, x, u, w, log, v, i)
    decreases x
  {
    v, i := 0, 0;
    if x > 0 {
      var y := x - 1;
      LastDecls(t, y, x);
      var rest := AllDecls(t, y);
      v, i := FirstOfAll(gv, t, y, u, w, rest);
      v, i := FirstStep(gv, t, y, x, u, w, rest, log, v, i);
    }
  }

  lemma FirstStep(
    gv: Given, t: Names, y: nat, x: nat, u: nat, w: nat, rest: seq<Decl>, log: seq<Decl>, v0: nat, i0: nat)
    returns (v: nat, i: nat)
    requires x == y + 1 <= |t.vertex| + |t.gen| && Faithful(gv, t, y) && Resolvable(t.nodes, t.producers, At(t, y))
    requires log == rest + VertexDecls(t.nodes, t.producers, At(t, y), y)
    requires Decided(gv, t, y, u, w, rest, v0, i0)
    ensures Decided(gv, t, x, u, w, log, v, i)
  {
    v, i := v0, i0;
    var own := VertexDecls(t.nodes, t.producers, At(t, y), y);
    FirstOfTwo(rest, own, u, w);
    if !Declared(rest, u, w) {
      v := y;
      i := FirstNew(gv, t, y, x, u, w, own);
    }
  }

  lemma FirstNew(gv: Given, t: Names, y: nat, x: nat, u: nat, w: nat, own: seq<Decl>) returns (i: nat)
    requires x == y + 1 <= |t.vertex| + |t.gen| && Faithful(gv, t, y) && Resolvable(t.nodes, t.producers, At(t, y))
    requires own == VertexDecls(t.nodes, t.producers, At(t, y), y) && NoneBelow(gv, t, y, u, w)
    ensures Decided(gv, t, x, u, w, own, y, i)
  {
    i := FirstItem(gv, t, y, u, w, own);
    if Declared(own, u, w) {
      FirstHere(gv, t, y, u, w, FirstMask(own, u, w), i);
    } else {
      NoneMore(gv, t, y, x, u, w);
    }
  }

  lemma NoneMore(gv: Given, t: Names, y: nat, x: nat, u: nat, w: nat)
    requires x == y + 1 <= |t.vertex| + |t.gen| && NoneBelow(gv, t, y, u, w) && NoneAsks(gv, t, y, u, w)
    ensures NoneBelow(gv, t, x, u, w)
  {
    forall z: nat | z < x
      ensures NoneAsks(gv, t, z, u, w)
    {
      if z < y { assert NoneAsks(gv, t, z, u, w); }
    }
  }

  lemma FirstHere(gv: Given, t: Names, v: nat, u: nat, w: nat, e: Expected, i: nat)
    requires v < |t.vertex| + |t.gen| && Asks(gv, t, v, i, u, w, e)
    requires NoneBelow(gv, t, v, u, w)
    requires forall j: nat, f :: j < i ==> !Asks(gv, t, v, j, u, w, f)
    ensures FirstAsk(gv, t, u, w, e, v, i)
  {
    forall x: nat, j: nat, f | x < |t.vertex| + |t.gen| && Before(x, j, v, i)
      ensures !Asks(gv, t, x, j, u, w, f)
    {
      assert x < v ==> NoneAsks(gv, t, x, u, w);
    }
  }

  // ------------------------------------------------------------------ the graph

  ghost predicate Asked(gv: Given, t: Names, u: nat, w: nat, e: Expected) {
    exists v: nat, i: nat :: v < |t.vertex| + |t.gen| && Asks(gv, t, v, i, u, w, e)
  }

  lemma AskedDecides(gv: Given, t: Names, n: nat, u: nat, w: nat, log: seq<Decl>, v: nat, i: nat)
    requires n == |t.vertex| + |t.gen| && Decided(gv, t, n, u, w, log, v, i)
    ensures Declared(log, u, w) <==> exists f :: Asked(gv, t, u, w, f)
  {
    if Declared(log, u, w) {
      assert Asked(gv, t, u, w, FirstMask(log, u, w));
    } else if f: Expected :| Asked(gv, t, u, w, f) {
      var x: nat, j: nat :| x < n && Asks(gv, t, x, j, u, w, f);
      assert NoneAsks(gv, t, x, u, w);
    }
  }

  lemma PairMask(n: nat, e: Edges, deps: seq<seq<nat>>, log: seq<Decl>, u: nat, w: nat)
    requires DagTables.EdgesOk(n, e, deps, log) && u < n && w < n
    ensures |e.masks[w]| == |deps[w]| && (u in deps[w] <==> Declared(log, u, w))
    ensures forall k :: 0 <= k < |deps[w]| && deps[w][k] == u ==> e.masks[w][k] == FirstMask(log, u, w)
  {
    assert PairOk(e, log, u, w) && RowOk(e, deps, w);
    if Declared(log, u, w) {
      assert deps[w][e.depIdx[w][u]] == u;
    }
  }

  /** The tables have a pair just if some declaration asks for it, with the mask of
      the first that does. */
  lemma PairDeclared(gv: Given, t: Names, n: nat, e: Edges, deps: seq<seq<nat>>, log: seq<Decl>, u: nat, w: nat)
    returns (v: nat, i: nat, mask: Expected)
    requires AllNamed(gv, t) && n == |t.vertex| + |t.gen| && ResolvableUpTo(t, n) && LogIs(t, n, log)
    requires DagTables.EdgesOk(n, e, deps, log) && u < n && w < n
    ensures u in deps[w] <==> exists f :: Asked(gv, t, u, w, f)
    ensures u in deps[w] ==> FirstAsk(gv, t, u, w, mask, v, i)
    ensures |e.masks[w]| == |deps[w]| && forall k :: 0 <= k < |deps[w]| && deps[w][k] == u ==> e.masks[w][k] == mask
  {
    NamedFaithful(gv, t);
    v, i := FirstOfAll(gv, t, n, u, w, log);
    AskedDecides(gv, t, n, u, w, log, v, i);
    PairMask(n, e, deps, log, u, w);
    mask := FirstMask(log, u, w);
  }

  ghost function GivenTo(b: Builder): Given {
    Given(b.name, b.expr, b.was)
  }

  /** In a graph that was built, w waits for u just if some declaration asks for
      it, and accepts of u what the first such declaration says. */
  lemma EdgesAsDeclared(b: Builder, order: seq<seq<nat>>, attrs: seq<Vertex>, g: Graph, u: nat, w: nat)
    returns (v: nat, i: nat, mask: Expected)
    requires b.Assembled() && g == b.GraphFor(attrs, order) && u < |b.vertex| + |b.gen| && w < |b.vertex| + |b.gen|
    ensures w < |g.deps| == |g.masks| && |g.masks[w]| == |g.deps[w]|
    ensures u in g.deps[w] <==> exists f :: Asked(GivenTo(b), b.Tables(), u, w, f)
    ensures u in g.deps[w] ==> FirstAsk(GivenTo(b), b.Tables(), u, w, mask, v, i)
    ensures forall k :: 0 <= k < |g.deps[w]| && g.deps[w][k] == u ==> g.masks[w][k] == mask
  {
    v, i, mask := PairDeclared(GivenTo(b), b.Tables(), b.built, b.Links(), b.deps, b.log, u, w);
  }

  /** All that ask for the pair accept e, and something does. */
  ghost predicate OnlyAsks(gv: Given, t: Names, u: nat, w: nat, e: Expected) {
    Asked(gv, t, u, w, e) && forall f :: Asked(gv, t, u, w, f) ==> f == e
  }

  /** w depends on u and accepts e of it. */
  ghost predicate WaitsFor(g: Graph, w: nat, u: nat, e: Expected) {
    && w < |g.deps| == |g.masks| && |g.masks[w]| == |g.deps[w]|
    && exists k :: 0 <= k < |g.deps[w]| && g.deps[w][k] == u && g.masks[w][k] == e
  }

  lemma OneMask(b: Builder, order: seq<seq<nat>>, attrs: seq<Vertex>, g: Graph, u: nat, w: nat, e: Expected)
    requires b.Assembled() && g == b.GraphFor(attrs, order) && u < |b.vertex| + |b.gen| && w < |b.vertex| + |b.gen|
    requires OnlyAsks(GivenTo(b), b.Tables(), u, w, e)
    ensures WaitsFor(g, w, u, e)
  {
    var v, i, mask := EdgesAsDeclared(b, order, attrs, g, u, w);
    assert Asked(GivenTo(b), b.Tables(), u, w, mask);
    var k :| 0 <= k < |g.deps[w]| && g.deps[w][k] == u;
  }

  /** A name on a list asks for the pair of the vertex and the one so named. */
  lemma ListAsks(gv: Given, t: Names, v: nat, list: nat, id: string, u: nat, w: nat)
    requires v < |t.vertex| + |t.gen| && list < 6 && Says(gv, t, v, list, id) && id in t.nodes
    requires if list < 3 then w == v && u == t.nodes[id] else u == v && w == t.nodes[id]
    ensures Asked(gv, t, u, w, Accepted(list))
  {
    assert Asks(gv, t, v, list, u, w, Accepted(list));
  }

  lemma InputAsks(gv: Given, t: Names, v: nat, i: nat, id: string, u: nat, e: Expected)
    requires v < |gv.was| <= |t.vertex| + |t.gen| && i < |gv.was[v].input| && Takes(gv.was[v].input[i], id)
    requires e == if gv.was[v].input[i].required then OnOk else OnAll
    requires id in t.producers && t.producers[id] == u != v
    ensures Asked(gv, t, u, v, e)
  {
    assert Asks(gv, t, v, 6 + i, u, v, e);
  }

  /** A name on one of the six lists of a declared vertex, where nothing else asks
      otherwise for the pair: the vertex that depends on the other accepts what the
      list stands for. */
  lemma ListMeans(
    b: Builder, order: seq<seq<nat>>, attrs: seq<Vertex>, g: Graph, v: nat, id: string, x: nat, e: Expected,
    succeeds: bool)
    requires b.Assembled() && g == b.GraphFor(attrs, order) && v < |b.was| && id in b.nodes && x == b.nodes[id]
    requires var n := b.was[v];
      if succeeds then
        match e
        case OnAll => id in n.successor
        case OnOk => id in n.successorOnOk || id in n.consequent
        case OnErr => id in n.successorOnErr || id in n.alternative
      else
        match e
        case OnAll => id in n.deps
        case OnOk => id in n.depsOnOk
        case OnErr => id in n.depsOnErr
    requires var u, w := if succeeds then v else x, if succeeds then x else v;
      forall f :: Asked(GivenTo(b), b.Tables(), u, w, f) ==> f == e
    ensures x < |b.vertex| + |b.gen| && At(b.Tables(), x).id == id
    ensures if succeeds then WaitsFor(g, x, v, e) else WaitsFor(g, v, x, e)
  {
    var gv, t := GivenTo(b), b.Tables();
    assert NodeOk(t, |b.was|, id);
    var list := (match e case OnAll => 0 case OnOk => 1 case OnErr => 2) + if succeeds then 3 else 0;
    var u, w := if succeeds then v else x, if succeeds then x else v;
    ListAsks(gv, t, v, list, id, u, w);
    OneMask(b, order, attrs, g, u, w, e);
  }

  /** A datum that a declared vertex takes from another makes it wait for that
      one, and require its success if the input is required. */
  lemma InputMeans(
    b: Builder, order: seq<seq<nat>>, attrs: seq<Vertex>, g: Graph, v: nat, i: nat, id: string, x: nat, e: Expected)
    requires b.Assembled() && g == b.GraphFor(attrs, order) && v < |b.was| && i < |b.was[v].input|
    requires Takes(b.was[v].input[i], id) && id in b.producers && x == b.producers[id] != v
    requires e == if b.was[v].input[i].required then OnOk else OnAll
    requires forall f :: Asked(GivenTo(b), b.Tables(), x, v, f) ==> f == e
    ensures x < |b.was| && (exists o :: o in b.was[x].output && DataName(o) == id) && WaitsFor(g, v, x, e)
  {
    var gv, t := GivenTo(b), b.Tables();
    assert ProducerOk(t, |b.was|, id);
    assert DoneOk(b.was, t, x);
    InputAsks(gv, t, v, i, id, x, e);
    OneMask(b, order, attrs, g, x, v, e);
  }

  /** A condition that a declared vertex expects: the vertex waits for the success
      of the one that stands for it. */
  lemma ExpectMeans(
    b: Builder, order: seq<seq<nat>>, attrs: seq<Vertex>, g: Graph, v: nat, id: string, x: nat)
    requires b.Assembled() && g == b.GraphFor(attrs, order) && v < |b.was| && id in b.nodes && x == b.nodes[id]
    requires b.was[v].expecting != "" && Stands(GivenTo(b), b.was[v].expecting, id)
    requires forall f :: Asked(GivenTo(b), b.Tables(), x, v, f) ==> f == OnOk
    ensures x < |b.vertex| + |b.gen| && At(b.Tables(), x).id == id && WaitsFor(g, v, x, OnOk)
  {
    var gv, t := GivenTo(b), b.Tables();
    assert NodeOk(t, |b.was|, id);
    ListAsks(gv, t, v, 1, id, x, v);
    OneMask(b, order, attrs, g, x, v, OnOk);
  }

  // ------------------------------------------------------------------- runs

  /** At the end of every run of a built graph: a vertex that is good had of each
      vertex it waits for what the declarations ask. */
  lemma RunsAsDeclared(
    b: Builder, order: seq<seq<nat>>, attrs: seq<Vertex>, g: Graph, starts: seq<nat>, run: seq<State>, s: State,
    u: nat, w: nat, e: Expected)
    requires b.Assembled() && g == b.GraphFor(attrs, order) && |attrs| == |b.vertex| + |b.gen|
    requires WellBuilt(g) && Starts(g, starts) && Complete(g, starts, run) && s == run[|run| - 1]
    requires u < |attrs| && w < |attrs| && OnlyAsks(GivenTo(b), b.Tables(), u, w, e)
    ensures |s.results| == |attrs|
    ensures s.results[w] == Ok && e == OnOk ==> s.results[u] == Ok
    ensures s.results[w] == Ok && e == OnErr ==> s.results[u] == Err
  {
    OneMask(b, order, attrs, g, u, w, e);
    CompleteExactly(g, starts, run, s, w);
    var k :| 0 <= k < |g.deps[w]| && g.deps[w][k] == u && g.masks[w][k] == e;
    assert s.results[w] == Ok ==> Meets(s.results[g.deps[w][k]], g.masks[w][k]);
  }

  /** A vertex that another names only among those to follow its success ends well
      only if that one did; one named only among those to follow its failure, only
      if that one failed. */
  lemma FollowersRun(
    b: Builder, order: seq<seq<nat>>, attrs: seq<Vertex>, g: Graph, starts: seq<nat>, run: seq<State>, s: State,
    v: nat, id: string, x: nat, e: Expected)
    requires b.Assembled() && g == b.GraphFor(attrs, order) && |attrs| == |b.vertex| + |b.gen|
    requires WellBuilt(g) && Starts(g, starts) && Complete(g, starts, run) && s == run[|run| - 1]
    requires v < |b.was| && id in b.nodes && x == b.nodes[id]
    requires var n := b.was[v];
      || (e == OnOk && (id in n.successorOnOk || id in n.consequent))
      || (e == OnErr && (id in n.successorOnErr || id in n.alternative))
    requires forall f :: Asked(GivenTo(b), b.Tables(), v, x, f) ==> f == e
    ensures v < |s.results| && x < |s.results|
    ensures s.results[x] == Ok ==> s.results[v] == if e == OnOk then Ok else Err
  {
    var gv, t := GivenTo(b), b.Tables();
    assert NodeOk(t, |b.was|, id);
    var list := if e == OnOk then 4 else 5;
    ListAsks(gv, t, v, list, id, v, x);
    RunsAsDeclared(b, order, attrs, g, starts, run, s, v, x, e);
  }
}
