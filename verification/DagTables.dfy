/** The tables Graph::Build fills, on values: names, producers, generated
    condition vertices and edges, and what each step keeps of them. */
module DagTables {
  import opened Collections
  import opened DagGraph

  /** An input or output of a vertex; an empty id stands for the field's name */
  datatype Data = Data(id: string, field: string, isExtern: bool, isInOut: bool, required: bool, aggregate: seq<string>)

  function DataName(d: Data): string {
    if d.id == "" then d.field else d.id
  }

  /** A vertex as declared. Name sets are listed in iteration order. configOk:
      every config setting it names exists, and not both expect and
      expect_config are given. */
  datatype Spec = Spec(
    id: string, processor: string, cond: string, expecting: string, configOk: bool, isStart: bool,
    expectDeps: seq<string>, deps: seq<string>, depsOnOk: seq<string>, depsOnErr: seq<string>,
    successor: seq<string>, successorOnOk: seq<string>, successorOnErr: seq<string>,
    consequent: seq<string>, alternative: seq<string>,
    input: seq<Data>, output: seq<Data>)

  // ----------------------------------------------------------- generated names

  function Digit(d: nat): char
    requires d < 10
  {
    ['0', '1', '2', '3', '4', '5', '6', '7', '8', '9'][d]
  }

  function Decimal(n: nat): string {
    if n < 10 then [Digit(n)] else Decimal(n / 10) + [Digit(n % 10)]
  }

  function GenId(name: string, k: nat): string {
    name + "_" + Decimal(k)
  }

  lemma {:induction false} DecimalInjective(a: nat, b: nat)
    requires Decimal(a) == Decimal(b)
    ensures a == b
  {
    var da, db := Decimal(a), Decimal(b);
    assert da[|da| - 1] == db[|db| - 1];
    if a >= 10 && b >= 10 {
      assert da[..|da| - 1] == Decimal(a / 10) && db[..|db| - 1] == Decimal(b / 10);
      DecimalInjective(a / 10, b / 10);
    } else {
      DecimalNonempty(a / 10);
      DecimalNonempty(b / 10);
    }
  }

  lemma {:induction false} DecimalNonempty(n: nat)
    ensures |Decimal(n)| > 0
  {
  }

  /** Names generated from different counts differ. */
  lemma GenIdInjective(name: string, a: nat, b: nat)
    requires GenId(name, a) == GenId(name, b)
    ensures a == b
  {
    assert GenId(name, a)[|name| + 1..] == Decimal(a);
    assert GenId(name, b)[|name| + 1..] == Decimal(b);
    DecimalInjective(a, b);
  }

  // -------------------------------------------------------------------- names

  function Insert(s: seq<string>, x: string): (r: seq<string>)
    ensures forall y :: y in r <==> y in s || y == x
  {
    if x in s then s else s + [x]
  }

  function InsertAll(s: seq<string>, xs: seq<string>): (r: seq<string>)
    ensures forall y :: y in r <==> y in s || y in xs
    decreases |xs|
  {
    if xs == [] then s else InsertAll(Insert(s, xs[0]), xs[1..])
  }

  /** The condition vertex generated for the first vertex with that condition */
  function CondSpec(id: string, processor: string, n: Spec): Spec {
    var own := n.expectDeps == [];
    Spec(id, processor, n.expecting, "", true, false, [],
         if own then n.deps else n.expectDeps, if own then n.depsOnOk else [], if own then n.depsOnErr else [],
         [], [], [], [], [], [], [])
  }

  function MergeSuccessor(n: Spec): Spec {
    n.(successorOnOk := InsertAll(n.successorOnOk, n.consequent),
       successorOnErr := InsertAll(n.successorOnErr, n.alternative))
  }

  /** The processor of a vertex: given, or the default one of a condition */
  function ProcessorOf(n: Spec, expr: string): string {
    if n.processor == "" && n.cond != "" then expr else n.processor
  }

  /** The name a vertex goes by: given, its processor's, or a generated one */
  function OwnId(n: Spec, expr: string, generated: string): string {
    if n.id != "" then n.id else if ProcessorOf(n, expr) == "" then generated else ProcessorOf(n, expr)
  }

  /** now is what naming has made of was, with c the condition it waits for. */
  ghost predicate Resolved(was: Spec, now: Spec, c: string) {
    && now == MergeSuccessor(was).(id := now.id, processor := now.processor, depsOnOk := now.depsOnOk)
    && (forall y :: y in now.depsOnOk <==> y in was.depsOnOk || (was.expecting != "" && y == c))
  }

  // -------------------------------------------------------------- who is named how

  /** No name is given and none comes with the processor. */
  predicate NeedsId(n: Spec, expr: string) {
    n.id == "" && ProcessorOf(n, expr) == ""
  }

  ghost predicate FirstExpecting(was: seq<Spec>, x: nat)
    requires x < |was|
  {
    forall y :: 0 <= y < x ==> was[y].expecting != was[x].expecting
  }

  /** Declared vertex x is the first to expect its condition. */
  ghost predicate Generates(was: seq<Spec>, x: nat)
    requires x < |was|
  {
    was[x].expecting != "" && FirstExpecting(was, x)
  }

  /** How many numbers the first i declared vertices draw */
  ghost function Drawn(was: seq<Spec>, expr: string, i: nat): nat
    requires i <= |was|
    decreases i, 0
  {
    if i == 0 then 0
    else CondNumber(was, expr, i - 1) + if Generates(was, i - 1) then 1 else 0
  }

  /** The number drawn for the condition of declared vertex x, which comes after
      the one for its own name */
  ghost function CondNumber(was: seq<Spec>, expr: string, x: nat): nat
    requires x < |was|
    decreases x, 1
  {
    Drawn(was, expr, x) + if NeedsId(was[x], expr) then 1 else 0
  }

  /** The names of declared vertex x and of the condition it is first to expect */
  ghost function DeclName(name: string, expr: string, was: seq<Spec>, x: nat): string
    requires x < |was|
  {
    OwnId(was[x], expr, GenId(name, Drawn(was, expr, x)))
  }

  ghost function CondName(name: string, expr: string, was: seq<Spec>, x: nat): string
    requires x < |was|
  {
    GenId(name, CondNumber(was, expr, x))
  }

  lemma {:induction false} DrawnGrows(was: seq<Spec>, expr: string, i: nat, j: nat)
    requires i <= j <= |was|
    ensures Drawn(was, expr, i) <= Drawn(was, expr, j)
  {
    if i < j { DrawnGrows(was, expr, i, j - 1); }
  }

  /** No two conditions share a name. */
  lemma CondNamesDiffer(name: string, expr: string, was: seq<Spec>, x: nat, y: nat)
    requires x < y < |was| && Generates(was, x)
    ensures CondName(name, expr, was, x) != CondName(name, expr, was, y)
  {
    DrawnGrows(was, expr, x + 1, y);
    if CondName(name, expr, was, x) == CondName(name, expr, was, y) {
      GenIdInjective(name, CondNumber(was, expr, x), CondNumber(was, expr, y));
    }
  }

  // ------------------------------------------------------------------ the tables

  /** The tables naming fills: declared and generated vertices, who has which
      name, who produces which data, which vertex stands for which condition */
  datatype Names = Names(
    vertex: seq<Spec>, gen: seq<Spec>, nodes: map<string, nat>, producers: map<string, nat>, conds: map<string, nat>)

  /** Vertex x: declared ones first, then the generated ones */
  function At(t: Names, x: nat): Spec
    requires x < |t.vertex| + |t.gen|
  {
    if x < |t.vertex| then t.vertex[x] else t.gen[x - |t.vertex|]
  }

  /** A name in the table belongs to a vertex that is done or generated. */
  ghost predicate NodeOk(t: Names, i: nat, id: string)
    requires id in t.nodes
  {
    var x := t.nodes[id];
    x < |t.vertex| + |t.gen| && At(t, x).id == id && (x < |t.vertex| ==> x < i)
  }

  /** A condition vertex keeps its name and waits for what the first vertex that
      expects it declares; that is one of the first b. */
  ghost predicate GenOk(name: string, expr: string, was: seq<Spec>, t: Names, b: nat, j: nat)
    requires j < |t.gen|
  {
    var c := t.gen[j];
    && c.id in t.nodes && t.nodes[c.id] == |t.vertex| + j
    && c.cond in t.conds && t.conds[c.cond] == j
    && FromVertex(name, expr, was, b, c)
  }

  ghost predicate FromVertex(name: string, expr: string, was: seq<Spec>, b: nat, c: Spec) {
    exists x :: 0 <= x < b && x < |was| && Generates(was, x)
                && c == CondSpec(CondName(name, expr, was, x), expr, was[x])
  }

  /** The vertex has its processor and its name. */
  ghost predicate Identified(name: string, expr: string, was: seq<Spec>, x: nat, now: Spec)
    requires x < |was|
  {
    now.processor == ProcessorOf(was[x], expr) && now.id == DeclName(name, expr, was, x)
  }

  ghost predicate CondOk(t: Names, e: string)
    requires e in t.conds
  {
    t.conds[e] < |t.gen| && t.gen[t.conds[e]].cond == e
  }

  ghost predicate ProducerOk(t: Names, i: nat, d: string)
    requires d in t.producers
  {
    t.producers[d] < i && t.producers[d] < |t.vertex| && Outputs(t.vertex[t.producers[d]], d)
  }

  ghost predicate Outputs(n: Spec, d: string) {
    exists o :: o in n.output && DataName(o) == d
  }

  ghost predicate DoneOk(was: seq<Spec>, t: Names, x: nat)
    requires x < |t.vertex| == |was|
  {
    var n := t.vertex[x];
    && n.id in t.nodes
    && (was[x].expecting != "" ==>
          was[x].expecting in t.conds && t.conds[was[x].expecting] < |t.gen|)
    && Resolved(was[x], n, if was[x].expecting != "" then t.gen[t.conds[was[x].expecting]].id else "")
    && (forall o :: o in n.output ==> DataName(o) in t.producers && t.producers[DataName(o)] == x)
  }

  ghost predicate NodesOk(t: Names, i: nat) {
    forall id :: id in t.nodes ==> NodeOk(t, i, id)
  }

  ghost predicate GensOk(name: string, expr: string, was: seq<Spec>, t: Names, b: nat) {
    && (forall j {:trigger t.gen[j]} :: 0 <= j < |t.gen| ==> GenOk(name, expr, was, t, b, j))
    && (forall e :: e in t.conds ==> CondOk(t, e))
  }

  ghost predicate ProducersOk(t: Names, i: nat) {
    forall d :: d in t.producers ==> ProducerOk(t, i, d)
  }

  ghost predicate DonesOk(was: seq<Spec>, t: Names, i: nat)
    requires i <= |t.vertex| == |was|
  {
    && (forall x {:trigger DoneOk(was, t, x)} :: 0 <= x < i ==> DoneOk(was, t, x))
    && (forall x, y :: 0 <= x < y < i ==> t.vertex[x].id != t.vertex[y].id)
    && (forall x :: i <= x < |was| ==> t.vertex[x] == was[x])
  }

  /** The first i declared vertices are named, and conditions of the first b have
      got their vertices. */
  ghost predicate NamedUpTo(name: string, expr: string, was: seq<Spec>, t: Names, i: nat, b: nat) {
    && i <= |t.vertex| == |was|
    && NodesOk(t, i) && GensOk(name, expr, was, t, b) && ProducersOk(t, i) && DonesOk(was, t, i)
    && forall x :: 0 <= x < i ==> Identified(name, expr, was, x, t.vertex[x])
  }

  lemma GenNamed(name: string, expr: string, was: seq<Spec>, t: Names, b: nat, j: nat) returns (x: nat)
    requires GensOk(name, expr, was, t, b) && j < |t.gen|
    ensures x < b && x < |was| && Generates(was, x) && t.gen[j] == CondSpec(CondName(name, expr, was, x), expr, was[x])
  {
    assert GenOk(name, expr, was, t, b, j);
    x :| 0 <= x < b && x < |was| && Generates(was, x)
         && t.gen[j] == CondSpec(CondName(name, expr, was, x), expr, was[x]);
  }

  lemma GensWider(name: string, expr: string, was: seq<Spec>, t: Names, b: nat, b': nat)
    requires GensOk(name, expr, was, t, b) && b <= b'
    ensures GensOk(name, expr, was, t, b')
  {
    forall j: nat | j < |t.gen|
      ensures GenOk(name, expr, was, t, b', j)
    {
      var x := GenNamed(name, expr, was, t, b, j);
      assert GenOk(name, expr, was, t, b, j);
    }
  }

  /** A condition that has a vertex already is not expected for the first time. */
  lemma CondSeen(name: string, expr: string, was: seq<Spec>, t: Names, i: nat)
    requires GensOk(name, expr, was, t, i) && i < |was| && was[i].expecting in t.conds
    ensures !Generates(was, i)
  {
    assert CondOk(t, was[i].expecting);
    var x := GenNamed(name, expr, was, t, i, t.conds[was[i].expecting]);
    assert was[x].expecting == was[i].expecting;
  }

  /** One that has none is. */
  lemma CondUnseen(name: string, expr: string, was: seq<Spec>, t: Names, i: nat, b: nat)
    requires NamedUpTo(name, expr, was, t, i, b) && i < |was|
    requires was[i].expecting != "" && was[i].expecting !in t.conds
    ensures Generates(was, i)
  {
    forall y: nat | y < i
      ensures was[y].expecting != was[i].expecting
    {
      assert DoneOk(was, t, y);
    }
  }

  /** A generated vertex takes its name in the table even from a declared one. */
  ghost predicate AddsCond(id: string, expr: string, t: Names, n: Spec, t': Names) {
    var c := CondSpec(id, expr, n);
    && n.expecting != "" && n.expecting !in t.conds
    && t' == t.(gen := t.gen + [c], nodes := t.nodes[c.id := |t.vertex| + |t.gen|],
                conds := t.conds[n.expecting := |t.gen|])
  }

  lemma CondKeepsNodes(id: string, expr: string, t: Names, i: nat, n: Spec, t': Names)
    requires NodesOk(t, i) && AddsCond(id, expr, t, n, t')
    ensures NodesOk(t', i)
  {
    forall a | a in t'.nodes
      ensures NodeOk(t', i, a)
    {
      if a != id { assert NodeOk(t, i, a); }
    }
  }

  lemma CondKeepsGens(name: string, expr: string, was: seq<Spec>, t: Names, i: nat, t': Names)
    requires GensOk(name, expr, was, t, i) && i < |was| && Generates(was, i)
    requires AddsCond(CondName(name, expr, was, i), expr, t, was[i], t')
    ensures GensOk(name, expr, was, t', i + 1)
  {
    var b := i + 1;
    forall j: nat | j < |t'.gen|
      ensures GenOk(name, expr, was, t', b, j)
    {
      if j < |t.gen| {
        var x := GenNamed(name, expr, was, t, i, j);
        CondNamesDiffer(name, expr, was, x, i);
        assert GenOk(name, expr, was, t, i, j);
      }
    }
    forall e | e in t'.conds
      ensures CondOk(t', e)
    {
      if e != was[i].expecting { assert CondOk(t, e); }
    }
  }

  lemma CondKeeps(name: string, expr: string, was: seq<Spec>, t: Names, i: nat, t': Names)
    requires NamedUpTo(name, expr, was, t, i, i) && i < |was|
    requires AddsCond(CondName(name, expr, was, i), expr, t, was[i], t')
    ensures NamedUpTo(name, expr, was, t', i, i + 1)
  {
    CondKeepsNodes(CondName(name, expr, was, i), expr, t, i, was[i], t');
    CondUnseen(name, expr, was, t, i, i);
    CondKeepsGens(name, expr, was, t, i, t');
    forall d | d in t'.producers
      ensures ProducerOk(t', i, d)
    {
      assert ProducerOk(t, i, d);
    }
    forall x: nat | x < i
      ensures DoneOk(was, t', x)
    {
      assert DoneOk(was, t, x);
    }
  }

  /** now has was's entries and i for each of outs, none of which was there. */
  ghost predicate Produces(was: map<string, nat>, now: map<string, nat>, outs: seq<Data>, i: nat) {
    && (forall o :: o in outs ==> DataName(o) !in was && DataName(o) in now && now[DataName(o)] == i)
    && (forall d :: d in was ==> d in now && now[d] == was[d])
    && (forall d :: d in now && d !in was ==> exists o :: o in outs && DataName(o) == d)
  }

  ghost predicate Places(t: Names, i: nat, n: Spec, t': Names) {
    && i < |t.vertex| && n.id !in t.nodes
    && t' == t.(vertex := t.vertex[i := n], nodes := t.nodes[n.id := i], producers := t'.producers)
    && Produces(t.producers, t'.producers, n.output, i)
  }

  lemma PlaceKeepsNodes(t: Names, i: nat, n: Spec, t': Names)
    requires NodesOk(t, i) && Places(t, i, n, t')
    ensures NodesOk(t', i + 1)
  {
    forall id | id in t'.nodes
      ensures NodeOk(t', i + 1, id)
    {
      if id != n.id { assert NodeOk(t, i, id); }
    }
  }

  lemma PlaceKeepsGens(name: string, expr: string, was: seq<Spec>, t: Names, b: nat, i: nat, n: Spec, t': Names)
    requires GensOk(name, expr, was, t, b) && Places(t, i, n, t')
    ensures GensOk(name, expr, was, t', b)
  {
    forall j: nat | j < |t'.gen|
      ensures GenOk(name, expr, was, t', b, j)
    {
      assert GenOk(name, expr, was, t, b, j);
    }
    forall e | e in t'.conds
      ensures CondOk(t', e)
    {
      assert CondOk(t, e);
    }
  }

  lemma PlaceKeepsProducers(t: Names, i: nat, n: Spec, t': Names)
    requires ProducersOk(t, i) && Places(t, i, n, t')
    ensures ProducersOk(t', i + 1)
  {
    forall d | d in t'.producers
      ensures ProducerOk(t', i + 1, d)
    {
      if d in t.producers {
        assert ProducerOk(t, i, d);
        assert t'.vertex[t.producers[d]] == t.vertex[t.producers[d]];
      } else {
        var o :| o in n.output && DataName(o) == d;
        assert Outputs(n, d);
      }
    }
  }

  lemma PlaceKeepsDone(was: seq<Spec>, t: Names, i: nat, n: Spec, t': Names)
    requires i < |t.vertex| == |was| && DonesOk(was, t, i) && Places(t, i, n, t')
    requires was[i].expecting != "" ==> was[i].expecting in t.conds && t.conds[was[i].expecting] < |t.gen|
    requires Resolved(was[i], n, if was[i].expecting != "" then t.gen[t.conds[was[i].expecting]].id else "")
    ensures DonesOk(was, t', i + 1)
  {
    forall x: nat | x < i + 1
      ensures DoneOk(was, t', x) && (x < i ==> t'.vertex[x].id != n.id)
    {
      if x < i { assert DoneOk(was, t, x); }
    }
  }

  lemma PlaceKeeps(name: string, expr: string, was: seq<Spec>, t: Names, i: nat, n: Spec, t': Names)
    requires NamedUpTo(name, expr, was, t, i, i + 1) && Places(t, i, n, t')
    requires was[i].expecting != "" ==> was[i].expecting in t.conds && t.conds[was[i].expecting] < |t.gen|
    requires Resolved(was[i], n, if was[i].expecting != "" then t.gen[t.conds[was[i].expecting]].id else "")
    requires Identified(name, expr, was, i, n)
    ensures NamedUpTo(name, expr, was, t', i + 1, i + 1)
  {
    PlaceKeepsNodes(t, i, n, t');
    PlaceKeepsGens(name, expr, was, t, i + 1, i, n, t');
    PlaceKeepsProducers(t, i, n, t');
    PlaceKeepsDone(was, t, i, n, t');
  }

  // -------------------------------------------------------------------- edges

  /** One call of Depend: vertex waits for dep and accepts `accepts` of it */
  datatype Decl = Decl(dep: nat, vertex: nat, accepts: Expected)

  ghost predicate Declared(log: seq<Decl>, u: nat, w: nat) {
    exists d :: d in log && d.dep == u && d.vertex == w
  }

  /** What the first declaration of the pair accepts */
  ghost function FirstMask(log: seq<Decl>, u: nat, w: nat): Expected {
    if log == [] then OnAll
    else if Declared(log[..|log| - 1], u, w) then FirstMask(log[..|log| - 1], u, w)
    else log[|log| - 1].accepts
  }

  /** depIdx[w][u] is u's position among w's dependencies, masks[w] what w
      accepts of each, succs[u] who waits for u. */
  datatype Edges = Edges(depIdx: seq<map<nat, nat>>, masks: seq<seq<Expected>>, succs: seq<set<nat>>)

  /** The positions of w's dependencies are 0, 1, ... with deps their inverse. */
  ghost predicate RowOk(e: Edges, deps: seq<seq<nat>>, w: nat)
    requires w < |e.depIdx| == |e.masks| == |deps|
  {
    && |e.masks[w]| == |deps[w]|
    && (forall k :: 0 <= k < |deps[w]| ==> deps[w][k] in e.depIdx[w] && e.depIdx[w][deps[w][k]] == k)
    && (forall u :: u in e.depIdx[w] ==> e.depIdx[w][u] < |deps[w]| && deps[w][e.depIdx[w][u]] == u)
  }

  ghost predicate PairOk(e: Edges, log: seq<Decl>, u: nat, w: nat)
    requires u < |e.succs| && w < |e.depIdx| == |e.masks|
  {
    && (u in e.depIdx[w] <==> Declared(log, u, w))
    && (w in e.succs[u] <==> Declared(log, u, w))
    && (u in e.depIdx[w] && e.depIdx[w][u] < |e.masks[w]| ==>
          e.masks[w][e.depIdx[w][u]] == FirstMask(log, u, w))
  }

  /** The tables hold exactly the pairs declared in log. */
  ghost predicate EdgesOk(n: nat, e: Edges, deps: seq<seq<nat>>, log: seq<Decl>) {
    && |e.depIdx| == |e.masks| == |e.succs| == |deps| == n
    && (forall d :: d in log ==> d.dep < n && d.vertex < n)
    && (forall w {:trigger RowOk(e, deps, w)} :: 0 <= w < n ==> RowOk(e, deps, w))
    && (forall u, w {:trigger PairOk(e, log, u, w)} :: 0 <= u < n && 0 <= w < n ==> PairOk(e, log, u, w))
    && (forall w, u :: 0 <= w < n && u in e.depIdx[w] ==> u < n)
    && (forall u, w :: 0 <= u < n && w in e.succs[u] ==> w < n)
  }

  /** Depend, on values */
  function Depend(e: Edges, w: nat, u: nat, accepts: Expected): Edges
    requires w < |e.depIdx| == |e.masks| && u < |e.succs|
  {
    var e1 := e.(succs := e.succs[u := e.succs[u] + {w}]);
    if u in e.depIdx[w] then e1
    else
      var row: map<nat, nat> := e.depIdx[w][u := |e.masks[w]|];
      e1.(depIdx := e.depIdx[w := row], masks := e.masks[w := e.masks[w] + [accepts]])
  }

  ghost function DependDeps(e: Edges, deps: seq<seq<nat>>, w: nat, u: nat): seq<seq<nat>>
    requires w < |e.depIdx| == |deps|
  {
    if u in e.depIdx[w] then deps else deps[w := deps[w] + [u]]
  }

  lemma LogGrows(log: seq<Decl>, d: Decl, u: nat, w: nat)
    ensures Declared(log + [d], u, w) <==> Declared(log, u, w) || (d.dep == u && d.vertex == w)
    ensures FirstMask(log + [d], u, w) == if Declared(log, u, w) then FirstMask(log, u, w) else d.accepts
  {
    assert (log + [d])[..|log|] == log;
    assert d in log + [d];
    assert forall x :: x in log ==> x in log + [d];
  }

  lemma DependRow(e: Edges, deps: seq<seq<nat>>, w: nat, u: nat, accepts: Expected, x: nat)
    requires w < |e.depIdx| == |e.masks| == |deps| && u < |e.succs| && x < |deps|
    requires RowOk(e, deps, w) && RowOk(e, deps, x)
    ensures var e', deps' := Depend(e, w, u, accepts), DependDeps(e, deps, w, u);
      |e'.depIdx| == |e'.masks| == |deps'| == |deps| && RowOk(e', deps', x)
  {
  }

  lemma DependPair(
    n: nat, e: Edges, deps: seq<seq<nat>>, log: seq<Decl>, w: nat, u: nat, accepts: Expected, x: nat, y: nat)
    requires EdgesOk(n, e, deps, log) && w < n && u < n && x < n && y < n
    ensures var e' := Depend(e, w, u, accepts);
      |e'.depIdx| == |e'.masks| == |e'.succs| == n && PairOk(e', log + [Decl(u, w, accepts)], x, y)
  {
    assert PairOk(e, log, x, y) && PairOk(e, log, u, w);
    assert RowOk(e, deps, y);
    LogGrows(log, Decl(u, w, accepts), x, y);
  }

  lemma DependKeeps(n: nat, e: Edges, deps: seq<seq<nat>>, log: seq<Decl>, w: nat, u: nat, accepts: Expected)
    requires EdgesOk(n, e, deps, log) && w < n && u < n
    ensures EdgesOk(n, Depend(e, w, u, accepts), DependDeps(e, deps, w, u), log + [Decl(u, w, accepts)])
  {
    var e', deps', log' := Depend(e, w, u, accepts), DependDeps(e, deps, w, u), log + [Decl(u, w, accepts)];
    assert RowOk(e, deps, w);
    forall x: nat | x < n
      ensures RowOk(e', deps', x)
    {
      assert RowOk(e, deps, x);
      DependRow(e, deps, w, u, accepts, x);
    }
    forall x: nat, y: nat | x < n && y < n
      ensures PairOk(e', log', x, y)
    {
      DependPair(n, e, deps, log, w, u, accepts, x, y);
    }
  }

  // ------------------------------------------------------ what a vertex declares

  /** Every name on the list belongs to a vertex. */
  predicate Known(table: map<string, nat>, ids: seq<string>) {
    forall id :: id in ids ==> id in table
  }

  function DepDecls(nodes: map<string, nat>, ids: seq<string>, v: nat, accepts: Expected): seq<Decl>
    requires Known(nodes, ids)
  {
    seq(|ids|, k requires 0 <= k < |ids| => Decl(nodes[ids[k]], v, accepts))
  }

  function SuccDecls(nodes: map<string, nat>, ids: seq<string>, v: nat, accepts: Expected): seq<Decl>
    requires Known(nodes, ids)
  {
    seq(|ids|, k requires 0 <= k < |ids| => Decl(v, nodes[ids[k]], accepts))
  }

  lemma Assoc<T>(a: seq<T>, b: seq<T>, c: seq<T>)
    ensures a + b + c == a + (b + c)
  {
  }

  lemma Assoc3<T>(log: seq<T>, a: seq<T>, b: seq<T>, c: seq<T>)
    ensures log + a + b + c == log + (a + (b + c))
  {
    Assoc(log + a, b, c);
    Assoc(log, a, b + c);
  }

  lemma DeclsStep(nodes: map<string, nat>, ids: seq<string>, k: nat, v: nat, accepts: Expected)
    requires k < |ids| && Known(nodes, ids[..k]) && ids[k] in nodes
    ensures Known(nodes, ids[..k + 1])
    ensures DepDecls(nodes, ids[..k + 1], v, accepts)
         == DepDecls(nodes, ids[..k], v, accepts) + [Decl(nodes[ids[k]], v, accepts)]
    ensures SuccDecls(nodes, ids[..k + 1], v, accepts)
         == SuccDecls(nodes, ids[..k], v, accepts) + [Decl(v, nodes[ids[k]], accepts)]
  {
    assert ids[..k + 1] == ids[..k] + [ids[k]];
  }

  function NeedOf(d: Data): Expected {
    if d.required then OnOk else OnAll
  }

  /** The data an input takes: its own name, or those it aggregates */
  function Sources(d: Data): seq<string> {
    if d.aggregate == [] then [DataName(d)] else d.aggregate
  }

  /** The producer of one source of an input, unless there is none or, for a
      single in-out datum, it is the vertex itself */
  function SourceDecls(producers: map<string, nat>, v: nat, d: Data, id: string): seq<Decl> {
    if id !in producers || (d.aggregate == [] && d.isInOut && producers[id] == v) then []
    else [Decl(producers[id], v, NeedOf(d))]
  }

  function SourcesDecls(producers: map<string, nat>, v: nat, d: Data, ids: seq<string>): seq<Decl>
    decreases |ids|
  {
    if ids == [] then []
    else SourcesDecls(producers, v, d, ids[..|ids| - 1]) + SourceDecls(producers, v, d, ids[|ids| - 1])
  }

  lemma SourcesStep(producers: map<string, nat>, v: nat, d: Data, ids: seq<string>, k: nat)
    requires k < |ids|
    ensures SourcesDecls(producers, v, d, ids[..k + 1])
         == SourcesDecls(producers, v, d, ids[..k]) + SourceDecls(producers, v, d, ids[k])
    ensures Known(producers, ids[..k + 1]) <==> Known(producers, ids[..k]) && ids[k] in producers
  {
    assert ids[..k + 1] == ids[..k] + [ids[k]] && ids[..k + 1][..k] == ids[..k];
  }

  function InputDecls(producers: map<string, nat>, v: nat, input: seq<Data>): seq<Decl>
    decreases |input|
  {
    if input == [] then []
    else
      var d := input[|input| - 1];
      InputDecls(producers, v, input[..|input| - 1]) + SourcesDecls(producers, v, d, Sources(d))
  }

  predicate InputKnown(producers: map<string, nat>, d: Data) {
    d.isExtern || Known(producers, Sources(d))
  }

  predicate DepsKnown(nodes: map<string, nat>, n: Spec) {
    Known(nodes, n.deps) && Known(nodes, n.depsOnOk) && Known(nodes, n.depsOnErr)
  }

  predicate SuccsKnown(nodes: map<string, nat>, n: Spec) {
    Known(nodes, n.successor) && Known(nodes, n.successorOnOk) && Known(nodes, n.successorOnErr)
  }

  /** Every name the vertex refers to exists. */
  predicate Resolvable(nodes: map<string, nat>, producers: map<string, nat>, n: Spec) {
    DepsKnown(nodes, n) && SuccsKnown(nodes, n) && forall d :: d in n.input ==> InputKnown(producers, d)
  }

  function AllDeps(nodes: map<string, nat>, n: Spec, v: nat): seq<Decl>
    requires DepsKnown(nodes, n)
  {
    DepDecls(nodes, n.deps, v, OnAll)
    + (DepDecls(nodes, n.depsOnOk, v, OnOk) + DepDecls(nodes, n.depsOnErr, v, OnErr))
  }

  function AllSuccs(nodes: map<string, nat>, n: Spec, v: nat): seq<Decl>
    requires SuccsKnown(nodes, n)
  {
    SuccDecls(nodes, n.successor, v, OnAll)
    + (SuccDecls(nodes, n.successorOnOk, v, OnOk) + SuccDecls(nodes, n.successorOnErr, v, OnErr))
  }

  function VertexDecls(nodes: map<string, nat>, producers: map<string, nat>, n: Spec, v: nat): seq<Decl>
    requires Resolvable(nodes, producers, n)
  {
    AllDeps(nodes, n, v) + (AllSuccs(nodes, n, v) + InputDecls(producers, v, n.input))
  }

  ghost predicate ResolvableUpTo(t: Names, x: nat)
    requires x <= |t.vertex| + |t.gen|
  {
    forall y :: 0 <= y < x ==> Resolvable(t.nodes, t.producers, At(t, y))
  }

  /** Everything the first x vertices declare, in the order Build goes through them */
  ghost function AllDecls(t: Names, x: nat): seq<Decl>
    requires x <= |t.vertex| + |t.gen| && ResolvableUpTo(t, x)
  {
    if x == 0 then [] else AllDecls(t, x - 1) + VertexDecls(t.nodes, t.producers, At(t, x - 1), x - 1)
  }

  ghost predicate LogIs(t: Names, x: nat, log: seq<Decl>)
    requires x <= |t.vertex| + |t.gen| && ResolvableUpTo(t, x)
  {
    log == AllDecls(t, x)
  }

  lemma LogStep(t: Names, x: nat, x': nat, n: Spec, log: seq<Decl>, log': seq<Decl>)
    requires x' == x + 1 <= |t.vertex| + |t.gen| && n == At(t, x)
    requires ResolvableUpTo(t, x) && Resolvable(t.nodes, t.producers, n)
    requires LogIs(t, x, log) && log' == log + VertexDecls(t.nodes, t.producers, n, x)
    ensures ResolvableUpTo(t, x') && LogIs(t, x', log')
  {
  }

  lemma NoEdges(n: nat, e: Edges, deps: seq<seq<nat>>)
    requires |e.depIdx| == |e.masks| == |e.succs| == |deps| == n
    requires forall v :: 0 <= v < n ==> e.depIdx[v] == map[] && e.masks[v] == [] && e.succs[v] == {} && deps[v] == []
    ensures EdgesOk(n, e, deps, [])
  {
  }

  /** No declared vertex goes by the name that a condition vertex is given. */
  ghost predicate FreshNames(name: string, expr: string, was: seq<Spec>) {
    forall x, y :: 0 <= x < |was| && 0 <= y < |was| && Generates(was, y) ==>
      DeclName(name, expr, was, x) != CondName(name, expr, was, y)
  }

  /** Vertex x is in no table: its name leads to another vertex. */
  ghost predicate Hidden(t: Names, x: nat) {
    x < |t.vertex| + |t.gen| && x !in t.nodes.Values
  }

  /** What is declared decides whether the table gives every vertex its place. */
  lemma TableComplete(name: string, expr: string, was: seq<Spec>, t: Names)
    requires NamedUpTo(name, expr, was, t, |was|, |was|)
    ensures FreshNames(name, expr, was) <==> forall x :: 0 <= x < |t.vertex| + |t.gen| ==> !Hidden(t, x)
    ensures forall x :: 0 <= x < |t.vertex| + |t.gen| && !Hidden(t, x) ==>
      At(t, x).id in t.nodes && t.nodes[At(t, x).id] == x
  {
    forall x: nat | x < |t.vertex| + |t.gen| && !Hidden(t, x)
      ensures At(t, x).id in t.nodes && t.nodes[At(t, x).id] == x
    {
      var id :| id in t.nodes && t.nodes[id] == x;
      assert NodeOk(t, |was|, id);
    }
    if FreshNames(name, expr, was) {
      forall x: nat | x < |t.vertex| + |t.gen|
        ensures !Hidden(t, x)
      {
        TablePlace(name, expr, was, t, x);
      }
    } else {
      var x: nat, y: nat :| x < |was| && y < |was| && Generates(was, y)
                            && DeclName(name, expr, was, x) == CondName(name, expr, was, y);
      TakenName(name, expr, was, t, x, y);
    }
  }

  lemma TablePlace(name: string, expr: string, was: seq<Spec>, t: Names, x: nat)
    requires NamedUpTo(name, expr, was, t, |was|, |was|) && FreshNames(name, expr, was) && x < |t.vertex| + |t.gen|
    ensures At(t, x).id in t.nodes && t.nodes[At(t, x).id] == x
  {
    if x < |t.vertex| {
      assert DoneOk(was, t, x);
      var id := t.vertex[x].id;
      assert NodeOk(t, |was|, id);
      var z := t.nodes[id];
      assert Identified(name, expr, was, x, t.vertex[x]);
      if z >= |t.vertex| {
        var y := GenNamed(name, expr, was, t, |was|, z - |t.vertex|);
      }
    } else {
      assert GenOk(name, expr, was, t, |was|, x - |t.vertex|);
    }
  }

  /** Declared vertex x goes by the name of y's condition: the table has only the
      condition vertex. */
  lemma TakenName(name: string, expr: string, was: seq<Spec>, t: Names, x: nat, y: nat)
    requires NamedUpTo(name, expr, was, t, |was|, |was|) && x < |was| && y < |was| && Generates(was, y)
    requires DeclName(name, expr, was, x) == CondName(name, expr, was, y)
    ensures Hidden(t, x)
  {
    assert DoneOk(was, t, y) && Identified(name, expr, was, x, t.vertex[x]);
    var j := t.conds[was[y].expecting];
    assert CondOk(t, was[y].expecting);
    var z := GenNamed(name, expr, was, t, |was|, j);
    assert z == y;
    assert GenOk(name, expr, was, t, |was|, j);
  }

  // ---------------------------------------------------------------- the graph

  ghost function Positions(e: Edges, order: seq<nat>, u: nat): seq<nat> {
    seq(|order|, i requires 0 <= i < |order| =>
      var w := order[i];
      if w < |e.depIdx| && u in e.depIdx[w] then e.depIdx[w][u] else 0)
  }

  /** The graph the executor runs: attrs describes its vertices, and each vertex
      context knows its position at each successor */
  ghost function GraphOf(attrs: seq<Vertex>, e: Edges, deps: seq<seq<nat>>, order: seq<seq<nat>>): Graph {
    Graph(attrs, deps, e.masks, order,
          seq(|order|, u requires 0 <= u < |order| => Positions(e, order[u], u)))
  }

  lemma GraphEdge(n: nat, e: Edges, deps: seq<seq<nat>>, log: seq<Decl>, order: seq<seq<nat>>, u: nat, i: nat)
    requires EdgesOk(n, e, deps, log) && Lists(order, e.succs) && u < n && i < |order[u]|
    ensures var w := order[u][i];
      && w < n && u in e.depIdx[w] && e.depIdx[w][u] < |deps[w]| && deps[w][e.depIdx[w][u]] == u
      && Positions(e, order[u], u)[i] == e.depIdx[w][u]
  {
    var w := order[u][i];
    assert w in order[u] && w in e.succs[u];
    assert PairOk(e, log, u, w) && RowOk(e, deps, w);
  }

  lemma GraphDep(n: nat, e: Edges, deps: seq<seq<nat>>, log: seq<Decl>, order: seq<seq<nat>>, w: nat, k: nat)
    requires EdgesOk(n, e, deps, log) && Lists(order, e.succs) && w < n && k < |deps[w]|
    ensures var u := deps[w][k];
      u < n && exists i :: 0 <= i < |order[u]| && order[u][i] == w && Positions(e, order[u], u)[i] == k
  {
    var u := deps[w][k];
    assert RowOk(e, deps, w) && u in e.depIdx[w];
    assert PairOk(e, log, u, w);
    assert w in e.succs[u] && w in order[u];
    var i :| 0 <= i < |order[u]| && order[u][i] == w;
    assert Positions(e, order[u], u)[i] == k;
  }

  /** Successor lists and dependency tables mirror each other. */
  lemma GraphMirrored(n: nat, attrs: seq<Vertex>, e: Edges, deps: seq<seq<nat>>, log: seq<Decl>, order: seq<seq<nat>>)
    requires EdgesOk(n, e, deps, log) && Lists(order, e.succs) && |attrs| == n
    ensures Mirrored(GraphOf(attrs, e, deps, order))
  {
    var g := GraphOf(attrs, e, deps, order);
    forall v: nat | v < n
      ensures |g.masks[v]| == |g.deps[v]|
    {
      assert RowOk(e, deps, v);
    }
    assert Sized(g);
    forall u, i | 0 <= u < n && 0 <= i < |g.succs[u]|
      ensures EdgeWell(g, u, i)
    {
      GraphEdge(n, e, deps, log, order, u, i);
    }
    forall w, k | 0 <= w < n && 0 <= k < |g.deps[w]|
      ensures DepWell(g, w, k)
    {
      GraphDep(n, e, deps, log, order, w, k);
    }
  }

  /** The graph has exactly the declared edges, each with the mask its first
      declaration gave it. */
  lemma GraphDeclared(
    n: nat, attrs: seq<Vertex>, e: Edges, deps: seq<seq<nat>>, log: seq<Decl>, order: seq<seq<nat>>, w: nat)
    requires EdgesOk(n, e, deps, log) && Lists(order, e.succs) && |attrs| == n && w < n
    ensures var g := GraphOf(attrs, e, deps, order);
      && NoDup(g.deps[w])
      && (forall u :: 0 <= u < n ==> (u in g.deps[w] <==> Declared(log, u, w)))
      && (forall k :: 0 <= k < |g.deps[w]| ==>
            k < |g.masks[w]| && g.masks[w][k] == FirstMask(log, g.deps[w][k], w))
  {
    assert RowOk(e, deps, w);
    forall u: nat | u < n
      ensures u in deps[w] <==> Declared(log, u, w)
    {
      assert PairOk(e, log, u, w);
    }
    forall k: nat | k < |deps[w]|
      ensures e.masks[w][k] == FirstMask(log, deps[w][k], w)
    {
      assert PairOk(e, log, deps[w][k], w);
    }
  }
}
