/** Build and executor together: what a vertex takes as input has been produced
    by the time it runs. */
module DagRun {
  import opened DagGraph
  import opened DagTables
  import opened DagEngine
  import opened DagBuild

  lemma {:induction false} SourceDeclared(producers: map<string, nat>, v: nat, d: Data, ids: seq<string>, id: string)
    requires id in ids && id in producers && producers[id] != v
    ensures Decl(producers[id], v, NeedOf(d)) in SourcesDecls(producers, v, d, ids)
    decreases |ids|
  {
    var last := ids[|ids| - 1];
    if id == last {
      assert SourceDecls(producers, v, d, id) == [Decl(producers[id], v, NeedOf(d))];
    } else {
      SourceDeclared(producers, v, d, ids[..|ids| - 1], id);
    }
  }

  lemma {:induction false} InputDeclared(producers: map<string, nat>, v: nat, input: seq<Data>, d: Data, id: string)
    requires d in input && id in Sources(d) && id in producers && producers[id] != v
    ensures Decl(producers[id], v, NeedOf(d)) in InputDecls(producers, v, input)
    decreases |input|
  {
    if d == input[|input| - 1] {
      SourceDeclared(producers, v, d, Sources(d), id);
    } else {
      InputDeclared(producers, v, input[..|input| - 1], d, id);
    }
  }

  lemma PrefixGrows<T>(a: seq<T>, b: seq<T>, d: seq<T>, c: seq<T>)
    requires a <= b && c == b + d
    ensures a <= c
  {
  }

  lemma {:induction false} DeclsPrefix(t: Names, y: nat, x: nat, all: seq<Decl>)
    requires y <= x <= |t.vertex| + |t.gen| && ResolvableUpTo(t, x) && all == AllDecls(t, x)
    ensures ResolvableUpTo(t, y) && AllDecls(t, y) <= all
    decreases x
  {
    if y < x {
      var rest := AllDecls(t, x - 1);
      DeclsPrefix(t, y, x - 1, rest);
      PrefixGrows(AllDecls(t, y), rest, VertexDecls(t.nodes, t.producers, At(t, x - 1), x - 1), all);
    }
  }

  lemma VertexDeclared(t: Names, x: nat, v: nat, y: nat, ds: seq<Decl>)
    requires v < y == v + 1 <= x <= |t.vertex| + |t.gen| && ResolvableUpTo(t, x)
    requires ds == VertexDecls(t.nodes, t.producers, At(t, v), v)
    ensures forall d :: d in ds ==> d in AllDecls(t, x)
  {
    var some, all := AllDecls(t, y), AllDecls(t, x);
    DeclsPrefix(t, y, x, all);
    assert some == AllDecls(t, v) + ds;
    forall d | d in ds
      ensures d in all
    {
      assert d in some;
      var k :| 0 <= k < |some| && some[k] == d;
      assert all[k] == d;
    }
  }

  /** A vertex waits for every other vertex that produces one of its inputs. */
  lemma ProducerDeclared(t: Names, log: seq<Decl>, v: nat, d: Data, id: string)
    requires v < |t.vertex| + |t.gen| && ResolvableUpTo(t, |t.vertex| + |t.gen|)
    requires LogIs(t, |t.vertex| + |t.gen|, log)
    requires d in At(t, v).input && id in Sources(d) && id in t.producers && t.producers[id] != v
    ensures Declared(log, t.producers[id], v)
  {
    var n := At(t, v);
    InputDeclared(t.producers, v, n.input, d, id);
    VertexDeclared(t, |t.vertex| + |t.gen|, v, v + 1, VertexDecls(t.nodes, t.producers, n, v));
  }

  lemma IndexOf(xs: seq<nat>, x: nat) returns (k: nat)
    requires x in xs
    ensures k < |xs| && xs[k] == x
  {
    k :| k < |xs| && xs[k] == x;
  }

  lemma ProducerIsDependency(
    t: Names, n: nat, e: Edges, deps: seq<seq<nat>>, log: seq<Decl>, order: seq<seq<nat>>, attrs: seq<Vertex>,
    v: nat, d: Data, id: string)
    requires n == |t.vertex| + |t.gen| && ResolvableUpTo(t, n) && LogIs(t, n, log)
    requires DagTables.EdgesOk(n, e, deps, log) && Lists(order, e.succs) && |attrs| == n && v < n
    requires d in At(t, v).input && id in Sources(d) && id in t.producers && t.producers[id] != v
    ensures v < |deps| && t.producers[id] in deps[v]
  {
    ProducerDeclared(t, log, v, d, id);
    GraphDeclared(|attrs|, attrs, e, deps, log, order, v);
  }

  lemma AssembledDepends(b: Builder, order: seq<seq<nat>>, attrs: seq<Vertex>, v: nat, d: Data, id: string)
    requires b.Assembled() && Lists(order, b.succs) && v < |attrs| == |b.vertex| + |b.gen|
    requires d in At(b.Tables(), v).input && id in Sources(d) && id in b.producers && b.producers[id] != v
    ensures v < |b.deps| && b.producers[id] in b.deps[v]
  {
    ProducerIsDependency(b.Tables(), b.built, b.Links(), b.deps, b.log, order, attrs, v, d, id);
  }

  /** p has executed, has its final result and, if that is good, has emitted its
      outputs. */
  ghost predicate Finished(s: State, p: nat) {
    && p < |s.results| && p < |s.runs| && s.runs[p] == 1
    && s.results[p] != Invalid && (s.results[p] == Ok ==> p in s.emitted)
  }

  /** A dependency of a vertex about to execute has finished. */
  lemma DependencyDone(g: Graph, s: State, thread: nat, v: nat, p: nat)
    requires Inv(g, s) && thread < |s.threads| && s.threads[thread] == Exec(v) && v < |g.verts| && p in g.deps[v]
    ensures Finished(s, p)
  {
    ReadyToExecute(g, s, thread);
    var k := IndexOf(g.deps[v], p);
  }

  /** In every run of a graph that was built, a vertex about to execute finds
      that each other vertex that produces one of its inputs has finished. */
  lemma ProducerBeforeConsumer(
    b: Builder, order: seq<seq<nat>>, attrs: seq<Vertex>, g: Graph, starts: seq<nat>, run: seq<State>, s: State,
    thread: nat, v: nat, d: Data, id: string)
    requires b.Assembled() && Lists(order, b.succs) && |attrs| == |b.vertex| + |b.gen|
    requires g == b.GraphFor(attrs, order) && WellBuilt(g) && Starts(g, starts) && IsRun(g, starts, run)
    requires s == run[|run| - 1] && thread < |s.threads| && s.threads[thread] == Exec(v) && v < |attrs|
    requires d in At(b.Tables(), v).input && id in Sources(d) && id in b.producers && b.producers[id] != v
    ensures Finished(s, b.producers[id])
  {
    AssembledDepends(b, order, attrs, v, d, id);
    RunBounded(g, starts, run);
    DependencyDone(g, s, thread, v, b.producers[id]);
  }

  /** A graph that was built has a start vertex; its runs are bounded, and one
      that cannot go on has executed every vertex once and called the closure
      once. */
  lemma BuiltRunsComplete(
    b: Builder, order: seq<seq<nat>>, attrs: seq<Vertex>, g: Graph, starts: seq<nat>, run: seq<State>, s: State)
    requires b.Runnable(order) && |attrs| == |b.vertex| + |b.gen| > 0 && g == b.GraphFor(attrs, order)
    requires Sized(g) && Starts(g, starts) && IsRun(g, starts, run) && s == run[|run| - 1]
    ensures starts != [] && |run| - 1 <= Remaining(g, Initial(g, starts))
    ensures Halted(g, s) ==> s.fired == 1 && forall v :: 0 <= v < |attrs| ==> v < |s.runs| && s.runs[v] == 1
  {
    var start := HasStart(g, 0);
    assert start in starts;
    RunBounded(g, starts, run);
    if Halted(g, s) { CompleteRun(g, starts, run); }
  }
}
