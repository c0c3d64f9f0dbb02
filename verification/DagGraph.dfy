/** A built execution graph: what Graph::Build and GraphContext::Setup leave
    behind for the executor, and the reference meaning of running it. */
module DagGraph {
  import opened Collections

  /** Result of a vertex; a dependency slot starts Invalid */
  datatype Result = Invalid | Ok | Err

  /** Which results of a dependency let a vertex run */
  datatype Expected = OnOk | OnErr | OnAll

  predicate Meets(r: Result, e: Expected) {
    match r
    case Invalid => false
    case Ok => e != OnErr
    case Err => e != OnOk
  }

  /** expect_config: absent, or a bool variable (possibly negated, possibly
      missing from the data context) */
  datatype ConfigTest = NoConfig | ConfigVar(negated: bool, found: bool, value: bool)

  predicate ConfigHolds(c: ConfigTest) {
    match c
    case NoConfig => true
    case ConfigVar(negated, found, value) => (found && value) != negated
  }

  /** What executing a vertex depends on besides its dependencies' results: a
      processor or a subgraph to run, whether the deadline has passed by then,
      and the outcome that run would have */
  datatype Vertex = Vertex(
    hasProcessor: bool, hasSubgraph: bool, config: ConfigTest, late: bool,
    injects: bool, rc: int, ignoreError: bool, isCond: bool)

  const CODE_SKIP: int := 3

  /** deps[w][k] is the k-th dependency of w, masks[w][k] what it expects of it;
      succs[u][i] is the i-th successor of u, depIdx[u][i] u's index there. */
  datatype Graph = Graph(
    verts: seq<Vertex>, deps: seq<seq<nat>>, masks: seq<seq<Expected>>,
    succs: seq<seq<nat>>, depIdx: seq<seq<nat>>)

  /** order lists the members of s once each. */
  ghost predicate Orders(order: seq<nat>, s: set<nat>) {
    NoDup(order) && forall w :: w in order <==> w in s
  }

  /** order lists each vertex's successors once, in some order. */
  ghost predicate Lists(order: seq<seq<nat>>, succs: seq<set<nat>>) {
    |order| == |succs| && forall u :: 0 <= u < |succs| ==> Orders(order[u], succs[u])
  }

  ghost predicate Sized(g: Graph) {
    && |g.deps| == |g.verts| && |g.masks| == |g.verts| && |g.succs| == |g.verts| && |g.depIdx| == |g.verts|
    && (forall v :: 0 <= v < |g.verts| ==> |g.masks[v]| == |g.deps[v]|)
    && (forall v :: 0 <= v < |g.verts| ==> |g.depIdx[v]| == |g.succs[v]|)
  }

  ghost predicate IsEdge(g: Graph, u: nat, i: nat)
    requires Sized(g)
  {
    u < |g.verts| && i < |g.succs[u]|
  }

  /** A successor entry points back at the dependency slot it fills. */
  ghost predicate EdgeWell(g: Graph, u: nat, i: nat)
    requires Sized(g) && IsEdge(g, u, i)
  {
    var w, k := g.succs[u][i], g.depIdx[u][i];
    w < |g.verts| && k < |g.deps[w]| && g.deps[w][k] == u
  }

  /** A dependency slot is filled by some successor entry. */
  ghost predicate DepWell(g: Graph, w: nat, k: nat)
    requires Sized(g) && w < |g.verts| && k < |g.deps[w]|
  {
    var u := g.deps[w][k];
    && u < |g.verts|
    && exists i :: 0 <= i < |g.succs[u]| && g.succs[u][i] == w && g.depIdx[u][i] == k
  }

  ghost predicate Mirrored(g: Graph) {
    && Sized(g)
    && (forall u, i :: 0 <= u < |g.verts| && 0 <= i < |g.succs[u]| ==> EdgeWell(g, u, i))
    && (forall w, k :: 0 <= w < |g.verts| && 0 <= k < |g.deps[w]| ==> DepWell(g, w, k))
    && (forall u :: 0 <= u < |g.verts| ==> NoDup(g.succs[u]))
  }

  // ------------------------------------------------------------------- paths

  /** p is a walk along successor edges. */
  ghost predicate IsWalk(g: Graph, p: seq<nat>)
    requires Sized(g)
  {
    && |p| > 0
    && (forall i :: 0 <= i < |p| ==> p[i] < |g.verts|)
    && (forall i :: 0 <= i < |p| - 1 ==> p[i + 1] in g.succs[p[i]])
  }

  /** There is a walk of at least one edge from u to v. */
  ghost predicate Reaches(g: Graph, u: nat, v: nat)
    requires Sized(g)
  {
    exists p :: IsWalk(g, p) && |p| >= 2 && p[0] == u && p[|p| - 1] == v
  }

  ghost predicate Acyclic(g: Graph)
    requires Sized(g)
  {
    forall v :: 0 <= v < |g.verts| ==> !Reaches(g, v, v)
  }

  ghost predicate WellBuilt(g: Graph) {
    Mirrored(g) && Acyclic(g) && |g.verts| > 0
  }

  ghost function Ancestors(g: Graph, v: nat): set<nat>
    requires Sized(g)
  {
    set u | 0 <= u < |g.verts| && Reaches(g, u, v)
  }

  /** A topological rank: how many vertices come before v */
  ghost function Rank(g: Graph, v: nat): nat
    requires Sized(g)
  {
    |Ancestors(g, v)|
  }

  lemma EdgeReaches(g: Graph, u: nat, w: nat)
    requires Sized(g) && u < |g.verts| && w < |g.verts| && w in g.succs[u]
    ensures Reaches(g, u, w)
  {
    assert IsWalk(g, [u, w]);
  }

  lemma ReachesStep(g: Graph, x: nat, u: nat, w: nat)
    requires Sized(g) && Reaches(g, x, u) && u < |g.verts| && w < |g.verts| && w in g.succs[u]
    ensures Reaches(g, x, w)
  {
    var p :| IsWalk(g, p) && |p| >= 2 && p[0] == x && p[|p| - 1] == u;
    var q := p + [w];
    assert IsWalk(g, q) && q[0] == x && q[|q| - 1] == w;
  }

  /** In an acyclic graph every edge goes up in rank. */
  lemma RankGrows(g: Graph, u: nat, w: nat)
    requires Sized(g) && Acyclic(g) && u < |g.verts| && w < |g.verts| && w in g.succs[u]
    ensures Rank(g, u) < Rank(g, w)
  {
    var au, aw := Ancestors(g, u), Ancestors(g, w);
    EdgeReaches(g, u, w);
    forall x | x in au
      ensures x in aw
    {
      ReachesStep(g, x, u, w);
    }
    assert u in aw && u !in au;
    SubsetCard(au, aw - {u});
  }

  lemma DepRank(g: Graph, w: nat, k: nat)
    requires WellBuilt(g) && w < |g.verts| && k < |g.deps[w]|
    ensures g.deps[w][k] < |g.verts| && Rank(g, g.deps[w][k]) < Rank(g, w)
  {
    assert DepWell(g, w, k);
    RankGrows(g, g.deps[w][k], w);
  }

  /** Going back along dependencies from any vertex leads to a start vertex. */
  lemma {:induction false} HasStart(g: Graph, v: nat) returns (start: nat)
    requires WellBuilt(g) && v < |g.verts|
    ensures start < |g.verts| && g.deps[start] == []
    decreases Rank(g, v)
  {
    if g.deps[v] == [] {
      start := v;
    } else {
      DepRank(g, v, 0);
      start := HasStart(g, g.deps[v][0]);
    }
  }

  // -------------------------------------------------------- reference meaning

  /** The code a vertex ends with, given the results in its dependency slots */
  function Decide(v: Vertex, masks: seq<Expected>, slots: seq<Result>): int
    requires |masks| == |slots|
  {
    if !v.hasProcessor && !v.hasSubgraph then CODE_SKIP
    else if exists k :: 0 <= k < |slots| && !Meets(slots[k], masks[k]) then CODE_SKIP
    else if !ConfigHolds(v.config) || v.late then CODE_SKIP
    else if !v.hasProcessor then v.rc
    else if !v.injects then CODE_SKIP
    else if v.ignoreError && !v.isCond then 0
    else v.rc
  }

  /** The codes the source stores: V_RESULT_INVALID, OK, ERR and the masks */
  function ResultBits(r: Result): bv8 {
    match r
    case Invalid => 0
    case Ok => 1
    case Err => 2
  }

  function MaskBits(e: Expected): bv8 {
    match e
    case OnOk => 1
    case OnErr => 2
    case OnAll => 3
  }

  /** The loop over the dependency slots in VertexContext::Execute: a slot stops
      it if it is unset or shares no bit with its mask */
  method MatchDependencies(slots: seq<Result>, masks: seq<Expected>) returns (matches: bool)
    requires |slots| == |masks|
    ensures matches <==> forall k :: 0 <= k < |slots| ==> Meets(slots[k], masks[k])
  {
    for i := 0 to |slots|
      invariant forall k :: 0 <= k < i ==> Meets(slots[k], masks[k])
    {
      if slots[i] == Invalid || ResultBits(slots[i]) & MaskBits(masks[i]) == 0 {
        return false;
      }
    }
    return true;
  }

  /** The test of expect_config: an absent variable counts as false, and a leading
      '!' turns the answer round */
  method MatchConfig(config: ConfigTest) returns (matches: bool)
    ensures matches == match config
                       case NoConfig => true
                       case ConfigVar(negated, found, value) => if negated then !(found && value) else found && value
  {
    matches := true;
    if config.ConfigVar? {
      matches := false;
      if config.found {
        matches := config.value;
      }
      if config.negated {
        matches := !matches;
      }
    }
  }

  /** ExecuteProcessor and ExecuteSubGraph, by the outcome of what they run */
  method RunVertex(v: Vertex) returns (code: int)
    ensures v.hasProcessor && !v.injects ==> code == CODE_SKIP
    ensures v.hasProcessor && v.injects && v.ignoreError && !v.isCond ==> code == 0
    ensures v.hasProcessor && v.injects && !(v.ignoreError && !v.isCond) ==> code == v.rc
    ensures !v.hasProcessor ==> code == v.rc
  {
    if v.hasProcessor {
      if !v.injects {
        return CODE_SKIP;
      }
      return if v.ignoreError && !v.isCond then 0 else v.rc;
    }
    return v.rc;
  }

  /** What has to hold for a vertex to end well, given its dependencies' results */
  ghost predicate Succeeds(v: Vertex, masks: seq<Expected>, results: seq<Result>)
    requires |masks| == |results|
  {
    && (v.hasProcessor || v.hasSubgraph)
    && (forall k :: 0 <= k < |results| ==> Meets(results[k], masks[k]))
    && (v.config.ConfigVar? ==>
          if v.config.negated then !(v.config.found && v.config.value) else v.config.found && v.config.value)
    && !v.late
    && (v.hasProcessor ==> v.injects && (v.rc == 0 || (v.ignoreError && !v.isCond)))
    && (!v.hasProcessor ==> v.rc == 0)
  }

  /** VertexContext::Execute: the code is that of the engine's action, and zero just
      when the vertex succeeds. */
  method Execute(v: Vertex, masks: seq<Expected>, slots: seq<Result>) returns (code: int)
    requires |masks| == |slots|
    ensures code == Decide(v, masks, slots)
    ensures code == 0 <==> Succeeds(v, masks, slots)
    ensures (exists k :: 0 <= k < |slots| && !Meets(slots[k], masks[k])) ==> code == CODE_SKIP
  {
    var matches := false;
    if v.hasProcessor || v.hasSubgraph {
      matches := MatchDependencies(slots, masks);
    }
    if matches {
      matches := MatchConfig(v.config);
    }
    if !matches || v.late {
      code := CODE_SKIP;
    } else {
      code := RunVertex(v);
    }
  }

  /** What Decide means */
  lemma DecideExactly(v: Vertex, masks: seq<Expected>, slots: seq<Result>)
    requires |masks| == |slots|
    ensures ResultOf(Decide(v, masks, slots)) == Ok <==> Succeeds(v, masks, slots)
  {
  }

  function ResultOf(code: int): Result {
    if code == 0 then Ok else Err
  }

  /** The code of a vertex by recursion over the graph, no schedule involved */
  ghost function Meaning(g: Graph, v: nat): int
    requires WellBuilt(g) && v < |g.verts|
    decreases Rank(g, v)
  {
    Decide(g.verts[v], g.masks[v],
      seq(|g.deps[v]|, k requires 0 <= k < |g.deps[v]| => DepRank(g, v, k); ResultOf(Meaning(g, g.deps[v][k]))))
  }
}
