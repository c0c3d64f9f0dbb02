/** Looking for circles by unbounded descent through successors. The search
    keeps no record of where it has been, so its stack may run out: `depth` is
    how many nested calls are left. */
module DagCircle {
  import opened Collections
  import opened DagGraph

  datatype Answer = Yes | No | TooDeep

  /** FindVertexInSuccessors of x */
  function Find(succs: seq<seq<nat>>, x: nat, v: nat, depth: nat): Answer
    decreases depth, 0
  {
    if x >= |succs| || succs[x] == [] then No
    else if v in succs[x] then Yes
    else if depth == 0 then TooDeep
    else FindEach(succs, succs[x], v, depth - 1)
  }

  function FindEach(succs: seq<seq<nat>>, xs: seq<nat>, v: nat, depth: nat): Answer
    decreases depth, |xs| + 1
  {
    if xs == [] then No
    else
      var a := Find(succs, xs[0], v, depth);
      if a == No then FindEach(succs, xs[1..], v, depth) else a
  }

  lemma ReachesCons(g: Graph, x: nat, y: nat, v: nat)
    requires Sized(g) && x < |g.verts| && y in g.succs[x] && Reaches(g, y, v)
    ensures Reaches(g, x, v)
  {
    var p :| IsWalk(g, p) && |p| >= 2 && p[0] == y && p[|p| - 1] == v;
    var q := [x] + p;
    assert forall i :: 0 <= i < |q| - 1 ==> q[i + 1] in g.succs[q[i]] by {
      forall i | 0 <= i < |q| - 1
        ensures q[i + 1] in g.succs[q[i]]
      {
        if i > 0 { assert p[i - 1 + 1] in g.succs[p[i - 1]]; }
      }
    }
    assert IsWalk(g, q);
  }

  lemma ReachesFirst(g: Graph, x: nat, v: nat)
    requires Sized(g) && Reaches(g, x, v)
    ensures x < |g.verts|
    ensures v in g.succs[x] || exists y :: y in g.succs[x] && Reaches(g, y, v)
  {
    var p :| IsWalk(g, p) && |p| >= 2 && p[0] == x && p[|p| - 1] == v;
    assert p[0 + 1] in g.succs[p[0]];
    if |p| > 2 {
      var q := p[1..];
      forall i | 0 <= i < |q| - 1
        ensures q[i + 1] in g.succs[q[i]]
      {
        assert p[i + 1 + 1] in g.succs[p[i + 1]];
      }
      assert IsWalk(g, q) && q[0] == p[1] && q[|q| - 1] == v;
      assert Reaches(g, p[1], v);
    }
  }

  /** Whenever the search answers, it answers right. */
  lemma {:induction false} FindExact(g: Graph, x: nat, v: nat, depth: nat)
    requires Mirrored(g) && x < |g.verts|
    ensures Find(g.succs, x, v, depth) == Yes ==> Reaches(g, x, v)
    ensures Find(g.succs, x, v, depth) == No ==> !Reaches(g, x, v)
    decreases depth, 0
  {
    if v in g.succs[x] {
      var i :| 0 <= i < |g.succs[x]| && g.succs[x][i] == v;
      assert EdgeWell(g, x, i);
      EdgeReaches(g, x, v);
    } else if depth > 0 {
      FindEachExact(g, x, g.succs[x], v, depth - 1);
      if Reaches(g, x, v) { ReachesFirst(g, x, v); }
    } else if g.succs[x] == [] && Reaches(g, x, v) {
      ReachesFirst(g, x, v);
    }
  }

  lemma {:induction false} FindEachExact(g: Graph, x: nat, xs: seq<nat>, v: nat, depth: nat)
    requires Mirrored(g) && x < |g.verts| && forall y :: y in xs ==> y in g.succs[x]
    ensures FindEach(g.succs, xs, v, depth) == Yes ==> Reaches(g, x, v)
    ensures FindEach(g.succs, xs, v, depth) == No ==> forall y :: y in xs ==> !Reaches(g, y, v)
    decreases depth, |xs| + 1
  {
    if xs != [] {
      var y := xs[0];
      assert y in xs;
      var i :| 0 <= i < |g.succs[x]| && g.succs[x][i] == y;
      assert EdgeWell(g, x, i);
      FindExact(g, y, v, depth);
      FindEachExact(g, x, xs[1..], v, depth);
      if Find(g.succs, y, v, depth) == Yes { ReachesCons(g, x, y, v); }
    }
  }

  lemma RankBelow(g: Graph, v: nat)
    requires Sized(g) && Acyclic(g) && v < |g.verts|
    ensures Rank(g, v) < |g.verts|
  {
    var all := Indices(|g.verts|);
    assert v !in Ancestors(g, v);
    SubsetCard(Ancestors(g, v), all - {v});
  }

  /** Without circles the search is never deeper than there are vertices. */
  lemma {:induction false} FindEnds(g: Graph, x: nat, v: nat, depth: nat)
    requires Mirrored(g) && Acyclic(g) && x < |g.verts| && depth + Rank(g, x) >= |g.verts|
    ensures Find(g.succs, x, v, depth) != TooDeep
    decreases depth, 0
  {
    RankBelow(g, x);
    if g.succs[x] != [] && v !in g.succs[x] {
      FindEachEnds(g, x, g.succs[x], v, depth - 1);
    }
  }

  lemma {:induction false} FindEachEnds(g: Graph, x: nat, xs: seq<nat>, v: nat, depth: nat)
    requires Mirrored(g) && Acyclic(g) && x < |g.verts| && depth + 1 + Rank(g, x) >= |g.verts|
    requires forall y :: y in xs ==> y in g.succs[x]
    ensures FindEach(g.succs, xs, v, depth) != TooDeep
    decreases depth, |xs| + 1
  {
    if xs != [] {
      var y := xs[0];
      assert y in xs;
      var i :| 0 <= i < |g.succs[x]| && g.succs[x][i] == y;
      assert EdgeWell(g, x, i);
      RankGrows(g, x, y);
      FindEnds(g, y, v, depth);
      FindEachEnds(g, x, xs[1..], v, depth);
    }
  }

  /** The searches from the given vertices for themselves, up to the first that
      finds a circle */
  function Test(succs: seq<seq<nat>>, table: seq<nat>, depth: nat): Answer {
    if table == [] then No
    else
      var a := Find(succs, table[0], table[0], depth);
      if a == No then Test(succs, table[1..], depth) else a
  }

  /** TestCircle: search from every vertex of the table, in its order */
  method TestCircle(ghost g: Graph, succs: seq<seq<nat>>, table: seq<nat>, depth: nat) returns (a: Answer)
    requires Mirrored(g) && g.succs == succs && forall v :: v in table ==> v < |succs|
    ensures a == Test(succs, table, depth)
    ensures a == Yes ==> exists v :: v in table && Reaches(g, v, v)
    ensures a == No ==> forall v :: v in table ==> !Reaches(g, v, v)
    ensures Acyclic(g) && depth >= |succs| ==> a == No
  {
    for i := 0 to |table|
      invariant Test(succs, table, depth) == Test(succs, table[i..], depth)
      invariant forall v :: v in table[..i] ==> !Reaches(g, v, v)
    {
      var v := table[i];
      assert v in table;
      a := Find(succs, v, v, depth);
      FindExact(g, v, v, depth);
      if Acyclic(g) && depth >= |succs| { FindEnds(g, v, v, depth); }
      if a != No { return; }
    }
    a := No;
  }

  /** A circle that does not come back to where the search began swallows it:
      with successors 0 -> 1, 1 -> 2 and 2 -> 1 the search from 0 for 0 exhausts
      any stack. */
  ghost function Lasso(vs: seq<Vertex>): Graph {
    Graph(vs, [[], [0, 2], [1]], [[], [OnAll, OnAll], [OnAll]], [[1], [2], [1]], [[0], [0], [1]])
  }

  lemma {:induction false} LassoDescends(vs: seq<Vertex>, x: nat, depth: nat)
    requires |vs| == 3 && (x == 1 || x == 2)
    ensures Sized(Lasso(vs)) && Find(Lasso(vs).succs, x, 0, depth) == TooDeep
    decreases depth
  {
    var g := Lasso(vs);
    var y := 3 - x;
    assert g.succs[x] == [y];
    if depth > 0 {
      LassoDescends(vs, y, depth - 1);
      assert FindEach(g.succs, [y], 0, depth - 1) == TooDeep;
    }
  }

  lemma LassoHangs(vs: seq<Vertex>, depth: nat)
    requires |vs| == 3
    ensures Mirrored(Lasso(vs)) && Find(Lasso(vs).succs, 0, 0, depth) == TooDeep
  {
    var g := Lasso(vs);
    assert g.succs[0] == [1];
    if depth > 0 {
      LassoDescends(vs, 1, depth - 1);
      assert FindEach(g.succs, [1], 0, depth - 1) == TooDeep;
    }
    assert EdgeWell(g, 0, 0) && EdgeWell(g, 1, 0) && EdgeWell(g, 2, 0);
    assert g.succs[0][0] == 1 && g.succs[1][0] == 2 && g.succs[2][0] == 1;
    assert DepWell(g, 1, 0) && DepWell(g, 1, 1) && DepWell(g, 2, 0);
  }
}
