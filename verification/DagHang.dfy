/** Exactly when the search for circles ends. Successor sets and the vertex table
    are unordered, so what counts is whether it ends in every order. */
module DagHang {
  import opened Collections
  import opened DagGraph
  import opened DagCircle

  /** The search for v goes on below x: v is not a successor of x. */
  ghost predicate Passes(sets: seq<set<nat>>, v: nat, x: nat) {
    x < |sets| && v !in sets[x]
  }

  /** p is a walk along successors that never has v next. */
  ghost predicate IsPass(sets: seq<set<nat>>, v: nat, p: seq<nat>) {
    && |p| > 0
    && (forall i :: 0 <= i < |p| ==> Passes(sets, v, p[i]))
    && (forall i :: 0 <= i < |p| - 1 ==> p[i + 1] in sets[p[i]])
  }

  ghost predicate Repeats(p: seq<nat>) {
    exists i, j :: 0 <= i < j < |p| && p[i] == p[j]
  }

  /** Some walk from v, past vertices that do not have v next, comes to a vertex
      twice. */
  ghost predicate Revisits(sets: seq<set<nat>>, v: nat) {
    exists p :: IsPass(sets, v, p) && p[0] == v && Repeats(p)
  }

  // ----------------------------------------------------- a deep search goes round

  /** A search that is too deep has gone down such a walk. */
  lemma {:induction false} DeepWalk(order: seq<seq<nat>>, sets: seq<set<nat>>, x: nat, v: nat, depth: nat)
    returns (p: seq<nat>)
    requires Lists(order, sets) && Find(order, x, v, depth) == TooDeep
    ensures IsPass(sets, v, p) && p[0] == x && |p| == depth + 1
    decreases depth, 0
  {
    assert Orders(order[x], sets[x]) && Passes(sets, v, x);
    if depth == 0 {
      p := [x];
    } else {
      var y, q := DeepChild(order, sets, order[x], v, depth - 1);
      p := [x] + q;
      forall i | 0 <= i < |p| - 1
        ensures p[i + 1] in sets[p[i]]
      {
        if i > 0 { assert q[i - 1 + 1] in sets[q[i - 1]]; }
      }
    }
  }

  lemma {:induction false} DeepChild(order: seq<seq<nat>>, sets: seq<set<nat>>, xs: seq<nat>, v: nat, depth: nat)
    returns (y: nat, p: seq<nat>)
    requires Lists(order, sets) && FindEach(order, xs, v, depth) == TooDeep
    ensures y in xs && IsPass(sets, v, p) && p[0] == y && |p| == depth + 1
    decreases depth, |xs| + 1
  {
    if Find(order, xs[0], v, depth) == No {
      y, p := DeepChild(order, sets, xs[1..], v, depth);
    } else {
      y := xs[0];
      p := DeepWalk(order, sets, y, v, depth);
    }
  }

  /** As many different numbers as there are below n at most. */
  lemma {:induction false} Pigeonhole(p: seq<nat>, n: nat)
    requires NoDup(p) && forall i :: 0 <= i < |p| ==> p[i] < n
    ensures |p| <= n
  {
    CountDistinct(p);
    SubsetCard(Members(p), Indices(n));
  }

  ghost function Members(p: seq<nat>): set<nat> {
    set x | x in p
  }

  lemma {:induction false} CountDistinct(p: seq<nat>)
    requires NoDup(p)
    ensures |Members(p)| == |p|
  {
    if p != [] {
      var rest, last := p[..|p| - 1], p[|p| - 1];
      CountDistinct(rest);
      assert p == rest + [last];
      assert Members(p) == Members(rest) + {last};
    }
  }

  // ------------------------------------------------ a round walk makes a deep search

  /** The first vertex a walk comes to again */
  lemma {:induction false} FirstRepeat(p: seq<nat>) returns (i: nat, j: nat)
    requires Repeats(p)
    ensures i < j < |p| && p[i] == p[j] && NoDup(p[..j])
  {
    var rest := p[..|p| - 1];
    if NoDup(rest) {
      i, j :| 0 <= i < j < |p| && p[i] == p[j];
      assert rest[i] == p[i];
      assert j == |rest|;
      assert p[..j] == rest;
    } else {
      i, j := FirstRepeat(rest);
      assert rest[..j] == p[..j];
    }
  }

  lemma {:induction false} SomeOrder(s: set<nat>) returns (o: seq<nat>)
    ensures Orders(o, s)
  {
    if s == {} {
      o := [];
    } else {
      var x :| x in s;
      o := OrderFrom(s, x);
    }
  }

  /** Any member can come first. */
  lemma {:induction false} OrderFrom(s: set<nat>, x: nat) returns (o: seq<nat>)
    requires x in s
    ensures Orders(o, s) && |o| > 0 && o[0] == x
    decreases |s|
  {
    o := [x];
    if y :| y in s && y != x {
      var rest := OrderFrom(s - {x}, y);
      o := [x] + rest;
    }
  }

  /** The successors of p[k], for k below j, list p[k + 1] first. */
  ghost predicate Leads(p: seq<nat>, j: nat, x: nat, o: seq<nat>)
    requires j < |p|
  {
    forall k :: 0 <= k < j && p[k] == x ==> o != [] && o[0] == p[k + 1]
  }

  lemma LeadingOrder(sets: seq<set<nat>>, v: nat, p: seq<nat>, j: nat, x: nat) returns (o: seq<nat>)
    requires IsPass(sets, v, p) && j < |p| && NoDup(p[..j]) && x < |sets|
    ensures Orders(o, sets[x]) && Leads(p, j, x, o)
  {
    if k: nat :| k < j && p[k] == x {
      assert p[k + 1] in sets[p[k]];
      o := OrderFrom(sets[x], p[k + 1]);
      forall l | 0 <= l < j && p[l] == x
        ensures l == k
      {
        assert p[..j][l] == p[..j][k];
      }
    } else {
      o := SomeOrder(sets[x]);
    }
  }

  lemma {:induction false} LeadingLists(sets: seq<set<nat>>, v: nat, p: seq<nat>, j: nat, n: nat)
    returns (order: seq<seq<nat>>)
    requires IsPass(sets, v, p) && j < |p| && NoDup(p[..j]) && n <= |sets|
    ensures |order| == n && forall x :: 0 <= x < n ==> Orders(order[x], sets[x]) && Leads(p, j, x, order[x])
  {
    order := [];
    if n > 0 {
      var rest := LeadingLists(sets, v, p, j, n - 1);
      var o := LeadingOrder(sets, v, p, j, n - 1);
      order := rest + [o];
    }
  }

  /** With such lists the search goes round for ever. */
  lemma {:induction false} RunsRound(
    order: seq<seq<nat>>, sets: seq<set<nat>>, v: nat, p: seq<nat>, i: nat, j: nat, k: nat, depth: nat)
    requires Lists(order, sets) && IsPass(sets, v, p) && i < j < |p| && p[i] == p[j] && k < j
    requires forall x :: 0 <= x < |sets| ==> Leads(p, j, x, order[x])
    ensures Find(order, p[k], v, depth) == TooDeep
    decreases depth
  {
    var x := p[k];
    assert Passes(sets, v, x) && Orders(order[x], sets[x]) && Leads(p, j, x, order[x]);
    if depth > 0 {
      RunsRound(order, sets, v, p, i, j, if k + 1 < j then k + 1 else i, depth - 1);
      assert FindEach(order, order[x], v, depth - 1) == Find(order, p[k + 1], v, depth - 1);
    }
  }

  lemma RoundLists(sets: seq<set<nat>>, v: nat) returns (order: seq<seq<nat>>)
    requires Revisits(sets, v)
    ensures Lists(order, sets) && forall depth :: Find(order, v, v, depth) == TooDeep
  {
    var p :| IsPass(sets, v, p) && p[0] == v && Repeats(p);
    var i, j := FirstRepeat(p);
    order := LeadingLists(sets, v, p, j, |sets|);
    forall depth: nat
      ensures Find(order, v, v, depth) == TooDeep
    {
      RunsRound(order, sets, v, p, i, j, 0, depth);
    }
  }

  // -------------------------------------------------------------- exactly when

  /** Without such a walk as many nested calls as there are vertices will do. */
  lemma DepthEnough(order: seq<seq<nat>>, sets: seq<set<nat>>, v: nat, depth: nat)
    requires Lists(order, sets) && !Revisits(sets, v) && depth >= |sets|
    ensures Find(order, v, v, depth) != TooDeep
  {
    if Find(order, v, v, depth) == TooDeep {
      var p := DeepWalk(order, sets, v, v, depth);
      if NoDup(p) { Pigeonhole(p, |sets|); }
    }
  }

  /** The search from v for v ends in every order of the successor sets. */
  ghost predicate SearchEnds(sets: seq<set<nat>>, v: nat) {
    forall order :: Lists(order, sets) ==> exists depth :: Find(order, v, v, depth) != TooDeep
  }

  lemma SearchEndsExactly(sets: seq<set<nat>>, v: nat)
    ensures SearchEnds(sets, v) <==> !Revisits(sets, v)
  {
    if Revisits(sets, v) {
      var order := RoundLists(sets, v);
    } else {
      forall order | Lists(order, sets)
        ensures exists depth :: Find(order, v, v, depth) != TooDeep
      {
        DepthEnough(order, sets, v, |sets|);
      }
    }
  }

  lemma {:induction false} TestEnough(order: seq<seq<nat>>, sets: seq<set<nat>>, table: seq<nat>, depth: nat)
    requires Lists(order, sets) && depth >= |sets| && forall v :: v in table ==> !Revisits(sets, v)
    ensures Test(order, table, depth) != TooDeep
  {
    if table != [] {
      DepthEnough(order, sets, table[0], depth);
      TestEnough(order, sets, table[1..], depth);
    }
  }

  /** TestCircle ends in every order of the successor sets and of the table. */
  ghost predicate TestEnds(sets: seq<set<nat>>, table: set<nat>) {
    forall order, vs :: Lists(order, sets) && Orders(vs, table) ==> exists depth :: Test(order, vs, depth) != TooDeep
  }

  lemma TestEndsExactly(sets: seq<set<nat>>, table: set<nat>)
    ensures TestEnds(sets, table) <==> forall v :: v in table ==> !Revisits(sets, v)
  {
    if v :| v in table && Revisits(sets, v) {
      var order := RoundLists(sets, v);
      var vs := OrderFrom(table, v);
      forall depth: nat
        ensures Test(order, vs, depth) == TooDeep
      {
        assert Find(order, v, v, depth) == TooDeep;
      }
      assert !TestEnds(sets, table);
    } else {
      forall order, vs | Lists(order, sets) && Orders(vs, table)
        ensures exists depth :: Test(order, vs, depth) != TooDeep
      {
        TestEnough(order, sets, vs, |sets|);
      }
    }
  }
}
