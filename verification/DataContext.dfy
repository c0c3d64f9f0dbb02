/** Looking data up through parent and executed-child contexts, which may point
    at one another in circles. */
module DataContext {
  import opened Collections

  /** One graph run's data: its entries, the context of the graph it runs under
      and those of the subgraphs it has run. A child slot may be empty. */
  datatype Context<K, V> = Context(table: map<K, Option<V>>, parent: Option<nat>, children: seq<Option<nat>>)

  datatype Options = Options(withParent: bool, withContainer: bool, withChildren: bool)

  const DEFAULTS := Options(true, true, true)

  datatype Found = Nothing | In(ctx: nat) | InContainer

  /** Every pointer leads to a context. */
  ghost predicate Closed<K, V>(net: seq<Context<K, V>>) {
    && (forall x :: 0 <= x < |net| && net[x].parent.Some? ==> net[x].parent.value < |net|)
    && (forall x, i :: 0 <= x < |net| && 0 <= i < |net[x].children| && net[x].children[i].Some? ==>
          net[x].children[i].value < |net|)
  }

  /** A lookup at x with opt may go on to y. */
  ghost predicate Leads<K, V>(net: seq<Context<K, V>>, x: nat, opt: Options, y: nat)
    requires x < |net|
  {
    || (opt.withParent && net[x].parent == Some(y))
    || (opt.withChildren && Some(y) in net[x].children)
  }

  /** How a lookup goes on at y once it has left x, where it began with opt:
      children are asked with the defaults, so they ask their own parents too */
  function Below(opt: Options): Options {
    Options(true, false, opt.withChildren)
  }

  ghost predicate IsTrail<K, V>(net: seq<Context<K, V>>, top: nat, opt: Options, p: seq<nat>) {
    && |p| > 0 && p[0] == top
    && (forall i :: 0 <= i < |p| ==> p[i] < |net|)
    && (forall i :: 0 <= i < |p| - 1 ==> Leads(net, p[i], if p[i] == top then opt else Below(opt), p[i + 1]))
  }

  /** y can be reached from a lookup that began at top with opt. */
  ghost predicate Reachable<K, V>(net: seq<Context<K, V>>, top: nat, opt: Options, y: nat) {
    exists p :: IsTrail(net, top, opt, p) && p[|p| - 1] == y
  }

  lemma ReachableStep<K, V>(net: seq<Context<K, V>>, top: nat, opt: Options, x: nat, y: nat)
    requires Closed(net) && x < |net| && Reachable(net, top, opt, x)
    requires Leads(net, x, if x == top then opt else Below(opt), y)
    ensures y < |net| && Reachable(net, top, opt, y)
  {
    var p :| IsTrail(net, top, opt, p) && p[|p| - 1] == x;
    var q := p + [y];
    assert IsTrail(net, top, opt, q) && q[|q| - 1] == y;
  }

  /** A set that holds top and is left by no step holds all that is reachable. */
  lemma {:induction false} ClosedHolds<K, V>(
    net: seq<Context<K, V>>, top: nat, opt: Options, seen: set<nat>, p: seq<nat>)
    requires IsTrail(net, top, opt, p) && top in seen
    requires forall x, y :: x in seen && x < |net| && Leads(net, x, if x == top then opt else Below(opt), y) ==>
      y in seen
    ensures p[|p| - 1] in seen
    decreases |p|
  {
    if |p| > 1 {
      var q := p[..|p| - 1];
      assert forall i :: 0 <= i < |q| - 1 ==> Leads(net, q[i], if q[i] == top then opt else Below(opt), q[i + 1]) by {
        forall i | 0 <= i < |q| - 1
          ensures Leads(net, q[i], if q[i] == top then opt else Below(opt), q[i + 1])
        {
          assert Leads(net, p[i], if p[i] == top then opt else Below(opt), p[i + 1]);
        }
      }
      ClosedHolds(net, top, opt, seen, q);
      var i := |p| - 2;
      assert Leads(net, p[i], if p[i] == top then opt else Below(opt), p[i + 1]);
    }
  }

  ghost function At(top: nat, opt: Options, x: nat): Options {
    if x == top then opt else Below(opt)
  }

  /** y has been searched: no hit there, and every way on has been taken. */
  ghost predicate Searched<K, V>(
    net: seq<Context<K, V>>, hits: set<nat>, top: nat, opt: Options, seen: set<nat>, y: nat)
  {
    && y < |net| && y !in hits
    && forall z :: Leads(net, y, At(top, opt, y), z) ==> z in seen
  }

  ghost predicate SearchedSince<K, V>(
    net: seq<Context<K, V>>, hits: set<nat>, top: nat, opt: Options, before: set<nat>, seen: set<nat>)
  {
    before <= seen && forall y :: y in seen && y !in before ==> Searched(net, hits, top, opt, seen, y)
  }

  lemma SearchedOn<K, V>(
    net: seq<Context<K, V>>, hits: set<nat>, top: nat, opt: Options, before: set<nat>, seen: set<nat>, now: set<nat>)
    requires SearchedSince(net, hits, top, opt, before, seen) && SearchedSince(net, hits, top, opt, seen, now)
    ensures SearchedSince(net, hits, top, opt, before, now)
  {
    forall y | y in now && y !in before
      ensures Searched(net, hits, top, opt, now, y)
    {
      if y in seen { assert Searched(net, hits, top, opt, seen, y); }
    }
  }

  /** What a lookup has visited: each context once, none of those excluded, and
      no hit but the one it ends at */
  ghost predicate Visited(visits: seq<nat>, hits: set<nat>, before: set<nat>, seen: set<nat>, r: Found) {
    && NoDup(visits)
    && (forall v :: v in visits ==> v !in before && (v in seen || r == In(v)))
    && (forall v :: v in visits && v in hits ==> r == In(v))
    && (r.In? ==> |visits| > 0 && visits[|visits| - 1] == r.ctx)
  }

  lemma VisitMore(
    visits: seq<nat>, more: seq<nat>, hits: set<nat>, before: set<nat>, seen: set<nat>, now: set<nat>, r: Found)
    requires Visited(visits, hits, before, seen, Nothing) && Visited(more, hits, seen, now, r)
    requires before <= seen <= now
    ensures Visited(visits + more, hits, before, now, r)
  {
    var all := visits + more;
    forall i, j | 0 <= i < j < |all|
      ensures all[i] != all[j]
    {
      assert i < |visits| ==> all[i] in visits;
      assert j >= |visits| ==> all[j] in more;
    }
  }

  // ---------------------------------------------------------------- the order of answers

  /** The contexts met going up the parent links from x, outside avoid */
  ghost function Upward<K, V>(net: seq<Context<K, V>>, avoid: set<nat>, x: nat, withParent: bool): (up: set<nat>)
    requires Closed(net) && x < |net| && x !in avoid && avoid <= Indices(|net|)
    ensures x in up && up <= Indices(|net|)
    decreases Indices(|net|) - avoid
  {
    var p := net[x].parent;
    if withParent && p.Some? && p.value !in avoid + {x} then {x} + Upward(net, avoid + {x}, p.value, true) else {x}
  }

  /** The plain search, in which a call knows only the contexts on the way to it
      and their ancestors, and forgets what its sisters have seen: a context's own
      entry, then its parent, then the container, then the children by slot. */
  ghost function First<K, V>(
    net: seq<Context<K, V>>, hits: set<nat>, container: bool, x: nat, opt: Options, avoid: set<nat>): Found
    requires Closed(net) && x < |net| && x !in avoid && avoid <= Indices(|net|)
    decreases Indices(|net|) - avoid, 0, 0
  {
    if x in hits then In(x) else
    var above := FirstAbove(net, hits, container, x, opt, avoid);
    if above != Nothing then above
    else if opt.withContainer && container then InContainer
    else if opt.withChildren then
      FirstBelow(net, hits, container, x, 0, avoid + Upward(net, avoid, x, opt.withParent))
    else Nothing
  }

  ghost function FirstAbove<K, V>(
    net: seq<Context<K, V>>, hits: set<nat>, container: bool, x: nat, opt: Options, avoid: set<nat>): Found
    requires Closed(net) && x < |net| && x !in avoid && avoid <= Indices(|net|)
    decreases Indices(|net|) - (avoid + {x}), 1, 0
  {
    var p := net[x].parent;
    if opt.withParent && p.Some? && p.value !in avoid + {x} then
      First(net, hits, container, p.value, Below(opt), avoid + {x})
    else Nothing
  }

  ghost function FirstBelow<K, V>(
    net: seq<Context<K, V>>, hits: set<nat>, container: bool, x: nat, i: nat, avoid: set<nat>): Found
    requires Closed(net) && x < |net| && i <= |net[x].children| && avoid <= Indices(|net|)
    decreases Indices(|net|) - avoid, 1, |net[x].children| - i
  {
    if i == |net[x].children| then Nothing else
    var r := FirstIn(net, hits, container, net[x].children[i], avoid);
    if r != Nothing then r else FirstBelow(net, hits, container, x, i + 1, avoid)
  }

  ghost function FirstIn<K, V>(
    net: seq<Context<K, V>>, hits: set<nat>, container: bool, child: Option<nat>, avoid: set<nat>): Found
    requires Closed(net) && avoid <= Indices(|net|) && (child.Some? ==> child.value < |net|)
    decreases Indices(|net|) - avoid, 0, 1
  {
    if child.Some? && child.value !in avoid then First(net, hits, container, child.value, DEFAULTS, avoid)
    else Nothing
  }

  /** Between avoid and seen there is no hit and no way out. */
  ghost predicate Dead<K, V>(net: seq<Context<K, V>>, hits: set<nat>, wc: bool, avoid: set<nat>, seen: set<nat>) {
    && avoid <= seen <= Indices(|net|)
    && forall y :: y in seen && y !in avoid ==> DeadAt(net, hits, wc, seen, y)
  }

  ghost predicate DeadAt<K, V>(net: seq<Context<K, V>>, hits: set<nat>, wc: bool, seen: set<nat>, y: nat) {
    && y < |net| && y !in hits
    && (net[y].parent.Some? ==> net[y].parent.value in seen)
    && (wc ==> forall i :: 0 <= i < |net[y].children| && net[y].children[i].Some? ==> net[y].children[i].value in seen)
  }

  lemma DeadMore<K, V>(
    net: seq<Context<K, V>>, hits: set<nat>, wc: bool, avoid: set<nat>, seen: set<nat>, more: set<nat>, grown: set<nat>)
    requires Dead(net, hits, wc, avoid, seen) && avoid <= more <= grown <= Indices(|net|) && seen <= grown
    requires forall y :: y in grown && y !in more ==> y in seen
    ensures Dead(net, hits, wc, more, grown)
  {
    forall y | y in grown && y !in more
      ensures DeadAt(net, hits, wc, grown, y)
    {
      assert DeadAt(net, hits, wc, seen, y);
    }
  }

  /** Going up stops no later once a dead region is avoided too, and what it
      misses lies in the region. */
  lemma {:induction false} UpwardDead<K, V>(
    net: seq<Context<K, V>>, hits: set<nat>, wc: bool, avoid: set<nat>, seen: set<nat>, x: nat, wp: bool)
    requires Closed(net) && x < |net| && x !in avoid && Dead(net, hits, wc, avoid, seen)
    ensures x in seen ==> Upward(net, avoid, x, wp) <= seen
    ensures x !in seen ==> Upward(net, seen, x, wp) <= Upward(net, avoid, x, wp) <= seen + Upward(net, seen, x, wp)
    decreases Indices(|net|) - avoid
  {
    assert x in seen ==> DeadAt(net, hits, wc, seen, x);
    var p := net[x].parent;
    if wp && p.Some? && p.value !in avoid + {x} {
      DeadMore(net, hits, wc, avoid, seen, avoid + {x}, seen + {x});
      UpwardDead(net, hits, wc, avoid + {x}, seen + {x}, p.value, true);
    }
  }

  /** A dead region changes no answer. */
  lemma {:induction false} FirstDead<K, V>(
    net: seq<Context<K, V>>, hits: set<nat>, wc: bool, avoid: set<nat>, seen: set<nat>, x: nat, opt: Options)
    requires Closed(net) && x < |net| && x !in avoid && Dead(net, hits, wc, avoid, seen) && opt.withChildren == wc
    ensures x in seen ==> First(net, hits, false, x, opt, avoid) == Nothing
    ensures x !in seen ==> First(net, hits, false, x, opt, avoid) == First(net, hits, false, x, opt, seen)
    decreases Indices(|net|) - avoid, 0, 0
  {
    assert x in seen ==> DeadAt(net, hits, wc, seen, x);
    if x in hits { return; }
    FirstAboveDead(net, hits, wc, avoid, seen, x, opt);
    UpwardDead(net, hits, wc, avoid, seen, x, opt.withParent);
    if wc {
      var more := avoid + Upward(net, avoid, x, opt.withParent);
      var grown := if x in seen then seen else seen + Upward(net, seen, x, opt.withParent);
      DeadMore(net, hits, wc, avoid, seen, more, grown);
      FirstBelowDead(net, hits, more, grown, x, 0);
      if x in seen {
        FirstBelowNothing(net, hits, grown, x, 0);
      }
    }
  }

  lemma {:induction false} FirstAboveDead<K, V>(
    net: seq<Context<K, V>>, hits: set<nat>, wc: bool, avoid: set<nat>, seen: set<nat>, x: nat, opt: Options)
    requires Closed(net) && x < |net| && x !in avoid && Dead(net, hits, wc, avoid, seen) && opt.withChildren == wc
    ensures x in seen ==> FirstAbove(net, hits, false, x, opt, avoid) == Nothing
    ensures x !in seen ==>
      FirstAbove(net, hits, false, x, opt, avoid) == FirstAbove(net, hits, false, x, opt, seen)
    decreases Indices(|net|) - (avoid + {x}), 1, 0
  {
    assert x in seen ==> DeadAt(net, hits, wc, seen, x);
    var p := net[x].parent;
    if opt.withParent && p.Some? && p.value !in avoid + {x} {
      DeadMore(net, hits, wc, avoid, seen, avoid + {x}, seen + {x});
      FirstDead(net, hits, wc, avoid + {x}, seen + {x}, p.value, Below(opt));
    }
  }

  lemma {:induction false} FirstInDead<K, V>(
    net: seq<Context<K, V>>, hits: set<nat>, avoid: set<nat>, seen: set<nat>, child: Option<nat>)
    requires Closed(net) && Dead(net, hits, true, avoid, seen) && (child.Some? ==> child.value < |net|)
    ensures FirstIn(net, hits, false, child, avoid) == FirstIn(net, hits, false, child, seen)
    ensures child.Some? && child.value in seen ==> FirstIn(net, hits, false, child, avoid) == Nothing
    decreases Indices(|net|) - avoid, 0, 1
  {
    if child.Some? && child.value !in avoid {
      FirstDead(net, hits, true, avoid, seen, child.value, DEFAULTS);
    }
  }

  lemma {:induction false} FirstBelowDead<K, V>(
    net: seq<Context<K, V>>, hits: set<nat>, avoid: set<nat>, seen: set<nat>, x: nat, i: nat)
    requires Closed(net) && x < |net| && i <= |net[x].children| && Dead(net, hits, true, avoid, seen)
    ensures FirstBelow(net, hits, false, x, i, avoid) == FirstBelow(net, hits, false, x, i, seen)
    decreases Indices(|net|) - avoid, 1, |net[x].children| - i
  {
    if i < |net[x].children| {
      FirstInDead(net, hits, avoid, seen, net[x].children[i]);
      FirstBelowDead(net, hits, avoid, seen, x, i + 1);
    }
  }

  /** Children that all lie in the region answer nothing. */
  lemma {:induction false} FirstBelowNothing<K, V>(
    net: seq<Context<K, V>>, hits: set<nat>, seen: set<nat>, x: nat, i: nat)
    requires Closed(net) && x < |net| && i <= |net[x].children| && seen <= Indices(|net|)
    requires forall j :: 0 <= j < |net[x].children| && net[x].children[j].Some? ==> net[x].children[j].value in seen
    ensures FirstBelow(net, hits, false, x, i, seen) == Nothing
    decreases |net[x].children| - i
  {
    if i < |net[x].children| {
      FirstBelowNothing(net, hits, seen, x, i + 1);
    }
  }

  ghost predicate Step<K, V>(net: seq<Context<K, V>>, wc: bool, y: nat, z: nat)
    requires y < |net|
  {
    net[y].parent == Some(z) || (wc && Some(z) in net[y].children)
  }

  /** p goes from link to link, outside avoid. */
  ghost predicate IsWay<K, V>(net: seq<Context<K, V>>, wc: bool, avoid: set<nat>, p: seq<nat>) {
    && |p| > 0
    && (forall i :: 0 <= i < |p| ==> p[i] < |net| && p[i] !in avoid)
    && (forall i :: 0 <= i < |p| - 1 ==> Step(net, wc, p[i], p[i + 1]))
  }

  ghost predicate Via<K, V>(net: seq<Context<K, V>>, wc: bool, avoid: set<nat>, y: nat, z: nat) {
    exists p :: IsWay(net, wc, avoid, p) && p[0] == y && p[|p| - 1] == z
  }

  /** Some hit can be reached from y outside avoid. */
  ghost predicate Finds<K, V>(net: seq<Context<K, V>>, hits: set<nat>, wc: bool, avoid: set<nat>, y: nat) {
    exists z :: z in hits && Via(net, wc, avoid, y, z)
  }

  /** r is an answer got by way of y. Below a child the container may answer. */
  ghost predicate Through<K, V>(
    net: seq<Context<K, V>>, hits: set<nat>, container: bool, wc: bool, avoid: set<nat>, y: nat, r: Found)
  {
    || (r.In? && r.ctx in hits && Via(net, wc, avoid, y, r.ctx))
    || (r.InContainer? && container && wc)
  }

  /** The child in slot i is the first by way of which there is a hit. */
  ghost predicate FirstSlot<K, V>(net: seq<Context<K, V>>, hits: set<nat>, avoid: set<nat>, x: nat, i: nat)
    requires x < |net|
  {
    && i < |net[x].children| && net[x].children[i].Some?
    && Finds(net, hits, true, avoid, net[x].children[i].value)
    && forall j :: 0 <= j < i && net[x].children[j].Some? ==>
      !Finds(net, hits, true, avoid, net[x].children[j].value)
  }

  ghost predicate ByParent<K, V>(net: seq<Context<K, V>>, hits: set<nat>, x: nat, opt: Options, avoid: set<nat>)
    requires x < |net|
  {
    opt.withParent && net[x].parent.Some? && Finds(net, hits, opt.withChildren, avoid, net[x].parent.value)
  }

  /** The order of answers at x: its own, those by way of the parent, the
      container, those by way of the children in the order of their slots. */
  ghost predicate Ordered<K, V>(
    net: seq<Context<K, V>>, hits: set<nat>, container: bool, x: nat, opt: Options, avoid: set<nat>, r: Found)
    requires x < |net|
  {
    var around := avoid + {x};
    if x in hits then r == In(x)
    else if ByParent(net, hits, x, opt, around) then
      Through(net, hits, container, opt.withChildren, around, net[x].parent.value, r)
    else if opt.withContainer && container then r == InContainer
    else opt.withChildren ==> InSlotOrder(net, hits, container, x, around, r)
  }

  ghost predicate InSlotOrder<K, V>(
    net: seq<Context<K, V>>, hits: set<nat>, container: bool, x: nat, avoid: set<nat>, r: Found)
    requires x < |net|
  {
    forall i: nat :: FirstSlot(net, hits, avoid, x, i) ==>
      Through(net, hits, container, true, avoid, net[x].children[i].value, r)
  }

  lemma ViaFewer<K, V>(net: seq<Context<K, V>>, wc: bool, avoid: set<nat>, more: set<nat>, y: nat, z: nat)
    requires avoid <= more && Via(net, wc, more, y, z)
    ensures Via(net, wc, avoid, y, z)
  {
    var p :| IsWay(net, wc, more, p) && p[0] == y && p[|p| - 1] == z;
    assert IsWay(net, wc, avoid, p);
  }

  lemma ViaItself<K, V>(net: seq<Context<K, V>>, wc: bool, avoid: set<nat>, y: nat)
    requires y < |net| && y !in avoid
    ensures Via(net, wc, avoid, y, y)
  {
    assert IsWay(net, wc, avoid, [y]);
  }

  lemma ViaStep<K, V>(net: seq<Context<K, V>>, wc: bool, avoid: set<nat>, x: nat, y: nat, z: nat)
    requires x < |net| && x !in avoid && Step(net, wc, x, y) && Via(net, wc, avoid, y, z)
    ensures Via(net, wc, avoid, x, z)
  {
    var p :| IsWay(net, wc, avoid, p) && p[0] == y && p[|p| - 1] == z;
    var q := [x] + p;
    forall i | 0 <= i < |q| - 1
      ensures Step(net, wc, q[i], q[i + 1])
    {
      if i > 0 {
        var k := i - 1;
        assert Step(net, wc, p[k], p[k + 1]);
      }
    }
    assert IsWay(net, wc, avoid, q) && q[|q| - 1] == z;
  }

  /** A way that enters a dead region stays in it. */
  lemma {:induction false} WayStays<K, V>(
    net: seq<Context<K, V>>, hits: set<nat>, wc: bool, avoid: set<nat>, seen: set<nat>, p: seq<nat>, i: nat)
    requires Dead(net, hits, wc, avoid, seen) && IsWay(net, wc, avoid, p) && i < |p| && p[i] in seen
    ensures p[|p| - 1] in seen && p[|p| - 1] !in hits
    decreases |p| - i
  {
    assert DeadAt(net, hits, wc, seen, p[i]);
    if i + 1 < |p| {
      assert Step(net, wc, p[i], p[i + 1]);
      WayStays(net, hits, wc, avoid, seen, p, i + 1);
    }
  }

  lemma ViaDead<K, V>(
    net: seq<Context<K, V>>, hits: set<nat>, wc: bool, avoid: set<nat>, seen: set<nat>, y: nat, z: nat)
    requires Dead(net, hits, wc, avoid, seen) && Via(net, wc, avoid, y, z) && z in hits
    ensures y !in seen && Via(net, wc, seen, y, z)
  {
    var p :| IsWay(net, wc, avoid, p) && p[0] == y && p[|p| - 1] == z;
    forall i | 0 <= i < |p|
      ensures p[i] !in seen
    {
      if p[i] in seen {
        WayStays(net, hits, wc, avoid, seen, p, i);
      }
    }
    assert IsWay(net, wc, seen, p);
  }

  /** A dead region hides no hit. */
  lemma FindsDead<K, V>(net: seq<Context<K, V>>, hits: set<nat>, wc: bool, avoid: set<nat>, seen: set<nat>, y: nat)
    requires Dead(net, hits, wc, avoid, seen)
    ensures Finds(net, hits, wc, avoid, y) <==> Finds(net, hits, wc, seen, y)
    ensures y in seen ==> !Finds(net, hits, wc, avoid, y)
  {
    if Finds(net, hits, wc, avoid, y) {
      var z :| z in hits && Via(net, wc, avoid, y, z);
      ViaDead(net, hits, wc, avoid, seen, y, z);
    }
    if Finds(net, hits, wc, seen, y) {
      var z :| z in hits && Via(net, wc, seen, y, z);
      ViaFewer(net, wc, avoid, seen, y, z);
    }
  }

  lemma SlotsDead<K, V>(
    net: seq<Context<K, V>>, hits: set<nat>, container: bool, avoid: set<nat>, seen: set<nat>, x: nat, r: Found)
    requires x < |net| && Dead(net, hits, true, avoid, seen) && InSlotOrder(net, hits, container, x, seen, r)
    ensures InSlotOrder(net, hits, container, x, avoid, r)
  {
    forall i: nat | FirstSlot(net, hits, avoid, x, i)
      ensures Through(net, hits, container, true, avoid, net[x].children[i].value, r)
    {
      forall j | 0 <= j <= i && net[x].children[j].Some?
        ensures Finds(net, hits, true, avoid, net[x].children[j].value) <==>
          Finds(net, hits, true, seen, net[x].children[j].value)
      {
        FindsDead(net, hits, true, avoid, seen, net[x].children[j].value);
      }
      assert FirstSlot(net, hits, seen, x, i);
      if r.In? {
        ViaFewer(net, true, avoid, seen, net[x].children[i].value, r.ctx);
      }
    }
  }

  lemma SearchedDead<K, V>(
    net: seq<Context<K, V>>, hits: set<nat>, top: nat, opt: Options, before: set<nat>, seen: set<nat>)
    requires SearchedSince(net, hits, top, opt, before, seen) && top in before && seen <= Indices(|net|)
    ensures Dead(net, hits, opt.withChildren, before, seen)
  {
    forall y | y in seen && y !in before
      ensures DeadAt(net, hits, opt.withChildren, seen, y)
    {
      assert Searched(net, hits, top, opt, seen, y);
      assert net[y].parent.Some? ==> Leads(net, y, At(top, opt, y), net[y].parent.value);
      forall i | 0 <= i < |net[y].children| && net[y].children[i].Some? && opt.withChildren
        ensures net[y].children[i].value in seen
      {
        assert Leads(net, y, At(top, opt, y), net[y].children[i].value);
      }
    }
  }

  /** The common part of GetValue and Get. hits are the contexts whose own table
      answers, container says whether the global container would. The exclude
      set is shared by the nested calls: each gets it and hands it back larger. */
  method Lookup<K, V>(
    net: seq<Context<K, V>>, hits: set<nat>, container: bool, x: nat, opt: Options, excludes: set<nat>,
    ghost top: nat, ghost opt0: Options)
    returns (r: Found, seen: set<nat>, ghost visits: seq<nat>)
    requires Closed(net) && x < |net| && x !in excludes && excludes <= Indices(|net|)
    requires if x == top then opt == opt0 else opt.withParent && opt.withChildren == opt0.withChildren
    requires (x == top || top in excludes) && Reachable(net, top, opt0, x)
    ensures excludes <= seen <= Indices(|net|)
    ensures r == First(net, hits, container, x, opt, excludes)
    ensures Ordered(net, hits, container, x, opt, excludes, r)
    ensures r.In? ==> r.ctx in hits && Reachable(net, top, opt0, r.ctx)
    ensures r.In? ==> Via(net, opt.withChildren, excludes, x, r.ctx)
    ensures r.InContainer? ==> container && (opt.withContainer || opt.withChildren)
    ensures r.Nothing? ==> Finished(net, hits, container, top, opt0, excludes, x, opt, seen)
    ensures r.Nothing? ==> !(container && opt.withContainer)
    ensures Visited(visits, hits, excludes, seen, r)
    decreases Indices(|net|) - excludes, 0
  {
    visits := [x];
    if x in hits {
      ViaItself(net, opt.withChildren, excludes, x);
      return In(x), excludes, visits;
    }
    ghost var around := excludes + {x};
    ghost var more: seq<nat>;
    r, seen, more := AskParent(net, hits, container, x, opt, excludes + {x}, top, opt0);
    VisitMore(visits, more, hits, excludes, around, seen, r);
    visits := visits + more;
    if r != Nothing {
      AboveOrdered(net, hits, container, x, opt, excludes, r);
      return;
    }
    if opt.withContainer && container {
      return InContainer, seen, visits;
    }
    if opt.withChildren {
      ghost var was := seen;
      r, seen, more := AskChildren(net, hits, container, x, seen, top, opt0);
      VisitMore(visits, more, hits, excludes, was, seen, r);
      visits := visits + more;
      SearchedDead(net, hits, top, opt0, around, was);
      BelowSame(net, hits, container, x, opt, excludes, was);
      SlotsDead(net, hits, container, around, was, x, r);
      if r.In? {
        ChildVia(net, opt.withChildren, excludes, was, x, r.ctx);
      }
      if r != Nothing {
        return;
      }
      SearchedOn(net, hits, top, opt0, around, was, seen);
    }
    assert Searched(net, hits, top, opt0, seen, x);
  }

  /** What a search that found nothing from x has seen: every way on from there,
      and nothing but the ancestors where a container would have answered below */
  ghost predicate Finished<K, V>(
    net: seq<Context<K, V>>, hits: set<nat>, container: bool, top: nat, opt0: Options, excludes: set<nat>, x: nat,
    opt: Options, seen: set<nat>)
    requires Closed(net) && x < |net| && x !in excludes && excludes <= Indices(|net|)
  {
    var up := excludes + Upward(net, excludes, x, opt.withParent);
    SearchedSince(net, hits, top, opt0, excludes, seen) && up <= seen && (container ==> seen == up)
  }

  /** An answer by way of the parent is in its place in the order. */
  lemma AboveOrdered<K, V>(
    net: seq<Context<K, V>>, hits: set<nat>, container: bool, x: nat, opt: Options, excludes: set<nat>, r: Found)
    requires Closed(net) && x < |net| && x !in excludes && x !in hits && opt.withParent && net[x].parent.Some?
    requires Through(net, hits, container, opt.withChildren, excludes + {x}, net[x].parent.value, r)
    ensures Ordered(net, hits, container, x, opt, excludes, r)
    ensures r.In? ==> Via(net, opt.withChildren, excludes, x, r.ctx)
  {
    var around := excludes + {x};
    var y := net[x].parent.value;
    if r.In? {
      assert Finds(net, hits, opt.withChildren, around, y);
      ViaFewer(net, opt.withChildren, excludes, around, y, r.ctx);
      ViaStep(net, opt.withChildren, excludes, x, y, r.ctx);
    }
  }

  /** The plain search of the children gives what one that knows of the dead
      region would give. */
  lemma BelowSame<K, V>(
    net: seq<Context<K, V>>, hits: set<nat>, container: bool, x: nat, opt: Options, excludes: set<nat>, seen: set<nat>)
    requires Closed(net) && x < |net| && x !in excludes && excludes <= Indices(|net|)
    requires Dead(net, hits, true, excludes + {x}, seen)
    requires excludes + Upward(net, excludes, x, opt.withParent) <= seen
    requires container ==> seen == excludes + Upward(net, excludes, x, opt.withParent)
    ensures FirstBelow(net, hits, container, x, 0, excludes + Upward(net, excludes, x, opt.withParent)) ==
      FirstBelow(net, hits, container, x, 0, seen)
  {
    if !container {
      var more := excludes + Upward(net, excludes, x, opt.withParent);
      DeadMore(net, hits, true, excludes + {x}, seen, more, seen);
      FirstBelowDead(net, hits, more, seen, x, 0);
    }
  }

  ghost predicate ViaChild<K, V>(net: seq<Context<K, V>>, avoid: set<nat>, x: nat, z: nat)
    requires x < |net|
  {
    exists y :: Some(y) in net[x].children && Via(net, true, avoid, y, z)
  }

  lemma ChildVia<K, V>(net: seq<Context<K, V>>, wc: bool, excludes: set<nat>, seen: set<nat>, x: nat, z: nat)
    requires x < |net| && x !in excludes && excludes <= seen && wc
    requires ViaChild(net, seen, x, z)
    ensures Via(net, wc, excludes, x, z)
  {
    var y :| Some(y) in net[x].children && Via(net, true, seen, y, z);
    ViaFewer(net, true, excludes, seen, y, z);
    ViaStep(net, true, excludes, x, y, z);
  }

  /** The parent is asked without the container, and for children only if x was. */
  method AskParent<K, V>(
    net: seq<Context<K, V>>, hits: set<nat>, container: bool, x: nat, opt: Options, excludes: set<nat>,
    ghost top: nat, ghost opt0: Options)
    returns (r: Found, seen: set<nat>, ghost visits: seq<nat>)
    requires Closed(net) && x < |net| && x in excludes && excludes <= Indices(|net|) && top in excludes
    requires if x == top then opt == opt0 else opt.withParent && opt.withChildren == opt0.withChildren
    requires Reachable(net, top, opt0, x)
    ensures excludes <= seen <= Indices(|net|)
    ensures r == FirstAbove(net, hits, container, x, opt, excludes - {x})
    ensures r.In? ==> Reachable(net, top, opt0, r.ctx)
    ensures r != Nothing ==> opt.withParent && net[x].parent.Some?
    ensures r != Nothing ==> Through(net, hits, container, opt.withChildren, excludes, net[x].parent.value, r)
    ensures r.Nothing? ==> SearchedSince(net, hits, top, opt0, excludes, seen)
    ensures r.Nothing? && opt.withParent && net[x].parent.Some? ==> net[x].parent.value in seen
    ensures r.Nothing? ==> !ByParent(net, hits, x, opt, excludes)
    ensures r.Nothing? ==>
      var up := excludes + Upward(net, excludes - {x}, x, opt.withParent); up <= seen && (container ==> seen == up)
    ensures Visited(visits, hits, excludes, seen, r)
    decreases Indices(|net|) - excludes, 2
  {
    r, seen, visits := Nothing, excludes, [];
    assert excludes - {x} + {x} == excludes;
    if opt.withParent && net[x].parent.Some? {
      var y := net[x].parent.value;
      r, seen, visits := Ask(net, hits, container, x, y, Options(true, false, opt.withChildren), excludes, top, opt0);
      if r == Nothing {
        SearchedDead(net, hits, top, opt0, excludes, seen);
        FindsDead(net, hits, opt.withChildren, excludes, seen, y);
      }
    }
  }

  method AskChildren<K, V>(
    net: seq<Context<K, V>>, hits: set<nat>, container: bool, x: nat, excludes: set<nat>,
    ghost top: nat, ghost opt0: Options)
    returns (r: Found, seen: set<nat>, ghost visits: seq<nat>)
    requires Closed(net) && x < |net| && excludes <= Indices(|net|) && top in excludes && opt0.withChildren
    requires Reachable(net, top, opt0, x)
    ensures excludes <= seen <= Indices(|net|)
    ensures r == FirstBelow(net, hits, container, x, 0, excludes)
    ensures InSlotOrder(net, hits, container, x, excludes, r)
    ensures r.In? ==> r.ctx in hits && Reachable(net, top, opt0, r.ctx) && ViaChild(net, excludes, x, r.ctx)
    ensures r.InContainer? ==> container
    ensures r.Nothing? ==> SearchedSince(net, hits, top, opt0, excludes, seen) && (container ==> seen == excludes)
    ensures r.Nothing? ==> forall j :: 0 <= j < |net[x].children| && net[x].children[j].Some? ==>
      net[x].children[j].value in seen
    ensures Visited(visits, hits, excludes, seen, r)
    decreases Indices(|net|) - excludes, 2
  {
    r, seen, visits := Nothing, excludes, [];
    var i := 0;
    while i < |net[x].children|
      invariant 0 <= i <= |net[x].children| && r == Nothing
      invariant excludes <= seen <= Indices(|net|) && (container ==> seen == excludes)
      invariant SearchedSince(net, hits, top, opt0, excludes, seen)
      invariant forall j :: 0 <= j < i && net[x].children[j].Some? ==> net[x].children[j].value in seen
      invariant FirstBelow(net, hits, container, x, 0, excludes) == FirstBelow(net, hits, container, x, i, excludes)
      invariant Visited(visits, hits, excludes, seen, Nothing)
    {
      var child := net[x].children[i];
      SearchedDead(net, hits, top, opt0, excludes, seen);
      ghost var more, was := [], seen;
      if !container {
        FirstInDead(net, hits, excludes, seen, child);
      }
      if child.Some? {
        r, seen, more := Ask(net, hits, container, x, child.value, DEFAULTS, seen, top, opt0);
        VisitMore(visits, more, hits, excludes, was, seen, r);
        visits := visits + more;
        if r != Nothing {
          SlotAnswers(net, hits, container, excludes, was, x, i, r);
          return;
        }
        SearchedOn(net, hits, top, opt0, excludes, was, seen);
      }
      i := i + 1;
    }
    SearchedDead(net, hits, top, opt0, excludes, seen);
    SlotsNothing(net, hits, container, excludes, seen, x, r);
  }

  /** The answer of slot i is in its place when the slots before have none. */
  lemma SlotAnswers<K, V>(
    net: seq<Context<K, V>>, hits: set<nat>, container: bool, avoid: set<nat>, seen: set<nat>, x: nat, i: nat,
    r: Found)
    requires x < |net| && i < |net[x].children| && net[x].children[i].Some?
    requires Dead(net, hits, true, avoid, seen) && r != Nothing
    requires Through(net, hits, container, true, seen, net[x].children[i].value, r)
    requires forall j :: 0 <= j < i && net[x].children[j].Some? ==> net[x].children[j].value in seen
    ensures InSlotOrder(net, hits, container, x, avoid, r)
    ensures r.In? ==> ViaChild(net, avoid, x, r.ctx)
  {
    if r.In? {
      ViaFewer(net, true, avoid, seen, net[x].children[i].value, r.ctx);
      assert Some(net[x].children[i].value) in net[x].children;
    }
    forall k: nat | FirstSlot(net, hits, avoid, x, k)
      ensures Through(net, hits, container, true, avoid, net[x].children[k].value, r)
    {
      FindsDead(net, hits, true, avoid, seen, net[x].children[k].value);
      assert i < k && r.In? ==> Finds(net, hits, true, avoid, net[x].children[i].value);
    }
  }

  lemma SlotsNothing<K, V>(
    net: seq<Context<K, V>>, hits: set<nat>, container: bool, avoid: set<nat>, seen: set<nat>, x: nat, r: Found)
    requires x < |net| && Dead(net, hits, true, avoid, seen)
    requires forall j :: 0 <= j < |net[x].children| && net[x].children[j].Some? ==> net[x].children[j].value in seen
    ensures InSlotOrder(net, hits, container, x, avoid, r)
  {
    forall k: nat | FirstSlot(net, hits, avoid, x, k)
      ensures false
    {
      FindsDead(net, hits, true, avoid, seen, net[x].children[k].value);
    }
  }

  /** Go on from x to y, unless y is excluded */
  method Ask<K, V>(
    net: seq<Context<K, V>>, hits: set<nat>, container: bool, ghost x: nat, y: nat, opt: Options, excludes: set<nat>,
    ghost top: nat, ghost opt0: Options)
    returns (r: Found, seen: set<nat>, ghost visits: seq<nat>)
    requires Closed(net) && x < |net| && excludes <= Indices(|net|) && top in excludes
    requires opt.withParent && opt.withChildren == opt0.withChildren
    requires Reachable(net, top, opt0, x) && Leads(net, x, At(top, opt0, x), y)
    ensures excludes <= seen <= Indices(|net|) && y < |net|
    ensures r == if y in excludes then Nothing else First(net, hits, container, y, opt, excludes)
    ensures r.In? ==> r.ctx in hits && Reachable(net, top, opt0, r.ctx)
    ensures r.In? ==> Via(net, opt.withChildren, excludes, y, r.ctx)
    ensures r.InContainer? ==> container && (opt.withContainer || opt.withChildren)
    ensures r.Nothing? ==> y in seen && SearchedSince(net, hits, top, opt0, excludes, seen)
    ensures r.Nothing? && y in excludes ==> seen == excludes
    ensures r.Nothing? && y !in excludes ==>
      Finished(net, hits, container, top, opt0, excludes, y, opt, seen) && !(container && opt.withContainer)
    ensures Visited(visits, hits, excludes, seen, r)
    decreases Indices(|net|) - excludes, 1
  {
    r, seen, visits := Nothing, excludes, [];
    ReachableStep(net, top, opt0, x, y);
    if y !in excludes {
      r, seen, visits := Lookup(net, hits, container, y, opt, excludes, top, opt0);
    }
  }

  /** A search that began with nothing excluded has covered all it can reach. */
  lemma SearchedAll<K, V>(net: seq<Context<K, V>>, hits: set<nat>, top: nat, opt: Options, seen: set<nat>, y: nat)
    requires top in seen && SearchedSince(net, hits, top, opt, {}, seen) && Reachable(net, top, opt, y)
    ensures y in seen && y !in hits
  {
    var p :| IsTrail(net, top, opt, p) && p[|p| - 1] == y;
    forall x, z | x in seen && x < |net| && Leads(net, x, At(top, opt, x), z)
      ensures z in seen
    {
      assert Searched(net, hits, top, opt, seen, x);
    }
    ClosedHolds(net, top, opt, seen, p);
    assert Searched(net, hits, top, opt, seen, y);
  }

  lemma ReachesItself<K, V>(net: seq<Context<K, V>>, top: nat, opt: Options)
    requires top < |net|
    ensures Reachable(net, top, opt, top)
  {
    assert IsTrail(net, top, opt, [top]);
  }

  /** The contexts with an entry for the key, set or not */
  function Holders<K(==), V>(net: seq<Context<K, V>>, key: K): set<nat> {
    set y: nat | y < |net| && key in net[y].table
  }

  /** The contexts with a value for the key */
  function Setters<K(==), V>(net: seq<Context<K, V>>, key: K): set<nat> {
    set y: nat | y < |net| && key in net[y].table && net[y].table[key].Some?
  }

  /** GetValue: an entry for the key from some reachable context, and nothing
      only if none has one; every context is visited at most once. The context's
      own entry comes first, then any to be had by way of its parent, then those
      by way of its children in the order of their slots. */
  method GetValue<K(==), V>(net: seq<Context<K, V>>, x: nat, key: K, opt: Options)
    returns (r: Option<nat>, ghost visits: seq<nat>)
    requires Closed(net) && x < |net|
    ensures r.Some? ==> r.value < |net| && key in net[r.value].table && Reachable(net, x, opt, r.value)
    ensures r.None? ==> forall y :: 0 <= y < |net| && Reachable(net, x, opt, y) ==> key !in net[y].table
    ensures NoDup(visits)
    ensures forall v :: v in visits && v in Holders(net, key) ==> r == Some(v)
    ensures key in net[x].table ==> r == Some(x)
    ensures key !in net[x].table && ByParent(net, Holders(net, key), x, opt, {x}) ==>
      r.Some? && Via(net, opt.withChildren, {x}, net[x].parent.value, r.value)
    ensures forall i: nat ::
      key !in net[x].table && !ByParent(net, Holders(net, key), x, opt, {x}) && opt.withChildren &&
      FirstSlot(net, Holders(net, key), {x}, x, i) ==>
      r.Some? && Via(net, true, {x}, net[x].children[i].value, r.value)
    ensures First(net, Holders(net, key), false, x, opt, {}) == if r.Some? then In(r.value) else Nothing
  {
    var hits := Holders(net, key);
    ReachesItself(net, x, opt);
    var f, seen;
    f, seen, visits := Lookup(net, hits, false, x, opt, {}, x, opt);
    assert {} + {x} == {x};
    if f.In? {
      return Some(f.ctx), visits;
    }
    forall y: nat | y < |net| && Reachable(net, x, opt, y)
      ensures key !in net[y].table
    {
      SearchedAll(net, hits, x, opt, seen, y);
    }
    return None, visits;
  }

  ghost predicate HasValue<K, V>(c: Context<K, V>, key: K) {
    key in c.table && c.table[key].Some?
  }

  /** r is the value of the key in a context reached by way of y, or the
      container's, which the contexts below a child ask too. */
  ghost predicate GotThrough<K, V>(
    net: seq<Context<K, V>>, key: K, container: Option<V>, wc: bool, avoid: set<nat>, y: nat, r: Option<V>)
  {
    || (container.Some? && wc && r == container)
    || exists z: nat :: z < |net| && HasValue(net[z], key) && Via(net, wc, avoid, y, z) && r == net[z].table[key]
  }

  /** Get: a value that is set, from some reachable context or the container. Its
      own value comes first, then what the parent leads to, then the container,
      then what the children lead to, in the order of their slots. */
  method Get<K(==), V>(net: seq<Context<K, V>>, x: nat, key: K, container: Option<V>, opt: Options)
    returns (r: Option<V>, ghost visits: seq<nat>)
    requires Closed(net) && x < |net|
    ensures r.Some? ==>
      || (r == container && (opt.withContainer || opt.withChildren))
      || exists y :: 0 <= y < |net| && Reachable(net, x, opt, y) && HasValue(net[y], key) && net[y].table[key] == r
    ensures r.None? ==> forall y :: 0 <= y < |net| && Reachable(net, x, opt, y) ==> !HasValue(net[y], key)
    ensures r.None? && opt.withContainer ==> container.None?
    ensures NoDup(visits)
    ensures HasValue(net[x], key) ==> r == net[x].table[key]
    ensures !HasValue(net[x], key) && ByParent(net, Setters(net, key), x, opt, {x}) ==>
      GotThrough(net, key, container, opt.withChildren, {x}, net[x].parent.value, r)
    ensures opt.withContainer && container.Some? && !HasValue(net[x], key) ==>
      ByParent(net, Setters(net, key), x, opt, {x}) || r == container
    ensures forall i: nat ::
      !HasValue(net[x], key) && !ByParent(net, Setters(net, key), x, opt, {x}) &&
      !(opt.withContainer && container.Some?) && opt.withChildren && FirstSlot(net, Setters(net, key), {x}, x, i) ==>
      GotThrough(net, key, container, true, {x}, net[x].children[i].value, r)
    ensures var f := First(net, Setters(net, key), container.Some?, x, opt, {});
      match f
      case In(y) => y in Setters(net, key) && r == net[y].table[key]
      case InContainer => r == container
      case Nothing => r == None
  {
    var hits := Setters(net, key);
    ReachesItself(net, x, opt);
    var f, seen;
    f, seen, visits := Lookup(net, hits, container.Some?, x, opt, {}, x, opt);
    assert {} + {x} == {x};
    match f {
      case In(y) =>
        return net[y].table[key], visits;
      case InContainer =>
        return container, visits;
      case Nothing =>
        forall y: nat | y < |net| && Reachable(net, x, opt, y)
          ensures !HasValue(net[y], key)
        {
          SearchedAll(net, hits, x, opt, seen, y);
        }
        return None, visits;
    }
  }
}
