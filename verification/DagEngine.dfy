/** Running a built graph: many threads, one shared state, one atomic action at
    a time. The slot write and the counter decrement of a notification are
    separate actions. */
module DagEngine {
  import opened Collections
  import opened DagGraph

  /** What a thread is about to do. Write and Decr carry the successors found
      ready so far; `last` is the slot's value before it was overwritten. */
  datatype Task =
    | Idle
    | Dispatch(ready: seq<nat>)
    | Launch(rest: seq<nat>, local: nat)
    | Exec(v: nat)
    | Finish(v: nat, code: int)
    | Emit(v: nat)
    | Join(v: nat)
    | Write(v: nat, i: nat, ready: seq<nat>)
    | Decr(v: nat, i: nat, ready: seq<nat>, last: Result)

  /** History: how far a vertex is, and with which thread. No action reads it. */
  datatype Phase =
    | Waiting
    | Pending(t: nat)
    | Finishing(t: nat, code: int)
    | Emitting(t: nat)
    | Joining(t: nat)
    | Notifying(t: nat, at: nat, written: bool)
    | Over

  /** waiting, slots, results, join and threads are the executor's own state;
      fired and runs count calls of the done closure and of each Execute;
      emitted, phase, arrived and joined are history. */
  datatype State = State(
    waiting: seq<nat>, slots: seq<seq<Result>>, results: seq<Result>, join: nat, threads: seq<Task>,
    fired: nat, runs: seq<nat>, emitted: set<nat>,
    phase: seq<Phase>, arrived: seq<set<nat>>, joined: set<nat>)

  /** fetch_sub(1) on a 32-bit counter */
  function Dec32(x: nat): nat {
    if x == 0 then 0xFFFF_FFFF else x - 1
  }

  ghost predicate Dims(g: Graph, s: State)
    requires Sized(g)
  {
    var n := |g.verts|;
    && |s.waiting| == n && |s.slots| == n && |s.results| == n && |s.runs| == n
    && |s.phase| == n && |s.arrived| == n
    && forall v :: 0 <= v < n ==> |s.slots[v]| == |g.deps[v]|
  }

  /** A task only names vertices and successor positions that exist. */
  ghost predicate InRange(g: Graph, task: Task)
    requires Sized(g)
  {
    var n := |g.verts|;
    match task
    case Idle => true
    case Dispatch(ready) => forall x :: x in ready ==> x < n
    case Launch(rest, local) => local < n && forall x :: x in rest ==> x < n
    case Exec(v) => v < n
    case Finish(v, _) => v < n
    case Emit(v) => v < n
    case Join(v) => v < n
    case Write(v, i, ready) => v < n && i <= |g.succs[v]| && forall x :: x in ready ==> x < n
    case Decr(v, i, ready, _) => v < n && i < |g.succs[v]| && forall x :: x in ready ==> x < n
  }

  // ------------------------------------------------------------------ actions

  /** ExecuteReadyVertexs: one ready vertex runs here, the others are posted;
      which one runs here is `choice` */
  function DispatchTo(ready: seq<nat>, choice: nat): Task {
    if ready == [] then Idle
    else if |ready| == 1 then Exec(ready[0])
    else
      var c := if choice < |ready| then choice else 0;
      Launch(ready[..c] + ready[c + 1..], ready[c])
  }

  function DoDispatch(s: State, t: nat, choice: nat): State
    requires t < |s.threads| && s.threads[t].Dispatch?
  {
    s.(threads := s.threads[t := DispatchTo(s.threads[t].ready, choice)])
  }

  /** Post the next vertex to a new thread, or start the local one */
  function DoLaunch(s: State, t: nat): State
    requires t < |s.threads| && s.threads[t].Launch?
  {
    var Launch(rest, local) := s.threads[t];
    if rest == [] then s.(threads := s.threads[t := Exec(local)])
    else s.(threads := s.threads[t := Launch(rest[1..], local)] + [Exec(rest[0])],
            phase := if rest[0] < |s.phase| then s.phase[rest[0] := Pending(|s.threads|)] else s.phase)
  }

  /** VertexContext::Execute: decide from the slots and run the processor */
  function DoExec(g: Graph, s: State, t: nat): State
    requires Sized(g) && Dims(g, s) && t < |s.threads| && s.threads[t].Exec? && InRange(g, s.threads[t])
  {
    var v := s.threads[t].v;
    var code := Decide(g.verts[v], g.masks[v], s.slots[v]);
    s.(runs := s.runs[v := s.runs[v] + 1],
       threads := s.threads[t := Finish(v, code)],
       phase := s.phase[v := Finishing(t, code)])
  }

  /** The action is a call of Execute with the vertex's slots. */
  method PerformExec(g: Graph, s: State, t: nat) returns (s': State)
    requires Sized(g) && Dims(g, s) && t < |s.threads| && s.threads[t].Exec? && InRange(g, s.threads[t])
    ensures s' == DoExec(g, s, t)
    ensures var v := s.threads[t].v;
      s'.threads[t].Finish? && (s'.threads[t].code == 0 <==> Succeeds(g.verts[v], g.masks[v], s.slots[v]))
  {
    var v := s.threads[t].v;
    var code := Execute(g.verts[v], g.masks[v], s.slots[v]);
    s' := s.(runs := s.runs[v := s.runs[v] + 1],
             threads := s.threads[t := Finish(v, code)],
             phase := s.phase[v := Finishing(t, code)]);
  }

  /** FinishVertexProcess, first part: record the result */
  function DoFinish(g: Graph, s: State, t: nat): State
    requires Sized(g) && Dims(g, s) && t < |s.threads| && s.threads[t].Finish? && InRange(g, s.threads[t])
  {
    var Finish(v, code) := s.threads[t];
    s.(results := s.results[v := ResultOf(code)],
       threads := s.threads[t := Emit(v)],
       phase := s.phase[v := Emitting(t)])
  }

  /** FinishVertexProcess, second part: publish the outputs of a success */
  function DoEmit(g: Graph, s: State, t: nat): State
    requires Sized(g) && Dims(g, s) && t < |s.threads| && s.threads[t].Emit? && InRange(g, s.threads[t])
  {
    var v := s.threads[t].v;
    s.(emitted := if s.results[v] == Ok then s.emitted + {v} else s.emitted,
       threads := s.threads[t := Join(v)],
       phase := s.phase[v := Joining(t)])
  }

  /** OnVertexDone, first part: the last vertex fires the closure and returns */
  function DoJoin(g: Graph, s: State, t: nat): State
    requires Sized(g) && Dims(g, s) && t < |s.threads| && s.threads[t].Join? && InRange(g, s.threads[t])
  {
    var v := s.threads[t].v;
    if s.join == 1 then
      s.(join := Dec32(s.join), fired := s.fired + 1, joined := s.joined + {v},
         threads := s.threads[t := Idle],
         phase := s.phase[v := Over])
    else
      s.(join := Dec32(s.join), joined := s.joined + {v},
         threads := s.threads[t := Write(v, 0, [])],
         phase := s.phase[v := Notifying(t, 0, false)])
  }

  /** SetDependencyResult, first part: read the slot and overwrite it; or leave
      the loop when there is no successor left */
  function DoWrite(g: Graph, s: State, t: nat): State
    requires Mirrored(g) && Dims(g, s) && t < |s.threads| && s.threads[t].Write? && InRange(g, s.threads[t])
  {
    var Write(v, i, ready) := s.threads[t];
    if i == |g.succs[v]| then
      s.(threads := s.threads[t := Dispatch(ready)],
         phase := s.phase[v := Over])
    else
      assert EdgeWell(g, v, i);
      var w, k := g.succs[v][i], g.depIdx[v][i];
      s.(slots := s.slots[w := s.slots[w][k := s.results[v]]],
         threads := s.threads[t := Decr(v, i, ready, s.slots[w][k])],
         phase := s.phase[v := Notifying(t, i, true)])
  }

  /** SetDependencyResult, second part: count the successor down when its slot
      was still unset; a count of one before makes it ready */
  function DoDecr(g: Graph, s: State, t: nat): State
    requires Mirrored(g) && Dims(g, s) && t < |s.threads| && s.threads[t].Decr? && InRange(g, s.threads[t])
  {
    var Decr(v, i, ready, last) := s.threads[t];
    assert EdgeWell(g, v, i);
    var w, k := g.succs[v][i], g.depIdx[v][i];
    var before := s.waiting[w];
    var s1 := s.(waiting := if last == Invalid then s.waiting[w := Dec32(before)] else s.waiting,
                 arrived := s.arrived[w := s.arrived[w] + {k}]);
    if before == 1 && i == |g.succs[v]| - 1 && ready == [] then
      s1.(threads := s.threads[t := Exec(w)], phase := s.phase[v := Over][w := Pending(t)])
    else if before == 1 then
      s1.(threads := s.threads[t := Write(v, i + 1, ready + [w])],
          phase := s.phase[v := Notifying(t, i + 1, false)][w := Pending(t)])
    else
      s1.(threads := s.threads[t := Write(v, i + 1, ready)],
          phase := s.phase[v := Notifying(t, i + 1, false)])
  }

  /** The action of thread t, which must not be idle */
  function Act(g: Graph, s: State, t: nat, choice: nat): State
    requires Mirrored(g) && Dims(g, s) && t < |s.threads| && s.threads[t] != Idle && InRange(g, s.threads[t])
  {
    match s.threads[t]
    case Dispatch(_) => DoDispatch(s, t, choice)
    case Launch(_, _) => DoLaunch(s, t)
    case Exec(_) => DoExec(g, s, t)
    case Finish(_, _) => DoFinish(g, s, t)
    case Emit(_) => DoEmit(g, s, t)
    case Join(_) => DoJoin(g, s, t)
    case Write(_, _, _) => DoWrite(g, s, t)
    case Decr(_, _, _, _) => DoDecr(g, s, t)
  }

  ghost predicate Step(g: Graph, s: State, s': State) {
    && Mirrored(g) && Dims(g, s)
    && exists t: nat, choice: nat ::
         t < |s.threads| && s.threads[t] != Idle && InRange(g, s.threads[t]) && s' == Act(g, s, t, choice)
  }

  /** The start vertices, in the order the context table yields them */
  ghost predicate Starts(g: Graph, starts: seq<nat>)
    requires Sized(g)
  {
    && NoDup(starts)
    && (forall x :: x in starts ==> x < |g.verts|)
    && (forall v :: 0 <= v < |g.verts| ==> (v in starts <==> g.deps[v] == []))
  }

  /** The state after Reset, with one thread about to run the start vertices */
  ghost function Initial(g: Graph, starts: seq<nat>): State
    requires Sized(g)
  {
    var n := |g.verts|;
    State(
      seq(n, v requires 0 <= v < n => |g.deps[v]|),
      seq(n, v requires 0 <= v < n => seq(|g.deps[v]|, _ => Invalid)),
      seq(n, _ => Invalid), n, [Dispatch(starts)],
      0, seq(n, _ => 0), {},
      seq(n, v requires 0 <= v < n => if g.deps[v] == [] then Pending(0) else Waiting),
      seq(n, _ => {}), {})
  }

  // ---------------------------------------------------------------- invariant

  /** The vertices a task holds but has not started */
  function Held(task: Task): seq<nat> {
    match task
    case Dispatch(ready) => ready
    case Launch(rest, local) => rest + [local]
    case Exec(v) => [v]
    case Write(_, _, ready) => ready
    case Decr(_, _, ready, _) => ready
    case _ => []
  }

  ghost predicate HeldOk(g: Graph, s: State, t: nat)
    requires Sized(g) && Dims(g, s) && t < |s.threads|
  {
    && NoDup(Held(s.threads[t]))
    && forall x :: x in Held(s.threads[t]) ==> x < |g.verts| && s.phase[x] == Pending(t)
  }

  /** The vertex a task is finishing or notifying for is in the matching phase. */
  ghost predicate ActingOk(g: Graph, s: State, t: nat)
    requires Sized(g) && Dims(g, s) && t < |s.threads|
  {
    match s.threads[t]
    case Finish(v, code) => v < |g.verts| && s.phase[v] == Finishing(t, code)
    case Emit(v) => v < |g.verts| && s.phase[v] == Emitting(t)
    case Join(v) => v < |g.verts| && s.phase[v] == Joining(t)
    case Write(v, i, _) => v < |g.verts| && i <= |g.succs[v]| && s.phase[v] == Notifying(t, i, false)
    case Decr(v, i, _, last) =>
      v < |g.verts| && i < |g.succs[v]| && s.phase[v] == Notifying(t, i, true) && last == Invalid
    case _ => true
  }

  ghost predicate ThreadOk(g: Graph, s: State, t: nat)
    requires Sized(g) && Dims(g, s) && t < |s.threads|
  {
    HeldOk(g, s, t) && ActingOk(g, s, t)
  }

  /** The thread a vertex's phase names is doing what the phase says. */
  ghost predicate PhaseOk(g: Graph, s: State, v: nat)
    requires Sized(g) && Dims(g, s) && v < |g.verts|
  {
    match s.phase[v]
    case Waiting => true
    case Pending(t) => t < |s.threads| && v in Held(s.threads[t])
    case Finishing(t, code) => t < |s.threads| && s.threads[t] == Finish(v, code)
    case Emitting(t) => t < |s.threads| && s.threads[t] == Emit(v)
    case Joining(t) => t < |s.threads| && s.threads[t] == Join(v)
    case Notifying(t, i, false) => t < |s.threads| && s.threads[t].Write? && s.threads[t].v == v && s.threads[t].i == i
    case Notifying(t, i, true) => t < |s.threads| && s.threads[t].Decr? && s.threads[t].v == v && s.threads[t].i == i
    case Over => true
  }

  predicate Started(p: Phase) { !p.Waiting? && !p.Pending? }
  predicate HasResult(p: Phase) { p.Emitting? || p.Joining? || p.Notifying? || p.Over? }
  predicate HasJoined(p: Phase) { p.Notifying? || p.Over? }

  /** Counters, results and history of one vertex agree with its phase. */
  ghost predicate CountsOk(g: Graph, s: State, v: nat)
    requires WellBuilt(g) && Dims(g, s) && v < |g.verts|
  {
    && s.arrived[v] <= Indices(|g.deps[v]|)
    && s.waiting[v] + |s.arrived[v]| == |g.deps[v]|
    && (s.phase[v].Waiting? <==> s.waiting[v] > 0)
    && s.runs[v] == (if Started(s.phase[v]) then 1 else 0)
    && s.results[v] == (if HasResult(s.phase[v]) then ResultOf(Meaning(g, v)) else Invalid)
    && (s.phase[v].Finishing? ==> s.phase[v].code == Meaning(g, v))
    && (v in s.joined <==> HasJoined(s.phase[v]))
    && (v in s.emitted <==> s.results[v] == Ok && !s.phase[v].Emitting?)
  }

  /** u's notification of its i-th successor has been counted. */
  predicate Passed(p: Phase, i: nat) {
    p.Over? || (p.Notifying? && i < p.at)
  }

  /** u's result is already in the slot of its i-th successor. */
  predicate Written(p: Phase, i: nat) {
    Passed(p, i) || (p.Notifying? && i == p.at && p.written)
  }

  ghost predicate EdgeOk(g: Graph, s: State, u: nat, i: nat)
    requires Mirrored(g) && Dims(g, s) && IsEdge(g, u, i)
  {
    assert EdgeWell(g, u, i);
    var w, k := g.succs[u][i], g.depIdx[u][i];
    && (k in s.arrived[w] <==> Passed(s.phase[u], i))
    && s.slots[w][k] == (if Written(s.phase[u], i) then s.results[u] else Invalid)
  }

  ghost predicate JoinOk(g: Graph, s: State)
    requires Sized(g)
  {
    && s.joined <= Indices(|g.verts|)
    && s.join + |s.joined| == |g.verts|
    && s.fired == (if s.join == 0 then 1 else 0)
  }

  ghost predicate ThreadsOk(g: Graph, s: State)
    requires Sized(g) && Dims(g, s)
  {
    forall t {:trigger ThreadOk(g, s, t)} :: 0 <= t < |s.threads| ==> ThreadOk(g, s, t)
  }

  ghost predicate VertsOk(g: Graph, s: State)
    requires WellBuilt(g) && Dims(g, s)
  {
    forall v {:trigger PhaseOk(g, s, v)} {:trigger CountsOk(g, s, v)} ::
      0 <= v < |g.verts| ==> PhaseOk(g, s, v) && CountsOk(g, s, v)
  }

  ghost predicate EdgesOk(g: Graph, s: State)
    requires Mirrored(g) && Dims(g, s)
  {
    forall u: nat, i: nat {:trigger EdgeOk(g, s, u, i)} :: IsEdge(g, u, i) ==> EdgeOk(g, s, u, i)
  }

  ghost predicate Inv(g: Graph, s: State) {
    && WellBuilt(g) && Dims(g, s)
    && ThreadsOk(g, s) && VertsOk(g, s) && EdgesOk(g, s) && JoinOk(g, s)
  }

  // ------------------------------------------------------------------ framing

  /** The thread a phase names, or -1 */
  function Owner(p: Phase): int {
    match p
    case Waiting => -1
    case Pending(t) => t
    case Finishing(t, _) => t
    case Emitting(t) => t
    case Joining(t) => t
    case Notifying(t, _, _) => t
    case Over => -1
  }

  lemma KeepThread(g: Graph, s: State, s': State, t: nat)
    requires Sized(g) && Dims(g, s) && Dims(g, s') && t < |s.threads| && t < |s'.threads|
    requires ThreadOk(g, s, t) && s'.threads[t] == s.threads[t]
    requires forall x :: 0 <= x < |g.verts| && Owner(s.phase[x]) == t ==> s'.phase[x] == s.phase[x]
    ensures ThreadOk(g, s', t)
  {
  }

  predicate SameVertex(s: State, s': State, v: nat)
    requires v < |s.waiting| && v < |s.results| && v < |s.runs| && v < |s.phase| && v < |s.arrived|
    requires v < |s'.waiting| && v < |s'.results| && v < |s'.runs| && v < |s'.phase| && v < |s'.arrived|
  {
    && s'.waiting[v] == s.waiting[v] && s'.results[v] == s.results[v] && s'.runs[v] == s.runs[v]
    && s'.phase[v] == s.phase[v] && s'.arrived[v] == s.arrived[v]
    && (v in s'.joined <==> v in s.joined) && (v in s'.emitted <==> v in s.emitted)
  }

  lemma KeepVertex(g: Graph, s: State, s': State, v: nat)
    requires WellBuilt(g) && Dims(g, s) && Dims(g, s') && v < |g.verts|
    requires PhaseOk(g, s, v) && CountsOk(g, s, v) && SameVertex(s, s', v)
    requires 0 <= Owner(s.phase[v]) < |s.threads| ==>
               Owner(s.phase[v]) < |s'.threads| && s'.threads[Owner(s.phase[v])] == s.threads[Owner(s.phase[v])]
    ensures PhaseOk(g, s', v) && CountsOk(g, s', v)
  {
  }

  /** The vertices a thread owns are those it holds and the one it acts on. */
  lemma OwnedBy(g: Graph, s: State, v: nat)
    requires WellBuilt(g) && Dims(g, s) && VertsOk(g, s) && v < |g.verts| && Owner(s.phase[v]) >= 0
    ensures Owner(s.phase[v]) < |s.threads|
    ensures var task := s.threads[Owner(s.phase[v])];
      if s.phase[v].Pending? then v in Held(task)
      else (task.Finish? || task.Emit? || task.Join? || task.Write? || task.Decr?) && task.v == v
  {
    assert PhaseOk(g, s, v);
  }

  // ------------------------------------------------------------- preservation

  /** A thread that only holds vertices may hold them in another form. */
  lemma ReholdKeeps(g: Graph, s: State, t: nat, task: Task)
    requires Inv(g, s) && t < |s.threads| && (s.threads[t].Dispatch? || s.threads[t].Launch?)
    requires task.Idle? || task.Launch? || task.Exec?
    requires NoDup(Held(task)) && forall x :: x in Held(task) <==> x in Held(s.threads[t])
    ensures Inv(g, s.(threads := s.threads[t := task]))
  {
    var s' := s.(threads := s.threads[t := task]);
    forall u: nat | u < |s'.threads|
      ensures ThreadOk(g, s', u)
    {
      assert ThreadOk(g, s, u);
      if u != t { KeepThread(g, s, s', u); }
    }
    forall v: nat | v < |g.verts|
      ensures PhaseOk(g, s', v) && CountsOk(g, s', v)
    {
      assert PhaseOk(g, s, v) && CountsOk(g, s, v);
    }
    forall u: nat, i: nat | IsEdge(g, u, i)
      ensures EdgeOk(g, s', u, i)
    {
      assert EdgeOk(g, s, u, i);
    }
  }

  lemma NoDupSplit(a: seq<nat>, b: seq<nat>)
    requires NoDup(a + b)
    ensures NoDup(a) && NoDup(b) && forall y :: y in a ==> y !in b
  {
    var c := a + b;
    assert a == c[..|a|] && b == c[|a|..];
    forall y | y in a
      ensures y !in b
    {
      var i :| 0 <= i < |a| && a[i] == y;
      assert c[i] == y && forall j :: |a| <= j < |c| ==> c[i] != c[j];
    }
  }

  lemma NoDupJoin(a: seq<nat>, b: seq<nat>)
    requires NoDup(a) && NoDup(b) && forall y :: y in a ==> y !in b
    ensures NoDup(a + b)
  {
    var c := a + b;
    forall i, j | 0 <= i < j < |c|
      ensures c[i] != c[j]
    {
      assert j >= |a| ==> c[j] in b;
      assert i < |a| ==> c[i] in a;
    }
  }

  /** Moving one element to the end loses and repeats nothing. */
  lemma MoveToEnd(a: seq<nat>, x: nat, b: seq<nat>)
    requires NoDup(a + ([x] + b))
    ensures NoDup(a + b + [x]) && forall y :: y in a + b + [x] <==> y in a + ([x] + b)
  {
    NoDupSplit(a, [x] + b);
    NoDupSplit([x], b);
    NoDupJoin(a, b);
    NoDupJoin(a + b, [x]);
  }

  lemma DispatchHolds(ready: seq<nat>, choice: nat)
    requires NoDup(ready)
    ensures NoDup(Held(DispatchTo(ready, choice)))
    ensures forall x :: x in Held(DispatchTo(ready, choice)) <==> x in ready
  {
    if |ready| > 1 {
      var c := if choice < |ready| then choice else 0;
      assert ready == ready[..c] + ([ready[c]] + ready[c + 1..]);
      MoveToEnd(ready[..c], ready[c], ready[c + 1..]);
    }
  }

  lemma DispatchKeeps(g: Graph, s: State, t: nat, choice: nat)
    requires Inv(g, s) && t < |s.threads| && s.threads[t].Dispatch?
    ensures Inv(g, DoDispatch(s, t, choice))
  {
    var ready := s.threads[t].ready;
    assert ThreadOk(g, s, t);
    DispatchHolds(ready, choice);
    ReholdKeeps(g, s, t, DispatchTo(ready, choice));
  }

  lemma TailHolds(h: seq<nat>)
    requires NoDup(h) && h != []
    ensures NoDup(h[1..]) && h[0] !in h[1..]
    ensures forall x :: x in h ==> x == h[0] || x in h[1..]
  {
    assert forall j :: 1 <= j < |h| ==> h[0] != h[j];
    assert h == [h[0]] + h[1..];
  }

  lemma LaunchKeeps(g: Graph, s: State, t: nat)
    requires Inv(g, s) && t < |s.threads| && s.threads[t].Launch?
    ensures Inv(g, DoLaunch(s, t))
  {
    var Launch(rest, local) := s.threads[t];
    assert ThreadOk(g, s, t);
    if rest == [] {
      assert rest + [local] == [local];
      ReholdKeeps(g, s, t, Exec(local));
    } else {
      assert (rest + [local])[1..] == rest[1..] + [local];
      PostKeeps(g, s, DoLaunch(s, t), t);
    }
  }

  ghost predicate Posts(g: Graph, s: State, s': State, t: nat) {
    && Inv(g, s) && t < |s.threads| && s.threads[t].Launch? && s.threads[t].rest != []
    && s' == DoLaunch(s, t) && Held(s'.threads[t]) == Held(s.threads[t])[1..]
  }

  lemma PostKeeps(g: Graph, s: State, s': State, t: nat)
    requires Posts(g, s, s', t)
    ensures Inv(g, s')
  {
    assert ThreadOk(g, s, t) && Held(s.threads[t])[0] == s.threads[t].rest[0];
    PostThreads(g, s, s', t);
    PostVerts(g, s, s', t);
    forall u: nat, i: nat | IsEdge(g, u, i)
      ensures EdgeOk(g, s', u, i)
    {
      assert EdgeOk(g, s, u, i);
    }
  }

  lemma PostThreads(g: Graph, s: State, s': State, t: nat)
    requires Posts(g, s, s', t)
    ensures Dims(g, s') && ThreadsOk(g, s')
  {
    var h := Held(s.threads[t]);
    var x := h[0];
    assert ThreadOk(g, s, t) && x in h;
    TailHolds(h);
    assert s'.phase == s.phase[x := Pending(|s.threads|)];
    forall u: nat | u < |s'.threads|
      ensures ThreadOk(g, s', u)
    {
      if u == t {
        assert forall y :: y in Held(s'.threads[t]) ==> y in h && y != x;
      } else if u < |s.threads| {
        assert ThreadOk(g, s, u);
        KeepThread(g, s, s', u);
      } else {
        assert Held(s'.threads[u]) == [x];
      }
    }
  }

  lemma PostVerts(g: Graph, s: State, s': State, t: nat)
    requires Posts(g, s, s', t)
    ensures Dims(g, s') && VertsOk(g, s')
  {
    var h := Held(s.threads[t]);
    var x := h[0];
    assert ThreadOk(g, s, t) && x in h;
    TailHolds(h);
    forall v: nat | v < |g.verts|
      ensures PhaseOk(g, s', v) && CountsOk(g, s', v)
    {
      assert PhaseOk(g, s, v) && CountsOk(g, s, v);
      if v != x && Owner(s.phase[v]) != t { KeepVertex(g, s, s', v); }
    }
  }

  // --------------------------------------- actions on the thread's own vertex

  /** Between s and s' thread t has moved the vertices vs on, its own or still
      waiting, and touched no counter, result or phase of another vertex. */
  ghost predicate Local(g: Graph, s: State, s': State, t: nat, vs: set<nat>) {
    && Inv(g, s) && Dims(g, s') && t < |s.threads| == |s'.threads|
    && (forall x :: x in vs ==> x < |g.verts| && (Owner(s.phase[x]) == t || s.phase[x].Waiting?))
    && (forall u :: 0 <= u < |s.threads| && u != t ==> s'.threads[u] == s.threads[u])
    && (forall x :: 0 <= x < |g.verts| && x !in vs ==> SameVertex(s, s', x))
    && (forall x :: 0 <= x < |g.verts| && x !in vs && Owner(s.phase[x]) == t ==>
          s.phase[x].Pending? && x in Held(s'.threads[t]))
  }

  lemma LocalThreads(g: Graph, s: State, s': State, t: nat, vs: set<nat>)
    requires Local(g, s, s', t, vs) && ThreadOk(g, s', t)
    ensures ThreadsOk(g, s')
  {
    forall u: nat | u < |s'.threads|
      ensures ThreadOk(g, s', u)
    {
      if u != t {
        assert ThreadOk(g, s, u);
        forall x: nat | x < |g.verts| && Owner(s.phase[x]) == u
          ensures s'.phase[x] == s.phase[x]
        {
          assert x !in vs && SameVertex(s, s', x);
        }
        KeepThread(g, s, s', u);
      }
    }
  }

  lemma LocalVerts(g: Graph, s: State, s': State, t: nat, vs: set<nat>)
    requires Local(g, s, s', t, vs)
    requires forall x :: x in vs ==> PhaseOk(g, s', x) && CountsOk(g, s', x)
    ensures VertsOk(g, s')
  {
    forall x: nat | x < |g.verts|
      ensures PhaseOk(g, s', x) && CountsOk(g, s', x)
    {
      if x !in vs {
        assert PhaseOk(g, s, x) && CountsOk(g, s, x);
        assert SameVertex(s, s', x);
        if Owner(s.phase[x]) != t { KeepVertex(g, s, s', x); }
      }
    }
  }

  lemma LocalInv(g: Graph, s: State, s': State, t: nat, vs: set<nat>)
    requires Local(g, s, s', t, vs) && ThreadOk(g, s', t) && EdgesOk(g, s')
    requires forall x :: x in vs ==> PhaseOk(g, s', x) && CountsOk(g, s', x)
    requires s'.join == s.join && s'.joined == s.joined && s'.fired == s.fired
    ensures Inv(g, s')
  {
    LocalThreads(g, s, s', t, vs);
    LocalVerts(g, s, s', t, vs);
  }

  /** Nothing has been written by v: its edges, like all others, are as before. */
  lemma LocalEdges(g: Graph, s: State, s': State, t: nat, v: nat)
    requires Local(g, s, s', t, {v}) && s'.slots == s.slots && s'.arrived[v] == s.arrived[v]
    requires forall i: nat :: i < |g.succs[v]| ==> !Written(s.phase[v], i) && !Written(s'.phase[v], i)
    ensures EdgesOk(g, s')
  {
    forall u: nat, i: nat | IsEdge(g, u, i)
      ensures EdgeOk(g, s', u, i)
    {
      assert EdgeWell(g, u, i) && EdgeOk(g, s, u, i);
      var w := g.succs[u][i];
      assert w != v ==> SameVertex(s, s', w);
      if u != v {
        assert SameVertex(s, s', u);
      }
    }
  }

  /** A thread executing, finishing or joining v owns no other vertex. */
  lemma OwnsOne(g: Graph, s: State, t: nat, v: nat)
    requires Inv(g, s) && t < |s.threads|
    requires s.threads[t] == Exec(v) || s.threads[t] == Emit(v) || s.threads[t] == Join(v)
          || (s.threads[t].Finish? && s.threads[t].v == v)
    ensures v < |g.verts| && Owner(s.phase[v]) == t
    ensures forall x :: 0 <= x < |g.verts| && x != v ==> Owner(s.phase[x]) != t
  {
    assert ThreadOk(g, s, t) && (s.threads[t] == Exec(v) ==> v in Held(s.threads[t]));
    forall x: nat | x < |g.verts| && x != v
      ensures Owner(s.phase[x]) != t
    {
      if Owner(s.phase[x]) == t { OwnedBy(g, s, x); }
    }
  }

  /** s' differs from s in thread t and in the results, runs, phase and history
      of v alone. */
  ghost predicate Moves(g: Graph, s: State, s': State, t: nat, v: nat)
    requires Sized(g) && Dims(g, s) && t < |s.threads| && v < |g.verts|
  {
    && Dims(g, s') && |s'.threads| == |s.threads| && s'.threads == s.threads[t := s'.threads[t]]
    && s'.waiting == s.waiting && s'.slots == s.slots && s'.arrived == s.arrived
    && s'.results == s.results[v := s'.results[v]] && s'.runs == s.runs[v := s'.runs[v]]
    && s'.phase == s.phase[v := s'.phase[v]]
    && s'.joined - {v} == s.joined - {v} && s'.emitted - {v} == s.emitted - {v}
  }

  lemma MovesLocal(g: Graph, s: State, s': State, t: nat, v: nat)
    requires Inv(g, s) && t < |s.threads| && v < |g.verts| && Moves(g, s, s', t, v)
    requires Owner(s.phase[v]) == t
    requires forall x :: 0 <= x < |g.verts| && x != v ==> Owner(s.phase[x]) != t
    ensures Local(g, s, s', t, {v})
  {
    forall x: nat | x < |g.verts| && x != v
      ensures SameVertex(s, s', x)
    {
      assert x in s'.joined - {v} <==> x in s.joined - {v};
      assert x in s'.emitted - {v} <==> x in s.emitted - {v};
    }
  }

  lemma MoveKeeps(g: Graph, s: State, s': State, t: nat, v: nat)
    requires Inv(g, s) && t < |s.threads| && v < |g.verts| && Moves(g, s, s', t, v)
    requires s.threads[t] == Exec(v) || s.threads[t] == Emit(v) || s.threads[t] == Join(v)
          || (s.threads[t].Finish? && s.threads[t].v == v)
    requires ThreadOk(g, s', t) && PhaseOk(g, s', v) && CountsOk(g, s', v) && JoinOk(g, s')
    requires !HasJoined(s.phase[v]) && (s'.phase[v].Over? ==> g.succs[v] == [])
    requires s'.phase[v].Notifying? ==> s'.phase[v].at == 0 && !s'.phase[v].written
    ensures Inv(g, s')
  {
    OwnsOne(g, s, t, v);
    MovesLocal(g, s, s', t, v);
    LocalThreads(g, s, s', t, {v});
    LocalVerts(g, s, s', t, {v});
    LocalEdges(g, s, s', t, v);
  }

  /** Whatever is no longer waiting has every dependency's final result. */
  lemma SlotsFinal(g: Graph, s: State, w: nat, k: nat)
    requires Inv(g, s) && w < |g.verts| && !s.phase[w].Waiting? && k < |g.deps[w]|
    ensures g.deps[w][k] < |g.verts| && HasJoined(s.phase[g.deps[w][k]])
    ensures s.slots[w][k] == s.results[g.deps[w][k]] == ResultOf(Meaning(g, g.deps[w][k]))
  {
    assert CountsOk(g, s, w) && DepWell(g, w, k);
    var u := g.deps[w][k];
    var i: nat :| i < |g.succs[u]| && g.succs[u][i] == w && g.depIdx[u][i] == k;
    assert IsEdge(g, u, i) && EdgeWell(g, u, i);
    assert EdgeOk(g, s, u, i) && CountsOk(g, s, u);
    FullSet(s.arrived[w], Indices(|g.deps[w]|));
    assert k in s.arrived[w];
  }

  lemma FullSet(a: set<nat>, b: set<nat>)
    requires a <= b && |a| == |b|
    ensures a == b
  {
    if x :| x in b && x !in a {
      SubsetCard(a, b - {x});
    }
  }

  /** What Execute decides from the slots is the vertex's meaning. */
  lemma DecidesMeaning(g: Graph, s: State, v: nat)
    requires Inv(g, s) && v < |g.verts| && !s.phase[v].Waiting?
    ensures Decide(g.verts[v], g.masks[v], s.slots[v]) == Meaning(g, v)
  {
    var final := seq(|g.deps[v]|, k requires 0 <= k < |g.deps[v]| =>
      DepRank(g, v, k); ResultOf(Meaning(g, g.deps[v][k])));
    forall k: nat | k < |g.deps[v]|
      ensures s.slots[v][k] == final[k]
    {
      SlotsFinal(g, s, v, k);
    }
    assert s.slots[v] == final;
  }

  lemma ExecKeeps(g: Graph, s: State, t: nat)
    requires Inv(g, s) && t < |s.threads| && s.threads[t].Exec?
    ensures InRange(g, s.threads[t]) && Inv(g, DoExec(g, s, t))
  {
    var v := s.threads[t].v;
    assert ThreadOk(g, s, t) && v in Held(s.threads[t]);
    assert CountsOk(g, s, v);
    DecidesMeaning(g, s, v);
    var s' := DoExec(g, s, t);
    MoveKeeps(g, s, s', t, v);
  }

  lemma FinishKeeps(g: Graph, s: State, t: nat)
    requires Inv(g, s) && t < |s.threads| && s.threads[t].Finish?
    ensures InRange(g, s.threads[t]) && Inv(g, DoFinish(g, s, t))
  {
    var v := s.threads[t].v;
    assert ThreadOk(g, s, t) && CountsOk(g, s, v);
    var s' := DoFinish(g, s, t);
    MoveKeeps(g, s, s', t, v);
  }

  lemma EmitKeeps(g: Graph, s: State, t: nat)
    requires Inv(g, s) && t < |s.threads| && s.threads[t].Emit?
    ensures InRange(g, s.threads[t]) && Inv(g, DoEmit(g, s, t))
  {
    var v := s.threads[t].v;
    assert ThreadOk(g, s, t) && CountsOk(g, s, v);
    var s' := DoEmit(g, s, t);
    MoveKeeps(g, s, s', t, v);
  }

  // ------------------------------------------------------------------ joining

  /** The closure fires when no vertex but the one joining is left, and that one
      has no successor to notify. */
  lemma LastJoin(g: Graph, s: State, t: nat)
    requires Inv(g, s) && t < |s.threads| && s.threads[t].Join? && s.join == 1
    ensures var v := s.threads[t].v;
      && v < |g.verts| && g.succs[v] == []
      && forall x :: 0 <= x < |g.verts| && x != v ==> HasJoined(s.phase[x])
  {
    var v := s.threads[t].v;
    assert ThreadOk(g, s, t) && CountsOk(g, s, v);
    forall x: nat | x < |g.verts| && x != v
      ensures HasJoined(s.phase[x])
    {
      assert CountsOk(g, s, x);
      if x !in s.joined {
        SubsetCard(s.joined, Indices(|g.verts|) - {v, x});
      }
    }
    if g.succs[v] != [] {
      assert EdgeWell(g, v, 0);
      var w, k := g.succs[v][0], g.depIdx[v][0];
      if w == v {
        EdgeReaches(g, v, v);
      } else {
        assert HasJoined(s.phase[w]);
        SlotsFinal(g, s, w, k);
      }
    }
  }

  lemma JoinVertex(g: Graph, s: State, t: nat)
    requires WellBuilt(g) && Dims(g, s) && t < |s.threads| && s.threads[t].Join? && InRange(g, s.threads[t])
    requires ThreadOk(g, s, t) && CountsOk(g, s, s.threads[t].v)
    ensures var v, s' := s.threads[t].v, DoJoin(g, s, t);
      && Moves(g, s, s', t, v)
      && ThreadOk(g, s', t) && PhaseOk(g, s', v) && CountsOk(g, s', v)
  {
    var v, s' := s.threads[t].v, DoJoin(g, s, t);
    assert s'.joined - {v} == s.joined - {v};
    assert Held(s'.threads[t]) == [];
  }

  lemma JoinCounts(g: Graph, s: State, t: nat)
    requires Sized(g) && Dims(g, s) && JoinOk(g, s)
    requires t < |s.threads| && s.threads[t].Join? && InRange(g, s.threads[t]) && s.threads[t].v !in s.joined
    ensures JoinOk(g, DoJoin(g, s, t))
  {
    SubsetCard(s.joined + {s.threads[t].v}, Indices(|g.verts|));
  }

  lemma JoinKeeps(g: Graph, s: State, t: nat)
    requires Inv(g, s) && t < |s.threads| && s.threads[t].Join?
    ensures InRange(g, s.threads[t]) && Inv(g, DoJoin(g, s, t))
  {
    var v := s.threads[t].v;
    assert ThreadOk(g, s, t) && CountsOk(g, s, v);
    JoinVertex(g, s, t);
    JoinCounts(g, s, t);
    if s.join == 1 { LastJoin(g, s, t); }
    MoveKeeps(g, s, DoJoin(g, s, t), t, v);
  }

  // ---------------------------------------------------------------- notifying

  /** A thread notifying for v owns v and the vertices it found ready. */
  lemma OwnsReady(g: Graph, s: State, t: nat, v: nat, ready: seq<nat>)
    requires Inv(g, s) && t < |s.threads| && (s.threads[t].Write? || s.threads[t].Decr?)
    requires s.threads[t].v == v && s.threads[t].ready == ready
    ensures InRange(g, s.threads[t]) && Owner(s.phase[v]) == t
    ensures forall x :: 0 <= x < |g.verts| && x != v && Owner(s.phase[x]) == t ==> s.phase[x].Pending? && x in ready
    ensures v !in ready
  {
    assert ThreadOk(g, s, t);
    forall x: nat | x < |g.verts| && x != v && Owner(s.phase[x]) == t
      ensures s.phase[x].Pending? && x in ready
    {
      OwnedBy(g, s, x);
    }
  }

  /** Only one edge fills a dependency slot. */
  lemma OneEdge(g: Graph, u: nat, j: nat, v: nat, i: nat)
    requires Mirrored(g) && IsEdge(g, u, j) && IsEdge(g, v, i)
    requires g.succs[u][j] == g.succs[v][i] && g.depIdx[u][j] == g.depIdx[v][i]
    ensures u == v && i == j
  {
    assert EdgeWell(g, u, j) && EdgeWell(g, v, i);
    assert NoDup(g.succs[v]);
  }

  lemma WriteThread(g: Graph, s: State, s': State, t: nat)
    requires Mirrored(g) && Dims(g, s) && t < |s.threads| && s.threads[t].Write? && InRange(g, s.threads[t])
    requires s' == DoWrite(g, s, t) && ThreadOk(g, s, t) && EdgesOk(g, s) && s.threads[t].v !in s.threads[t].ready
    ensures Dims(g, s') && ThreadOk(g, s', t) && Held(s'.threads[t]) == s.threads[t].ready
  {
    var Write(v, i, ready) := s.threads[t];
    assert i < |g.succs[v]| ==> EdgeWell(g, v, i) && EdgeOk(g, s, v, i);
  }

  lemma WriteLocal(g: Graph, s: State, s': State, t: nat)
    requires Inv(g, s) && t < |s.threads| && s.threads[t].Write? && InRange(g, s.threads[t])
    requires s' == DoWrite(g, s, t)
    ensures Local(g, s, s', t, {s.threads[t].v}) && ThreadOk(g, s', t)
  {
    var Write(v, i, ready) := s.threads[t];
    OwnsReady(g, s, t, v, ready);
    assert ThreadOk(g, s, t);
    WriteThread(g, s, s', t);
  }

  lemma WriteVertex(g: Graph, s: State, s': State, t: nat)
    requires WellBuilt(g) && Dims(g, s) && t < |s.threads| && s.threads[t].Write? && InRange(g, s.threads[t])
    requires Dims(g, s') && s' == DoWrite(g, s, t)
    requires ThreadOk(g, s, t) && CountsOk(g, s, s.threads[t].v)
    ensures PhaseOk(g, s', s.threads[t].v) && CountsOk(g, s', s.threads[t].v)
  {
  }

  lemma WriteEdges(g: Graph, s: State, s': State, t: nat)
    requires Mirrored(g) && Dims(g, s) && t < |s.threads| && s.threads[t].Write? && InRange(g, s.threads[t])
    requires Dims(g, s') && s' == DoWrite(g, s, t)
    requires ThreadOk(g, s, t) && EdgesOk(g, s)
    ensures EdgesOk(g, s')
  {
    var Write(v, i, ready) := s.threads[t];
    forall u: nat, j: nat | IsEdge(g, u, j)
      ensures EdgeOk(g, s', u, j)
    {
      assert EdgeWell(g, u, j) && EdgeOk(g, s, u, j);
      if i < |g.succs[v]| && g.succs[u][j] == g.succs[v][i] && g.depIdx[u][j] == g.depIdx[v][i] {
        OneEdge(g, u, j, v, i);
      }
    }
  }

  lemma WriteKeeps(g: Graph, s: State, t: nat)
    requires Inv(g, s) && t < |s.threads| && s.threads[t].Write?
    ensures InRange(g, s.threads[t]) && Inv(g, DoWrite(g, s, t))
  {
    var Write(v, i, ready) := s.threads[t];
    OwnsReady(g, s, t, v, ready);
    assert ThreadOk(g, s, t) && CountsOk(g, s, v);
    var s' := DoWrite(g, s, t);
    WriteLocal(g, s, s', t);
    WriteVertex(g, s, s', t);
    WriteEdges(g, s, s', t);
    LocalInv(g, s, s', t, {v});
  }

  /** Counting v's i-th notification: the successor is still waiting for it. */
  lemma StillWaiting(g: Graph, s: State, t: nat)
    requires Inv(g, s) && t < |s.threads| && s.threads[t].Decr? && InRange(g, s.threads[t])
    ensures var Decr(v, i, ready, last) := s.threads[t];
      var w, k := g.succs[v][i], g.depIdx[v][i];
      && EdgeWell(g, v, i) && w != v && k !in s.arrived[w]
      && s.waiting[w] > 0 && s.phase[w].Waiting? && w !in ready
  {
    var Decr(v, i, ready, last) := s.threads[t];
    var w, k := g.succs[v][i], g.depIdx[v][i];
    assert ThreadOk(g, s, t) && EdgeWell(g, v, i) && EdgeOk(g, s, v, i) && CountsOk(g, s, w);
    RankGrows(g, v, w);
    SubsetCard(s.arrived[w], Indices(|g.deps[w]|) - {k});
  }

  lemma DecrEdges(g: Graph, s: State, s': State, t: nat)
    requires Inv(g, s) && Dims(g, s') && t < |s.threads| && s.threads[t].Decr? && InRange(g, s.threads[t])
    requires s' == DoDecr(g, s, t)
    ensures EdgesOk(g, s')
  {
    var Decr(v, i, ready, last) := s.threads[t];
    StillWaiting(g, s, t);
    var w, k := g.succs[v][i], g.depIdx[v][i];
    assert ThreadOk(g, s, t);
    forall u: nat, j: nat | IsEdge(g, u, j)
      ensures EdgeOk(g, s', u, j)
    {
      assert EdgeWell(g, u, j) && EdgeOk(g, s, u, j);
      if g.succs[u][j] == w && g.depIdx[u][j] == k {
        OneEdge(g, u, j, v, i);
      }
    }
  }

  lemma DecrSame(g: Graph, s: State, s': State, t: nat, x: nat)
    requires Mirrored(g) && Dims(g, s) && t < |s.threads| && s.threads[t].Decr? && InRange(g, s.threads[t])
    requires s' == DoDecr(g, s, t) && x < |g.verts|
    requires x != s.threads[t].v && x != g.succs[s.threads[t].v][s.threads[t].i]
    ensures Dims(g, s') && SameVertex(s, s', x)
  {
    assert EdgeWell(g, s.threads[t].v, s.threads[t].i);
  }

  lemma DecrHolds(g: Graph, s: State, s': State, t: nat)
    requires Mirrored(g) && Dims(g, s) && t < |s.threads| && s.threads[t].Decr? && InRange(g, s.threads[t])
    requires s' == DoDecr(g, s, t)
    ensures Dims(g, s') && |s'.threads| == |s.threads| && s'.threads == s.threads[t := s'.threads[t]]
    ensures forall x :: x in s.threads[t].ready ==> x in Held(s'.threads[t])
    ensures s'.join == s.join && s'.joined == s.joined && s'.fired == s.fired
  {
    assert EdgeWell(g, s.threads[t].v, s.threads[t].i);
  }

  lemma DecrLocal(g: Graph, s: State, s': State, t: nat)
    requires Inv(g, s) && t < |s.threads| && s.threads[t].Decr? && InRange(g, s.threads[t])
    requires s' == DoDecr(g, s, t)
    ensures var Decr(v, i, ready, last) := s.threads[t]; Local(g, s, s', t, {v, g.succs[v][i]})
  {
    var Decr(v, i, ready, last) := s.threads[t];
    StillWaiting(g, s, t);
    OwnsReady(g, s, t, v, ready);
    DecrHolds(g, s, s', t);
    forall x: nat | x < |g.verts| && x !in {v, g.succs[v][i]}
      ensures SameVertex(s, s', x)
    {
      DecrSame(g, s, s', t, x);
    }
  }

  lemma DecrThread(g: Graph, s: State, s': State, t: nat)
    requires Mirrored(g) && Dims(g, s) && t < |s.threads| && s.threads[t].Decr? && InRange(g, s.threads[t])
    requires Dims(g, s') && s' == DoDecr(g, s, t) && ThreadOk(g, s, t)
    requires var Decr(v, i, ready, last) := s.threads[t];
      EdgeWell(g, v, i) && v !in ready && g.succs[v][i] !in ready && g.succs[v][i] != v
    ensures ThreadOk(g, s', t)
  {
  }

  lemma DecrOwn(g: Graph, s: State, s': State, t: nat)
    requires WellBuilt(g) && Dims(g, s) && t < |s.threads| && s.threads[t].Decr? && InRange(g, s.threads[t])
    requires Dims(g, s') && s' == DoDecr(g, s, t)
    requires var Decr(v, i, ready, last) := s.threads[t];
      && EdgeWell(g, v, i) && g.succs[v][i] != v && s.phase[v] == Notifying(t, i, true) && CountsOk(g, s, v)
    ensures PhaseOk(g, s', s.threads[t].v) && CountsOk(g, s', s.threads[t].v)
  {
  }

  lemma DecrSuccessor(g: Graph, s: State, s': State, t: nat)
    requires WellBuilt(g) && Dims(g, s) && t < |s.threads| && s.threads[t].Decr? && InRange(g, s.threads[t])
    requires Dims(g, s') && s' == DoDecr(g, s, t)
    requires var Decr(v, i, ready, last) := s.threads[t];
      var w, k := g.succs[v][i], g.depIdx[v][i];
      && EdgeWell(g, v, i) && w != v && k !in s.arrived[w] && last == Invalid
      && s.phase[w].Waiting? && CountsOk(g, s, w)
    ensures var w := g.succs[s.threads[t].v][s.threads[t].i]; PhaseOk(g, s', w) && CountsOk(g, s', w)
  {
    var Decr(v, i, ready, last) := s.threads[t];
    var w, k := g.succs[v][i], g.depIdx[v][i];
    assert s'.arrived[w] == s.arrived[w] + {k};
    assert |s'.arrived[w]| == |s.arrived[w]| + 1;
  }

  lemma DecrParts(g: Graph, s: State, s': State, t: nat)
    requires Inv(g, s) && t < |s.threads| && s.threads[t].Decr? && InRange(g, s.threads[t])
    requires Dims(g, s') && s' == DoDecr(g, s, t)
    ensures var v, w := s.threads[t].v, g.succs[s.threads[t].v][s.threads[t].i];
      && EdgeWell(g, v, s.threads[t].i) && ThreadOk(g, s', t)
      && PhaseOk(g, s', v) && CountsOk(g, s', v) && PhaseOk(g, s', w) && CountsOk(g, s', w)
  {
    var Decr(v, i, ready, last) := s.threads[t];
    OwnsReady(g, s, t, v, ready);
    StillWaiting(g, s, t);
    var w := g.succs[v][i];
    assert ThreadOk(g, s, t) && CountsOk(g, s, v) && CountsOk(g, s, w);
    DecrThread(g, s, s', t);
    DecrOwn(g, s, s', t);
    DecrSuccessor(g, s, s', t);
  }

  lemma DecrKeeps(g: Graph, s: State, t: nat)
    requires Inv(g, s) && t < |s.threads| && s.threads[t].Decr?
    ensures InRange(g, s.threads[t]) && Inv(g, DoDecr(g, s, t))
  {
    var Decr(v, i, ready, last) := s.threads[t];
    OwnsReady(g, s, t, v, ready);
    DecrInv(g, s, DoDecr(g, s, t), t, v, g.succs[v][i]);
  }

  lemma DecrInv(g: Graph, s: State, s': State, t: nat, v: nat, w: nat)
    requires Inv(g, s) && t < |s.threads| && s.threads[t].Decr? && InRange(g, s.threads[t]) && s' == DoDecr(g, s, t)
    requires v == s.threads[t].v && w == g.succs[v][s.threads[t].i]
    ensures Inv(g, s')
  {
    DecrHolds(g, s, s', t);
    DecrLocal(g, s, s', t);
    DecrParts(g, s, s', t);
    DecrEdges(g, s, s', t);
    LocalInv(g, s, s', t, {v, w});
  }

  // ------------------------------------------------------------- safety of runs

  lemma InvInRange(g: Graph, s: State, t: nat)
    requires Inv(g, s) && t < |s.threads|
    ensures InRange(g, s.threads[t])
  {
    assert ThreadOk(g, s, t);
    match s.threads[t]
    case Launch(rest, local) =>
      assert local in Held(s.threads[t]) && forall x :: x in rest ==> x in Held(s.threads[t]);
    case Exec(v) =>
      assert v in Held(s.threads[t]);
    case _ =>
  }

  /** Every action of every thread keeps the invariant. */
  lemma ActKeeps(g: Graph, s: State, t: nat, choice: nat)
    requires Inv(g, s) && t < |s.threads| && s.threads[t] != Idle
    ensures InRange(g, s.threads[t]) && Inv(g, Act(g, s, t, choice))
  {
    InvInRange(g, s, t);
    match s.threads[t]
    case Dispatch(_) => DispatchKeeps(g, s, t, choice);
    case Launch(_, _) => LaunchKeeps(g, s, t);
    case Exec(_) => ExecKeeps(g, s, t);
    case Finish(_, _) => FinishKeeps(g, s, t);
    case Emit(_) => EmitKeeps(g, s, t);
    case Join(_) => JoinKeeps(g, s, t);
    case Write(_, _, _) => WriteKeeps(g, s, t);
    case Decr(_, _, _, _) => DecrKeeps(g, s, t);
  }

  lemma InitialVertex(g: Graph, starts: seq<nat>, s: State, v: nat)
    requires WellBuilt(g) && Starts(g, starts) && v < |g.verts|
    requires s == Initial(g, starts) && Dims(g, s)
    ensures PhaseOk(g, s, v) && CountsOk(g, s, v)
  {
    assert s.waiting[v] == |g.deps[v]| && s.arrived[v] == {} && s.runs[v] == 0 && s.results[v] == Invalid;
  }

  lemma InitialInv(g: Graph, starts: seq<nat>)
    requires WellBuilt(g) && Starts(g, starts)
    ensures Inv(g, Initial(g, starts))
  {
    var s := Initial(g, starts);
    assert Dims(g, s) && ThreadOk(g, s, 0);
    forall v: nat | v < |g.verts|
      ensures PhaseOk(g, s, v) && CountsOk(g, s, v)
    {
      InitialVertex(g, starts, s, v);
    }
    forall u: nat, i: nat | IsEdge(g, u, i)
      ensures EdgeOk(g, s, u, i)
    {
      assert EdgeWell(g, u, i);
    }
  }

  /** A run: any threads take any number of actions, in any interleaving. */
  ghost predicate IsRun(g: Graph, starts: seq<nat>, run: seq<State>)
    requires Sized(g)
  {
    && |run| > 0 && run[0] == Initial(g, starts)
    && forall i :: 0 <= i < |run| - 1 ==> Step(g, run[i], run[i + 1])
  }

  /** v has not executed, every dependency of v has finished with the result in
      its slot, and what a successful dependency emits has been emitted. */
  ghost predicate Prepared(g: Graph, s: State, v: nat)
    requires Sized(g) && Dims(g, s)
  {
    && v < |g.verts| && s.runs[v] == 0
    && forall k :: 0 <= k < |g.deps[v]| ==>
         && g.deps[v][k] < |g.verts| && s.runs[g.deps[v][k]] == 1
         && s.slots[v][k] == s.results[g.deps[v][k]] != Invalid
         && (s.slots[v][k] == Ok ==> g.deps[v][k] in s.emitted)
  }

  lemma ReadyToExecute(g: Graph, s: State, t: nat)
    requires Inv(g, s) && t < |s.threads| && s.threads[t].Exec?
    ensures InRange(g, s.threads[t]) && Prepared(g, s, s.threads[t].v)
  {
    InvInRange(g, s, t);
    var v := s.threads[t].v;
    assert ThreadOk(g, s, t) && v in Held(s.threads[t]) && CountsOk(g, s, v);
    forall k: nat | k < |g.deps[v]|
      ensures && g.deps[v][k] < |g.verts| && s.runs[g.deps[v][k]] == 1
              && s.slots[v][k] == s.results[g.deps[v][k]] != Invalid
              && (s.slots[v][k] == Ok ==> g.deps[v][k] in s.emitted)
    {
      SlotsFinal(g, s, v, k);
      assert CountsOk(g, s, g.deps[v][k]);
    }
  }

  /** No vertex is executed twice, no result differs from the vertex's meaning
      and the closure is called at most once, when every vertex has joined. */
  lemma SafeState(g: Graph, s: State)
    requires Inv(g, s)
    ensures forall v :: 0 <= v < |g.verts| ==> s.runs[v] <= 1
    ensures forall v :: 0 <= v < |g.verts| ==> s.results[v] != Invalid ==>
              s.runs[v] == 1 && s.results[v] == ResultOf(Meaning(g, v))
    ensures s.fired <= 1
    ensures s.fired == 1 ==> forall v :: 0 <= v < |g.verts| ==> s.results[v] != Invalid
  {
    forall v: nat | v < |g.verts|
      ensures s.runs[v] <= 1
      ensures s.results[v] != Invalid ==> s.runs[v] == 1 && s.results[v] == ResultOf(Meaning(g, v))
      ensures s.fired == 1 ==> s.results[v] != Invalid
    {
      assert CountsOk(g, s, v);
      if s.fired == 1 { FullSet(s.joined, Indices(|g.verts|)); }
    }
  }

  /** A thread with no vertex to run and no successor left to notify */
  predicate Winding(g: Graph, task: Task)
    requires Sized(g)
  {
    || task == Idle || task == Dispatch([])
    || (task.Write? && task.v < |g.verts| && task.i == |g.succs[task.v]| && task.ready == [])
  }

  /** When the closure is called, no other thread has anything left to do. */
  lemma FiresQuiescent(g: Graph, s: State, t: nat, u: nat)
    requires Inv(g, s) && t < |s.threads| && s.threads[t].Join? && s.join == 1
    requires u < |s.threads| && u != t
    ensures Winding(g, s.threads[u])
  {
    var held := Held(s.threads[u]);
    assert |held| > 0 ==> held[0] in held;
    LastJoin(g, s, t);
    var v := s.threads[t].v;
    assert ThreadOk(g, s, t) && ThreadOk(g, s, u);
    assert held == [];
    match s.threads[u]
    case Write(x, i, _) =>
      if i < |g.succs[x]| { AllNotified(g, s, v, x, i); }
    case Decr(x, i, _, _) =>
      AllNotified(g, s, v, x, i);
    case _ =>
  }

  /** Once everything but v has joined and v is joining, no edge is pending. */
  lemma AllNotified(g: Graph, s: State, v: nat, x: nat, i: nat)
    requires Inv(g, s) && v < |g.verts| && IsEdge(g, x, i)
    requires !s.phase[v].Waiting? && forall y :: 0 <= y < |g.verts| && y != v ==> HasJoined(s.phase[y])
    ensures Passed(s.phase[x], i)
  {
    assert EdgeWell(g, x, i) && EdgeOk(g, s, x, i);
    var w := g.succs[x][i];
    assert CountsOk(g, s, w);
    FullSet(s.arrived[w], Indices(|g.deps[w]|));
  }

  // -------------------------------------------------------------- termination

  ghost function Sum(w: seq<nat>): nat {
    if w == [] then 0 else w[0] + Sum(w[1..])
  }

  lemma {:induction false} SumUpdate(w: seq<nat>, i: nat, x: nat)
    requires i < |w|
    ensures Sum(w[i := x]) + w[i] == Sum(w) + x
  {
    if i == 0 {
      assert w[0 := x][1..] == w[1..];
    } else {
      assert w[i := x][1..] == w[1..][i - 1 := x];
      SumUpdate(w[1..], i - 1, x);
    }
  }

  lemma {:induction false} SumAppend(w: seq<nat>, x: nat)
    ensures Sum(w + [x]) == Sum(w) + x
  {
    if w == [] {
      assert w + [x] == [x];
    } else {
      assert (w + [x])[1..] == w[1..] + [x];
      SumAppend(w[1..], x);
    }
  }

  /** Actions still to come for a vertex with n successors */
  function Effort(p: Phase, n: nat): nat {
    match p
    case Over => 0
    case Notifying(_, at, written) => if at > n then 0 else 2 * (n - at) + (if written then 0 else 1)
    case Joining(_) => 2 * n + 3
    case Emitting(_) => 2 * n + 4
    case Finishing(_, _) => 2 * n + 5
    case Pending(_) => 2 * n + 6
    case Waiting => 2 * n + 8
  }

  /** Actions still to come for handing out what a thread holds */
  function Handing(task: Task): nat {
    match task
    case Dispatch(ready) => |ready| + 1
    case Launch(rest, _) => |rest| + 1
    case Write(_, _, ready) => |ready| + 1
    case Decr(_, _, ready, _) => |ready| + 1
    case _ => 0
  }

  ghost function Efforts(g: Graph, phase: seq<Phase>): seq<nat>
    requires Sized(g) && |phase| == |g.verts|
  {
    seq(|phase|, v requires 0 <= v < |phase| => Effort(phase[v], |g.succs[v]|))
  }

  ghost function Handings(threads: seq<Task>): seq<nat> {
    seq(|threads|, t requires 0 <= t < |threads| => Handing(threads[t]))
  }

  /** A bound on the actions all threads together can still take */
  ghost function Remaining(g: Graph, s: State): nat
    requires Sized(g) && |s.phase| == |g.verts|
  {
    Sum(Efforts(g, s.phase)) + Sum(Handings(s.threads))
  }

  lemma EffortUpdate(g: Graph, phase: seq<Phase>, v: nat, p: Phase)
    requires Sized(g) && |phase| == |g.verts| && v < |phase|
    ensures Sum(Efforts(g, phase[v := p])) + Effort(phase[v], |g.succs[v]|)
         == Sum(Efforts(g, phase)) + Effort(p, |g.succs[v]|)
  {
    assert Efforts(g, phase[v := p]) == Efforts(g, phase)[v := Effort(p, |g.succs[v]|)];
    SumUpdate(Efforts(g, phase), v, Effort(p, |g.succs[v]|));
  }

  lemma HandingUpdate(threads: seq<Task>, t: nat, task: Task)
    requires t < |threads|
    ensures Sum(Handings(threads[t := task])) + Handing(threads[t]) == Sum(Handings(threads)) + Handing(task)
  {
    assert Handings(threads[t := task]) == Handings(threads)[t := Handing(task)];
    SumUpdate(Handings(threads), t, Handing(task));
  }

  lemma HandingAppend(threads: seq<Task>, task: Task)
    ensures Sum(Handings(threads + [task])) == Sum(Handings(threads)) + Handing(task)
  {
    assert Handings(threads + [task]) == Handings(threads) + [Handing(task)];
    SumAppend(Handings(threads), Handing(task));
  }

  lemma LaunchDecreases(g: Graph, s: State, t: nat)
    requires Inv(g, s) && t < |s.threads| && s.threads[t].Launch?
    ensures |DoLaunch(s, t).phase| == |g.verts| && Remaining(g, DoLaunch(s, t)) < Remaining(g, s)
  {
    var Launch(rest, local) := s.threads[t];
    assert ThreadOk(g, s, t);
    if rest == [] {
      HandingUpdate(s.threads, t, Exec(local));
    } else {
      var x := rest[0];
      assert Held(s.threads[t])[0] == x && x in Held(s.threads[t]);
      HandingUpdate(s.threads, t, Launch(rest[1..], local));
      HandingAppend(s.threads[t := Launch(rest[1..], local)], Exec(x));
      EffortUpdate(g, s.phase, x, Pending(|s.threads|));
    }
  }

  lemma OneMoves(g: Graph, s: State, s': State, t: nat, v: nat)
    requires Sized(g) && |s.phase| == |s'.phase| == |g.verts| && |s.threads| == |s'.threads|
    requires t < |s.threads| && v < |g.verts|
    requires s'.phase == s.phase[v := s'.phase[v]] && s'.threads == s.threads[t := s'.threads[t]]
    requires var n := |g.succs[v]|;
      Effort(s'.phase[v], n) + Handing(s'.threads[t]) < Effort(s.phase[v], n) + Handing(s.threads[t])
    ensures Remaining(g, s') < Remaining(g, s)
  {
    HandingUpdate(s.threads, t, s'.threads[t]);
    EffortUpdate(g, s.phase, v, s'.phase[v]);
  }

  lemma TwoMove(g: Graph, s: State, s': State, t: nat, v: nat, w: nat)
    requires Sized(g) && |s.phase| == |s'.phase| == |g.verts| && |s.threads| == |s'.threads|
    requires t < |s.threads| && v < |g.verts| && w < |g.verts| && v != w
    requires s'.phase == s.phase[v := s'.phase[v]][w := s'.phase[w]]
    requires s'.threads == s.threads[t := s'.threads[t]]
    requires var n, m := |g.succs[v]|, |g.succs[w]|;
      Effort(s'.phase[v], n) + Effort(s'.phase[w], m) + Handing(s'.threads[t])
        < Effort(s.phase[v], n) + Effort(s.phase[w], m) + Handing(s.threads[t])
    ensures Remaining(g, s') < Remaining(g, s)
  {
    HandingUpdate(s.threads, t, s'.threads[t]);
    EffortUpdate(g, s.phase, v, s'.phase[v]);
    EffortUpdate(g, s.phase[v := s'.phase[v]], w, s'.phase[w]);
  }

  lemma DecrMoves(g: Graph, s: State, s': State, t: nat)
    requires Mirrored(g) && Dims(g, s) && t < |s.threads| && s.threads[t].Decr? && InRange(g, s.threads[t])
    requires s' == DoDecr(g, s, t) && ActingOk(g, s, t)
    requires var Decr(v, i, ready, last) := s.threads[t];
      EdgeWell(g, v, i) && g.succs[v][i] != v && s.phase[g.succs[v][i]].Waiting?
    ensures |s'.phase| == |g.verts| && Remaining(g, s') < Remaining(g, s)
  {
    var Decr(v, i, ready, last) := s.threads[t];
    TwoMove(g, s, s', t, v, g.succs[v][i]);
  }

  lemma DecrDecreases(g: Graph, s: State, t: nat)
    requires Inv(g, s) && t < |s.threads| && s.threads[t].Decr? && InRange(g, s.threads[t])
    ensures |DoDecr(g, s, t).phase| == |g.verts| && Remaining(g, DoDecr(g, s, t)) < Remaining(g, s)
  {
    assert ThreadOk(g, s, t);
    StillWaiting(g, s, t);
    DecrMoves(g, s, DoDecr(g, s, t), t);
  }

  lemma MoveDecreases(g: Graph, s: State, t: nat, choice: nat)
    requires Mirrored(g) && Dims(g, s) && t < |s.threads| && InRange(g, s.threads[t]) && ThreadOk(g, s, t)
    requires var task := s.threads[t]; task.Exec? || task.Finish? || task.Emit? || task.Join? || task.Write?
    ensures |Act(g, s, t, choice).phase| == |g.verts| && Remaining(g, Act(g, s, t, choice)) < Remaining(g, s)
  {
    var v, s' := s.threads[t].v, Act(g, s, t, choice);
    assert s.threads[t].Exec? ==> v in Held(s.threads[t]);
    OneMoves(g, s, s', t, v);
  }

  /** Every action brings the end closer, whoever takes it. */
  lemma ActDecreases(g: Graph, s: State, t: nat, choice: nat)
    requires Inv(g, s) && t < |s.threads| && s.threads[t] != Idle && InRange(g, s.threads[t])
    ensures |Act(g, s, t, choice).phase| == |g.verts| && Remaining(g, Act(g, s, t, choice)) < Remaining(g, s)
  {
    assert ThreadOk(g, s, t);
    match s.threads[t]
    case Dispatch(ready) => HandingUpdate(s.threads, t, DispatchTo(ready, choice));
    case Launch(_, _) => LaunchDecreases(g, s, t);
    case Decr(_, _, _, _) => DecrDecreases(g, s, t);
    case _ => MoveDecreases(g, s, t, choice);
  }

  /** A run is never longer than its first state allows. */
  lemma {:induction false} RunBounded(g: Graph, starts: seq<nat>, run: seq<State>)
    requires WellBuilt(g) && Starts(g, starts) && IsRun(g, starts, run)
    ensures Inv(g, run[|run| - 1])
    ensures |run| - 1 + Remaining(g, run[|run| - 1]) <= Remaining(g, Initial(g, starts))
  {
    if |run| == 1 {
      InitialInv(g, starts);
    } else {
      var prev := run[..|run| - 1];
      assert prev[0] == run[0];
      RunBounded(g, starts, prev);
      var s, s' := run[|run| - 2], run[|run| - 1];
      assert Step(g, s, s') && prev[|prev| - 1] == s;
      var t: nat, choice: nat :| t < |s.threads| && s.threads[t] != Idle && InRange(g, s.threads[t])
                                 && s' == Act(g, s, t, choice);
      ActKeeps(g, s, t, choice);
      ActDecreases(g, s, t, choice);
    }
  }

  // ------------------------------------------------------------------ progress

  /** With every thread idle nothing can still be waiting. */
  lemma {:induction false} NoneWaits(g: Graph, s: State, v: nat)
    requires Inv(g, s) && v < |g.verts| && forall t :: 0 <= t < |s.threads| ==> s.threads[t] == Idle
    ensures s.phase[v].Over?
    decreases Rank(g, v)
  {
    assert PhaseOk(g, s, v) && CountsOk(g, s, v);
    forall k: nat | k < |g.deps[v]|
      ensures k in s.arrived[v]
    {
      DepRank(g, v, k);
      var u := g.deps[v][k];
      NoneWaits(g, s, u);
      assert DepWell(g, v, k);
      var i: nat :| i < |g.succs[u]| && g.succs[u][i] == v && g.depIdx[u][i] == k;
      assert IsEdge(g, u, i) && EdgeOk(g, s, u, i);
    }
    assert s.arrived[v] == Indices(|g.deps[v]|);
  }

  /** A state in which no thread can act is one in which all is done: each
      vertex executed once with its meaning as result, the closure called once. */
  lemma StuckIsDone(g: Graph, s: State)
    requires Inv(g, s) && forall t :: 0 <= t < |s.threads| ==> s.threads[t] == Idle
    ensures s.join == 0 && s.fired == 1
    ensures forall v :: 0 <= v < |g.verts| ==> s.runs[v] == 1 && s.results[v] == ResultOf(Meaning(g, v))
  {
    forall v: nat | v < |g.verts|
      ensures v in s.joined && s.runs[v] == 1 && s.results[v] == ResultOf(Meaning(g, v))
    {
      NoneWaits(g, s, v);
      assert CountsOk(g, s, v);
    }
    assert s.joined == Indices(|g.verts|);
  }

  ghost predicate Halted(g: Graph, s: State) {
    forall s' :: !Step(g, s, s')
  }

  ghost predicate Complete(g: Graph, starts: seq<nat>, run: seq<State>)
    requires Sized(g)
  {
    IsRun(g, starts, run) && Halted(g, run[|run| - 1])
  }

  /** All of this in every state of every run. */
  lemma RunSafe(g: Graph, starts: seq<nat>, run: seq<State>)
    requires WellBuilt(g) && Starts(g, starts) && IsRun(g, starts, run)
    ensures var s := run[|run| - 1];
      && Inv(g, s) && s.fired <= 1
      && (forall v :: 0 <= v < |g.verts| ==> s.runs[v] <= 1 && (s.fired == 1 ==> s.results[v] != Invalid))
      && (forall v :: 0 <= v < |g.verts| && s.results[v] != Invalid ==> s.results[v] == ResultOf(Meaning(g, v)))
      && (forall t :: 0 <= t < |s.threads| && s.threads[t].Exec? ==> Prepared(g, s, s.threads[t].v))
      && (forall t, u :: 0 <= t < |s.threads| && 0 <= u < |s.threads| && u != t && s.threads[t].Join? && s.join == 1 ==>
            Winding(g, s.threads[u]))
  {
    RunBounded(g, starts, run);
    var s := run[|run| - 1];
    SafeState(g, s);
    forall t: nat | t < |s.threads| && s.threads[t].Exec?
      ensures Prepared(g, s, s.threads[t].v)
    {
      ReadyToExecute(g, s, t);
    }
    forall t: nat, u: nat | t < |s.threads| && u < |s.threads| && u != t && s.threads[t].Join? && s.join == 1
      ensures Winding(g, s.threads[u])
    {
      FiresQuiescent(g, s, t, u);
    }
  }

  /** Whatever the interleaving, a run that has come to its end did everything. */
  lemma CompleteRun(g: Graph, starts: seq<nat>, run: seq<State>)
    requires WellBuilt(g) && Starts(g, starts) && Complete(g, starts, run)
    ensures var s := run[|run| - 1];
      && Inv(g, s) && s.fired == 1
      && forall v :: 0 <= v < |g.verts| ==> s.runs[v] == 1 && s.results[v] == ResultOf(Meaning(g, v))
  {
    RunBounded(g, starts, run);
    var s := run[|run| - 1];
    forall t: nat | t < |s.threads|
      ensures s.threads[t] == Idle
    {
      if s.threads[t] != Idle {
        InvInRange(g, s, t);
        assert Step(g, s, Act(g, s, t, 0));
      }
    }
    StuckIsDone(g, s);
  }

  /** Schedule independence: two complete runs, from any two orders of the start
      vertices, leave the same results. */
  lemma SameResults(g: Graph, starts1: seq<nat>, run1: seq<State>, starts2: seq<nat>, run2: seq<State>)
    requires WellBuilt(g) && Starts(g, starts1) && Starts(g, starts2)
    requires Complete(g, starts1, run1) && Complete(g, starts2, run2)
    ensures run1[|run1| - 1].results == run2[|run2| - 1].results
  {
    CompleteRun(g, starts1, run1);
    CompleteRun(g, starts2, run2);
  }

  // ---------------------------------------------------------- results in plain words

  /** What the dependencies of v ended with, in the order of its slots */
  ghost function DepResults(g: Graph, s: State, v: nat): (r: seq<Result>)
    requires WellBuilt(g) && Dims(g, s) && v < |g.verts|
    ensures |r| == |g.deps[v]|
  {
    seq(|g.deps[v]|, k requires 0 <= k < |g.deps[v]| => DepRank(g, v, k); s.results[g.deps[v][k]])
  }

  /** Once v has a result, it is good if and only if v has something to run, every
      dependency ended as v expects of it, the config variable says so, the deadline
      has not passed, and what ran went well. */
  lemma OkExactly(g: Graph, s: State, v: nat)
    requires Inv(g, s) && v < |g.verts| && s.results[v] != Invalid
    ensures |g.masks[v]| == |g.deps[v]|
    ensures s.results[v] == Ok <==> Succeeds(g.verts[v], g.masks[v], DepResults(g, s, v))
    ensures s.results[v] == Ok || s.results[v] == Err
  {
    assert CountsOk(g, s, v);
    DecidesMeaning(g, s, v);
    forall k: nat | k < |g.deps[v]|
      ensures s.slots[v][k] == DepResults(g, s, v)[k]
    {
      SlotsFinal(g, s, v, k);
    }
    assert s.slots[v] == DepResults(g, s, v);
    DecideExactly(g.verts[v], g.masks[v], s.slots[v]);
  }

  /** So it is at the end of every run. */
  lemma CompleteExactly(g: Graph, starts: seq<nat>, run: seq<State>, s: State, v: nat)
    requires WellBuilt(g) && Starts(g, starts) && Complete(g, starts, run) && s == run[|run| - 1] && v < |g.verts|
    ensures Dims(g, s) && |g.masks[v]| == |g.deps[v]| && s.results[v] != Invalid
    ensures s.results[v] == Ok <==>
      && (g.verts[v].hasProcessor || g.verts[v].hasSubgraph)
      && (forall k :: 0 <= k < |g.deps[v]| ==>
            g.deps[v][k] < |s.results| && Meets(s.results[g.deps[v][k]], g.masks[v][k]))
      && (g.verts[v].config.ConfigVar? ==>
            (g.verts[v].config.found && g.verts[v].config.value) != g.verts[v].config.negated)
      && !g.verts[v].late
      && (if g.verts[v].hasProcessor then
            g.verts[v].injects && (g.verts[v].rc == 0 || (g.verts[v].ignoreError && !g.verts[v].isCond))
          else g.verts[v].rc == 0)
  {
    CompleteRun(g, starts, run);
    OkExactly(g, s, v);
    var r := DepResults(g, s, v);
    forall k: nat | k < |g.deps[v]|
      ensures g.deps[v][k] < |s.results| && s.results[g.deps[v][k]] == r[k]
    {
      DepRank(g, v, k);
    }
  }
}
