/** Whole runs of the frontier engine against the naive model that only keeps the graph and
    the direct states and recomputes every answer. */
module FrontierRuns {
  import opened Dag
  import opened FrontierSpec
  import opened FrontierIndex
  import opened FrontierEngine
  import opened MemoryStatus

  datatype Op =
    | Add(id: Id, dependsOn: seq<Id>)
    | SetDeps(id: Id, dependsOn: seq<Id>)
    | Remove(id: Id)
    | Mark(ids: set<Id>, status: Status)
    | Replace(id: Id, status: Status)
    | Resolution(id: Id)
    | Restore(states: seq<(Id, Status)>)
    | Distrust
    | OldRestore
    | Query(id: Id)

  /** The whole state of the naive model. */
  datatype Model = Model(graph: Edges, dirty: Dirty)

  ghost function NaiveSet(g: Edges, id: Id, dependsOn: seq<Id>): Edges {
    if id in dependsOn then WithNodes(g, BeforeSelf(dependsOn, id))
    else if Acyclic(WithDeps(g, id, Elems(dependsOn))) then WithDeps(g, id, Elems(dependsOn))
    else g
  }

  ghost function NaiveStep(m: Model, op: Op): Model {
    match op
    case Add(id, dependsOn) => if id in m.graph then m else m.(graph := NaiveSet(m.graph, id, dependsOn))
    case SetDeps(id, dependsOn) => m.(graph := NaiveSet(m.graph, id, dependsOn))
    case Remove(id) =>
      if id in m.graph && exists n :: id in At(m.graph, n) then m else Model(m.graph - {id}, m.dirty - {id})
    case Mark(ids, status) =>
      if status != FRESH && ids <= m.graph.Keys then m.(dirty := MarkAll(m.dirty, ids, status)) else m
    case Replace(id, status) =>
      if id !in m.graph then m
      else m.(dirty := if status == FRESH then m.dirty - {id} else m.dirty[id := status])
    case Resolution(id) =>
      if id in m.dirty && m.dirty[id] != UNKNOWN then m.(dirty := m.dirty - {id}) else m
    case Restore(states) =>
      if CompleteSnapshot(m.graph, states) then m.(dirty := SnapshotStates(states)) else m
    case Distrust => m
    case OldRestore => m
    case Query(_) => m
  }

  ghost function NaiveRun(m: Model, ops: seq<Op>): Model {
    if ops == [] then m else NaiveStep(NaiveRun(m, ops[..|ops| - 1]), ops[|ops| - 1])
  }

  /** The operation withdraws trust by itself: resolving an UNKNOWN state does. */
  ghost predicate Withdraws(m: Model, op: Op) {
    op.Distrust? || op.OldRestore? || (op.Resolution? && op.id in m.dirty && m.dirty[op.id] == UNKNOWN)
  }

  ghost predicate Restores(m: Model, op: Op) { op.Restore? && CompleteSnapshot(m.graph, op.states) }

  /** Trust was withdrawn and no complete snapshot has been restored since. */
  ghost predicate Distrusted(m: Model, ops: seq<Op>) {
    ops != [] &&
    var before, last := NaiveRun(m, ops[..|ops| - 1]), ops[|ops| - 1];
    Withdraws(before, last) || (!Restores(before, last) && Distrusted(m, ops[..|ops| - 1]))
  }

  ghost function View(engine: IncrementalFrontierEngine): Model
    reads engine
  {
    Model(engine.dependencies, engine.directDirty)
  }

  /** What one operation on the engine did; exceeded is what the engine reports afterwards. */
  datatype Step = Step(answer: QueryAnswer, exceeded: bool)

  datatype QueryAnswer = NoAnswer | Answer(result: FrontierResult)

  /** A read-out overran its budget: a fresh complete answer with the budget exceeded. */
  predicate Overran(step: Step) {
    step.answer.Answer? && step.answer.result.complete && !step.answer.result.cacheHit && step.exceeded
  }

  predicate Complete(step: Step) { step.answer.Answer? && step.answer.result.complete }

  /** The answer to this operation is the naive answer. */
  ghost predicate ExactFor(m: Model, op: Op, result: FrontierResult) {
    op.Query? && Exact(m.graph, m.dirty, op.id, result.status, result.frontier)
  }

  method Apply(engine: IncrementalFrontierEngine, op: Op) returns (step: Step)
    requires engine.Valid()
    modifies engine
    ensures engine.Valid() && View(engine) == NaiveStep(old(View(engine)), op)
    ensures step.exceeded == engine.frontierBudgetExceeded
    ensures old(engine.NoOverrun()) && !Overran(step) ==> engine.NoOverrun()
    ensures step.answer.Answer? <==> op.Query? && op.id in old(engine.dependencies)
    ensures old(engine.NoOverrun()) && Complete(step) ==>
              ExactFor(old(View(engine)), op, step.answer.result)
    ensures Withdraws(old(View(engine)), op) ==> !engine.trusted && engine.NothingComplete()
    ensures old(!engine.trusted && engine.NothingComplete()) ==> !Complete(step)
    ensures old(!engine.trusted && engine.NothingComplete()) && !Restores(old(View(engine)), op) ==>
              !engine.trusted && engine.NothingComplete()
    ensures old(engine.trusted) && !step.exceeded && step.answer.Answer? ==> Complete(step)
    ensures old(engine.trusted) && !step.exceeded && !Withdraws(old(View(engine)), op) ==> engine.trusted
    ensures !step.exceeded && Restores(old(View(engine)), op) ==> engine.trusted
  {
    hide Reach, IndexOk, GraphOk, NoFresh, Propagated, Seeded, Exact, Acyclic, WithDeps, WithNodes, CompleteSnapshot,
         SnapshotStates, Marked, MarkAll, StatusTells, BeforeSelf;
    hide IncrementalFrontierEngine.Valid;
    var answer := NoAnswer;
    match op {
      case Add(id, dependsOn) => var _ := engine.AddNode(id, dependsOn);
      case SetDeps(id, dependsOn) => var _ := engine.SetDependencies(id, dependsOn);
      case Remove(id) => var _ := engine.RemoveNode(id);
      case Mark(ids, status) => var _ := engine.MarkDirty(ids, status);
      case Replace(id, status) => var _ := engine.ReplaceStatus(id, status);
      case Resolution(id) => var _ := engine.Resolve(id);
      case Restore(states) => var _ := engine.RestoreStates(states);
      case Distrust => engine.MarkUnknown();
      case OldRestore => engine.RestoreTrust();
      case Query(id) =>
        var r, _ := engine.Frontier(id);
        if r.Done? { answer := Answer(r.value); }
    }
    step := Step(answer, engine.frontierBudgetExceeded);
  }

  lemma {:induction false} RunNoFresh(m: Model, ops: seq<Op>)
    requires NoFresh(m.dirty)
    ensures NoFresh(NaiveRun(m, ops).dirty)
  {
    if ops != [] {
      var before, last := NaiveRun(m, ops[..|ops| - 1]), ops[|ops| - 1];
      RunNoFresh(m, ops[..|ops| - 1]);
      if last.Mark? && last.status != FRESH { MarkAllMarks(before.dirty, last.ids, last.status); }
      if last.Restore? && CompleteSnapshot(before.graph, last.states) { SnapshotMeaning(last.states); }
    }
  }

  /** What a complete answer within a run says, as long as no read-out has overrun its budget. */
  lemma CompleteAnswerMeans(m: Model, trusted: bool, ops: seq<Op>, steps: seq<Step>, k: nat)
    requires k < |steps| <= |ops| && NoFresh(m.dirty) && StepOk(m, trusted, ops, steps, k)
    requires Complete(steps[k]) && forall j :: 0 <= j < k ==> !Overran(steps[j])
    ensures var now := NaiveRun(m, ops[..k]);
            StatusTells(now.graph, now.dirty, ops[k].id, steps[k].answer.result.status)
  {
    hide NaiveRun, Exact, StatusTells, NoFresh;
    RunNoFresh(m, ops[..k]);
    var now, result := NaiveRun(m, ops[..k]), steps[k].answer.result;
    StatusMeaning(now.graph, now.dirty, ops[k].id, result.status, result.frontier);
  }

  lemma RunPrefix(m: Model, ops: seq<Op>, i: nat)
    requires i < |ops|
    ensures NaiveRun(m, ops[..i + 1]) == NaiveStep(NaiveRun(m, ops[..i]), ops[i])
    ensures ops[..i + 1][..i] == ops[..i]
    ensures Distrusted(m, ops[..i + 1]) <==>
              || Withdraws(NaiveRun(m, ops[..i]), ops[i])
              || (!Restores(NaiveRun(m, ops[..i]), ops[i]) && Distrusted(m, ops[..i]))
  {
    assert ops[..i + 1][..i] == ops[..i];
  }

  /** Any run, from any valid engine: the engine's state is the naive model's state; until a
      read-out overruns its budget every complete answer is the naive answer; from a
      withdrawal of trust to the next full restore no answer is complete; and as long as the
      budget is not exceeded, every other answer is. */
  method Run(engine: IncrementalFrontierEngine, ops: seq<Op>) returns (steps: seq<Step>)
    requires engine.Valid() && engine.NoOverrun()
    modifies engine
    ensures engine.Valid() && |steps| == |ops|
    ensures View(engine) == NaiveRun(old(View(engine)), ops)
    ensures forall k :: 0 <= k < |ops| ==> StepOk(old(View(engine)), old(engine.trusted), ops, steps, k)
  {
    hide NaiveStep, Distrusted, NaiveRun, Withdraws, Restores, Overran, Complete, StepOk, ExactFor;
    hide IncrementalFrontierEngine.Valid, IncrementalFrontierEngine.NoOverrun,
         IncrementalFrontierEngine.NothingComplete;
    steps := [];
    ghost var m0, trusted0, intact, within := View(engine), engine.trusted, true, true;
    assert ops[..0] == [];
    RunStarts(m0);
    for i := 0 to |ops|
      invariant engine.Valid() && |steps| == i
      invariant View(engine) == NaiveRun(m0, ops[..i])
      invariant intact <==> forall j :: 0 <= j < i ==> !Overran(steps[j])
      invariant within <==> forall j :: 0 <= j < i ==> !steps[j].exceeded
      invariant intact ==> engine.NoOverrun()
      invariant Distrusted(m0, ops[..i]) ==> !engine.trusted && engine.NothingComplete()
      invariant trusted0 && within && !Distrusted(m0, ops[..i]) ==> engine.trusted
      invariant forall k :: 0 <= k < i ==> StepOk(m0, trusted0, ops, steps, k)
    {
      RunPrefix(m0, ops, i);
      var step := Apply(engine, ops[i]);
      StepsStayOk(m0, trusted0, ops, steps, step);
      NewStepOk(m0, trusted0, ops, steps, step, intact, within);
      ghost var steps0 := steps;
      steps := steps + [step];
      assert steps[i] == step && forall j :: 0 <= j < i ==> steps[j] == steps0[j];
      intact := intact && !Overran(step);
      within := within && !step.exceeded;
    }
    assert ops[..|ops|] == ops;
  }

  lemma NewStepOk(m: Model, trusted: bool, ops: seq<Op>, steps: seq<Step>, step: Step, intact: bool, within: bool)
    requires |steps| < |ops|
    requires intact <==> forall j :: 0 <= j < |steps| ==> !Overran(steps[j])
    requires within <==> forall j :: 0 <= j < |steps| ==> !steps[j].exceeded
    requires intact && Complete(step) ==> ExactFor(NaiveRun(m, ops[..|steps|]), ops[|steps|], step.answer.result)
    requires Distrusted(m, ops[..|steps|]) ==> !Complete(step)
    requires trusted && within && !step.exceeded && !Distrusted(m, ops[..|steps|]) && step.answer.Answer? ==>
               Complete(step)
    requires step.answer.Answer? <==> ops[|steps|].Query? && ops[|steps|].id in NaiveRun(m, ops[..|steps|]).graph
    ensures StepOk(m, trusted, ops, steps + [step], |steps|)
  {
    hide Complete, Overran, ExactFor, Distrusted, NaiveRun;
    var more := steps + [step];
    assert forall j :: 0 <= j < |steps| ==> more[j] == steps[j];
    assert more[|steps|] == step;
  }

  /** What a run promises of its k-th step. */
  ghost predicate StepOk(m: Model, trusted: bool, ops: seq<Op>, steps: seq<Step>, k: nat)
    requires k < |steps| <= |ops|
  {
    && (Complete(steps[k]) && (forall j :: 0 <= j < k ==> !Overran(steps[j])) ==>
          ExactFor(NaiveRun(m, ops[..k]), ops[k], steps[k].answer.result))
    && (Distrusted(m, ops[..k]) ==> !Complete(steps[k]))
    && (trusted && steps[k].answer.Answer? && (forall j :: 0 <= j <= k ==> !steps[j].exceeded) ==>
          (Complete(steps[k]) <==> !Distrusted(m, ops[..k])))
    && (steps[k].answer.Answer? <==> ops[k].Query? && ops[k].id in NaiveRun(m, ops[..k]).graph)
  }

  lemma StepsStayOk(m: Model, trusted: bool, ops: seq<Op>, steps: seq<Step>, step: Step)
    requires |steps| < |ops| && forall k :: 0 <= k < |steps| ==> StepOk(m, trusted, ops, steps, k)
    ensures forall k :: 0 <= k < |steps| ==> StepOk(m, trusted, ops, steps + [step], k)
  {
    hide Complete, Overran, ExactFor, Distrusted, NaiveRun;
    forall k | 0 <= k < |steps| ensures StepOk(m, trusted, ops, steps + [step], k) {
      assert forall j :: 0 <= j <= k ==> (steps + [step])[j] == steps[j];
      assert StepOk(m, trusted, ops, steps, k);
    }
  }

  /** A run from the start: the engine is created from a node list, or refused. */
  method RunFrom(nodes: seq<(Id, seq<Id>)>, budget: nat, closureCacheLimit: nat, ops: seq<Op>)
    returns (r: Outcome<seq<Step>>)
    ensures r.Done? <==>
              Acyclic(LoadedGraph(nodes)) && forall i :: 0 <= i < |nodes| ==> nodes[i].0 !in nodes[i].1
    ensures r.Done? ==> |r.value| == |ops| &&
                        forall k :: 0 <= k < |ops| ==> StepOk(Model(LoadedGraph(nodes), map[]), true, ops, r.value, k)
  {
    hide Acyclic, LoadedGraph, NaiveRun, Exact, StepOk;
    var created := IncrementalFrontierEngine.Create(nodes, budget, closureCacheLimit);
    if created.Thrown? { return Thrown(created.error); }
    var steps := Run(created.value, ops);
    r := Done(steps);
  }

  lemma RunStarts(m: Model)
    ensures NaiveRun(m, []) == m && !Distrusted(m, [])
  {
  }
}
