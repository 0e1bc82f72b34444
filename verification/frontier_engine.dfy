/** The incremental frontier engine: dirty roots are propagated once into per-node root
    sets, queries read that index, and resolved roots are removed lazily. */
module FrontierEngine {
  import opened Dag
  import opened FrontierSpec
  import opened FrontierIndex
  import opened GraphCheck
  import opened MemoryStatus
  import opened Wrappers

  datatype FrontierResult = FrontierResult(
    status: Status, frontier: set<Id>, complete: bool, cacheHit: bool, graphRevision: nat, impactGeneration: nat)

  /** What a mutation reports: the nodes it affects, and whether that list can be trusted. */
  datatype Impact = Impact(affected: set<Id>, complete: bool)

  datatype EngineError =
    | UnknownNode(id: Id) | NodeExists(id: Id) | HasDependents(id: Id) | CycleAt(id: Id)
    | FreshIsNotDirty | DuplicateState(id: Id) | IncompleteSnapshot(id: Id)

  /** A returned value, or the exception the operation throws. */
  datatype Outcome<+T> = Done(value: T) | Thrown(error: EngineError)

  method DeclareAll(g: Edges, nodes: set<Id>) returns (h: Edges)
    ensures h == WithNodes(g, nodes)
  {
    h := g;
    var todo := nodes;
    while todo != {}
      invariant todo <= nodes
      invariant h == WithNodes(g, nodes - todo)
    {
      var n :| n in todo;
      todo := todo - {n};
      if n !in h {
        h := h[n := {}];
      }
    }
    assert nodes - todo == nodes;
  }

  /** The reverse index of a graph, built edge by edge. */
  method InvertEdges(g: Edges) returns (rev: Edges)
    ensures Inverse(g, rev)
  {
    rev := map[];
    var nodes := g.Keys;
    while nodes != {}
      invariant nodes <= g.Keys
      invariant forall a, b :: b in At(rev, a) <==> b !in nodes && a in At(g, b)
    {
      var n :| n in nodes;
      var todo := g[n];
      ghost var rev0 := rev;
      while todo != {}
        invariant todo <= g[n]
        invariant forall a :: At(rev, a) == At(rev0, a) + if a in g[n] - todo then {n} else {}
      {
        var d :| d in todo;
        todo := todo - {d};
        rev := rev[d := At(rev, d) + {n}];
      }
      nodes := nodes - {n};
    }
  }

  /** Declare the listed nodes and their dependencies, rejecting self-dependencies. */
  method LoadGraph(nodes: seq<(Id, seq<Id>)>) returns (r: Outcome<Edges>)
    ensures r.Done? <==> forall i :: 0 <= i < |nodes| ==> nodes[i].0 !in nodes[i].1
    ensures r.Done? ==> r.value == LoadedGraph(nodes) && Closed(r.value)
  {
    var graph: Edges := map[];
    for i := 0 to |nodes|
      invariant graph == LoadedGraph(nodes[..i]) && Closed(graph)
      invariant forall j :: 0 <= j < i ==> nodes[j].0 !in nodes[j].1
    {
      hide WithNodes, Closed;
      var id, next := nodes[i].0, Elements(nodes[i].1);
      if id in nodes[i].1 {
        return Thrown(CycleAt(id));
      }
      assert nodes[..i + 1][..i] == nodes[..i];
      LoadedClosed(graph, id, next);
      graph := DeclareAll(graph, next);
      graph := graph[id := next];
    }
    assert nodes[..|nodes|] == nodes;
    return Done(graph);
  }

  /** Every live root after the first is compared with one of the frontier at least once. */
  function Comparisons(live: set<Id>): nat { if |live| <= 1 then 0 else |live| - 1 }

  lemma ComparedWithin(some: set<Id>, live: set<Id>)
    requires some <= live
    ensures Comparisons(some) <= Comparisons(live) && Comparisons({}) == 0
  {
    SizeWithin(some, live);
  }

  lemma ComparedOnceMore(live: set<Id>, root: Id)
    requires root !in live
    ensures Comparisons(live + {root}) == Comparisons(live) + if live == {} then 0 else 1
  {
    assert |live + {root}| == |live| + 1;
    if |live| == 0 { assert live == {}; }
  }

  /** What the loop of a compaction has charged for the roots that it has seen: a read for each
      and a write for each tombstone. */
  function Spent(roots: set<Id>, todo: set<Id>, inactive: set<Id>): nat {
    |roots - todo| + |(roots - todo) * inactive|
  }

  lemma SpentOne(roots: set<Id>, todo: set<Id>, inactive: set<Id>, root: Id)
    requires todo <= roots && root in todo
    ensures Spent(roots, todo - {root}, inactive) ==
            Spent(roots, todo, inactive) + 1 + if root in inactive then 1 else 0
    ensures Spent(roots, todo - {root}, inactive) <= Spent(roots, {}, inactive)
  {
    var seen := roots - todo;
    assert roots - (todo - {root}) == seen + {root} && root !in seen;
    assert (seen + {root}) * inactive == seen * inactive + if root in inactive then {root} else {};
    SizeWithin(seen + {root}, roots - {});
    SizeWithin((seen + {root}) * inactive, (roots - {}) * inactive);
  }

  /** The tombstones that the loop is through with, here or not. */
  function Gone(inactive: set<Id>, todo: set<Id>): set<Id> { inactive - todo }

  /** Whether the loop has met a tombstone. */
  predicate MetTombstone(roots: set<Id>, todo: set<Id>, inactive: set<Id>) { (roots - todo) * inactive != {} }

  lemma OneSeen(roots: set<Id>, todo: set<Id>, inactive: set<Id>, root: Id)
    requires root in todo && todo <= roots
    ensures root !in Gone(inactive, todo)
    ensures Gone(inactive, todo - {root}) ==
            if root in inactive then Gone(inactive, todo) + {root} else Gone(inactive, todo)
    ensures MetTombstone(roots, todo - {root}, inactive) <==> MetTombstone(roots, todo, inactive) || root in inactive
  {
    assert (roots - (todo - {root})) * inactive ==
           (roots - todo) * inactive + (if root in inactive then {root} else {});
  }

  lemma NoneSeen(roots: set<Id>, inactive: set<Id>)
    ensures Spent(roots, roots, inactive) == 0 && Gone(inactive, roots) !! roots
    ensures !MetTombstone(roots, roots, inactive)
  {}

  lemma AllSeen(roots: set<Id>, inactive: set<Id>)
    ensures Spent(roots, {}, inactive) == |roots| + |roots * inactive| && Gone(inactive, {}) == inactive
    ensures MetTombstone(roots, {}, inactive) <==> roots * inactive != {}
  {
    assert roots - {} == roots;
  }

  /** What compacting a node charges at least. With a tombstone among its roots the survivors
      are read once more and compared with each other. */
  function LeastCharge(roots: set<Id>, inactive: set<Id>): nat {
    if inactive == {} || roots == {} then 0
    else if roots * inactive == {} then |roots|
    else |roots| + |roots * inactive| + |roots - inactive| + Comparisons(roots - inactive)
  }

  /** No two surviving roots need to be compared. */
  predicate NoneCompared(roots: set<Id>, inactive: set<Id>) {
    roots * inactive == {} || |roots - inactive| <= 1
  }

  lemma LeastCharges(roots: set<Id>, inactive: set<Id>)
    ensures roots == {} || inactive == {} ==> LeastCharge(roots, inactive) == 0
    ensures roots != {} && inactive != {} && roots * inactive == {} ==> LeastCharge(roots, inactive) == |roots|
    ensures roots * inactive != {} ==>
              LeastCharge(roots, inactive)
              == |roots| + |roots * inactive| + |roots - inactive| + Comparisons(roots - inactive)
    ensures NoneCompared(roots, inactive) && roots * inactive != {} ==> Comparisons(roots - inactive) == 0
    ensures roots - inactive == {} ==> NoneCompared(roots, inactive)
  {}

  lemma SizeOfKeys<K, V>(m: map<K, V>)
    ensures |m| == |m.Keys|
  {}

  function RootCount(roots: map<Id, Dirty>, n: Id): nat { |RootsAt(roots, n).Keys| }

  /** The roots of a node that are no tombstones. */
  function LiveCount(x: Index, n: Id): nat { |RootsAt(x.roots, n).Keys - x.inactive| }

  function LeastCompaction(x: Index, n: Id): nat { LeastCharge(RootsAt(x.roots, n).Keys, x.inactive) }

  predicate ComparesNone(x: Index, n: Id) { NoneCompared(RootsAt(x.roots, n).Keys, x.inactive) }

  lemma NoTombstonesNoWork(x: Index, n: Id)
    ensures x.inactive == {} ==> ComparesNone(x, n) && LeastCompaction(x, n) == 0
  {}

  lemma CompactedCount(x: Index, y: Index, n: Id)
    requires Compacted(x, y, n)
    ensures RootCount(y.roots, n) == LiveCount(x, n)
  {
    assert RootsAt(y.roots, n).Keys == RootsAt(x.roots, n).Keys - x.inactive;
  }

  lemma SurvivorsOfPruned(x: Index, y: Index, n: Id)
    requires n in x.roots && Pruned(x, y, n, x.inactive)
    ensures y.roots[n].Keys == x.roots[n].Keys - x.inactive
    ensures y.roots[n] == map[] <==> x.roots[n].Keys - x.inactive == {}
    ensures y.roots[n] == map[] ==> Comparisons(x.roots[n].Keys - x.inactive) == 0
    ensures RootCount(y.roots, n) == |x.roots[n].Keys - x.inactive|
  {
    assert y.roots[n] == map[] <==> y.roots[n].Keys == {};
  }

  lemma SetFrontierRoots(x: Index, n: Id, f: set<Id>)
    ensures SetFrontier(x, n, f).roots == x.roots
  {}

  lemma NothingMinimal(g: Edges, rev: Edges, s: set<Id>)
    requires GraphOk(g, rev)
    ensures Minimal(g, s) == {} <==> s == {}
  {
    if s != {} {
      var r :| r in s;
      var m := MinimalBelow(g, s, r);
    }
  }

  class IncrementalFrontierEngine {
    const budget: nat
    const closureCacheLimit: nat

    var dependencies: Edges
    var dependents: Edges
    var directDirty: Dirty
    var index: Index
    var frontierCache: map<Id, FrontierResult>
    var generation: nat
    var graphRevision: nat
    var trusted: bool
    var frontierBudgetExceeded: bool
    var frontierWorkUsed: nat

    // ---- invariants -----------------------------------------------------------------

    ghost predicate Graph()
      reads `dependencies, `dependents, `directDirty
    {
      GraphOk(dependencies, dependents) && directDirty.Keys <= dependencies.Keys && NoFresh(directDirty)
    }

    /** The index is sound; the frontiers of the nodes in skip may be out of date. */
    ghost predicate IndexedExcept(skip: set<Id>)
      reads `dependencies, `dependents, `directDirty, `index
    {
      Graph() && IndexOk(dependencies, directDirty, index, skip)
    }

    /** What a work-budget charge may do: nothing, or fail closed. */
    twostate predicate Charged()
      reads `trusted, `frontierBudgetExceeded, `frontierCache
    {
      && (old(frontierBudgetExceeded) ==> frontierBudgetExceeded)
      && (frontierBudgetExceeded == old(frontierBudgetExceeded) ==>
            trusted == old(trusted) && frontierCache == old(frontierCache))
      && (frontierBudgetExceeded && !old(frontierBudgetExceeded) ==>
            !trusted && frontierCache == map[])
    }

    // ---- construction -----------------------------------------------------------------

    constructor (budget: nat, closureCacheLimit: nat)
      ensures Valid() && this.budget == budget && this.closureCacheLimit == closureCacheLimit
      ensures dependencies == map[] && directDirty == map[] && frontierCache == map[]
      ensures trusted && !frontierBudgetExceeded && index.inactive == {} && index.roots == map[]
    {
      this.budget, this.closureCacheLimit := budget, closureCacheLimit;
      dependencies, dependents, directDirty := map[], map[], map[];
      index := Index(map[], map[], map[], map[], {}, map[], map[], 0);
      frontierCache := map[];
      generation, graphRevision := 0, 0;
      trusted, frontierBudgetExceeded, frontierWorkUsed := true, false, 0;
      new;
      assert Acyclic(dependencies) by { RankedIsAcyclic(map[], {}, map[], 0); }
      EmptyIndexOk(dependencies, directDirty);
      assert directDirty.Keys == {};
    }

    /** Build an engine from an initial node list, rejecting self-dependencies and cycles. */
    static method Create(nodes: seq<(Id, seq<Id>)>, budget: nat, closureCacheLimit: nat)
      returns (r: Outcome<IncrementalFrontierEngine>)
      ensures r.Done? <==> Acyclic(LoadedGraph(nodes)) && forall i :: 0 <= i < |nodes| ==> nodes[i].0 !in nodes[i].1
      ensures r.Done? ==> fresh(r.value) && r.value.Valid() && r.value.budget == budget
      ensures r.Done? ==>
                r.value.dependencies == LoadedGraph(nodes) && r.value.directDirty == map[] &&
                  r.value.frontierCache == map[]
      ensures r.Done? ==>
                r.value.trusted && !r.value.frontierBudgetExceeded && r.value.index.inactive == {} &&
                  r.value.index.roots == map[]
    {
      hide Reach, IndexOk, Exact, LoadedGraph, Propagated, Seeded;
      var graph := LoadGraph(nodes);
      if graph.Thrown? {
        return Thrown(graph.error);
      }
      var inverse := InvertEdges(graph.value);
      var cycle := AssertAcyclicGraph(graph.value);
      if cycle.Some? {
        return Thrown(CycleAt(cycle.value));
      }
      var engine := new IncrementalFrontierEngine(budget, closureCacheLimit);
      engine.dependencies, engine.dependents := graph.value, inverse;
      engine.graphRevision, engine.generation := |nodes|, |nodes|;
      EmptyIndexOk(graph.value, map[]);
      engine.RebuildDirtyState();
      r := Done(engine);
    }

    // ---- work budget ----------------------------------------------------------------

    /** Exactly so much has been charged, or would have been without the overrun. */
    twostate predicate ChargedExactly(amount: nat)
      reads `frontierBudgetExceeded, `frontierWorkUsed
    {
      && (!frontierBudgetExceeded ==> frontierWorkUsed == old(frontierWorkUsed) + amount)
      && (old(!frontierBudgetExceeded && frontierWorkUsed <= budget) ==>
            (frontierBudgetExceeded <==> old(frontierWorkUsed) + amount > budget))
    }

    /** At least so much has been charged, within the budget unless it is exceeded. */
    twostate predicate ChargedAtLeast(amount: nat)
      reads `frontierBudgetExceeded, `frontierWorkUsed
    {
      !frontierBudgetExceeded ==>
        && frontierWorkUsed >= old(frontierWorkUsed) + amount
        && (old(frontierWorkUsed) <= budget ==> frontierWorkUsed <= budget)
    }

    method FailClosed()
      modifies `trusted, `frontierBudgetExceeded, `frontierCache
      ensures frontierBudgetExceeded && !trusted && frontierCache == map[]
    {
      frontierBudgetExceeded := true;
      trusted := false;
      frontierCache := map[];
    }

    method Consume(amount: nat)
      modifies `trusted, `frontierBudgetExceeded, `frontierCache, `frontierWorkUsed
      ensures Charged()
      ensures frontierBudgetExceeded <==> old(frontierBudgetExceeded) || old(frontierWorkUsed) + amount > budget
      ensures !frontierBudgetExceeded ==> frontierWorkUsed == old(frontierWorkUsed) + amount <= budget
    {
      if frontierBudgetExceeded {
        return;
      }
      frontierWorkUsed := frontierWorkUsed + amount;
      if frontierWorkUsed > budget {
        FailClosed();
      }
    }

    // ---- reachability and antichains ---------------------------------------------------

    /** Look at the dependents of one queued node; unseen ones are returned in discovery order. */
    method ExpandDependents(start: Id, id: Id, target: Id, seen: set<Id>) returns (found: bool, pushed: seq<Id>)
      requires GraphOk(dependencies, dependents) && Below(dependencies, start, id)
      modifies `trusted, `frontierBudgetExceeded, `frontierCache, `frontierWorkUsed
      ensures Charged() && ChargedAtLeast(0)
      ensures found ==> !frontierBudgetExceeded && Reach(dependencies, start, target)
      ensures forall x ::
                x in pushed ==> x in dependencies && Reach(dependencies, start, x) && x !in seen && x != target
      ensures !found && !frontierBudgetExceeded ==> forall b :: id in At(dependencies, b) ==> b in seen || b in pushed
    {
      hide Reach, Acyclic;
      pushed := [];
      var todo := At(dependents, id);
      while todo != {}
        invariant Charged() && ChargedAtLeast(0)
        invariant todo <= At(dependents, id)
        invariant forall x ::
                    x in pushed ==> x in dependencies && Reach(dependencies, start, x) && x !in seen && x != target
        invariant forall b :: b in At(dependents, id) - todo ==> b in seen || b in pushed
      {
        var dependent :| dependent in todo;
        todo := todo - {dependent};
        Consume(1);
        if frontierBudgetExceeded {
          return false, pushed;
        }
        EdgeReaches(dependencies, id, dependent);
        BelowTransitive(dependencies, start, id, dependent);
        if dependent == target {
          return true, pushed;
        }
        if dependent !in seen && dependent !in pushed {
          ReachEndpoints(dependencies, start, dependent);
          ghost var pushed0 := pushed;
          pushed := pushed + [dependent];
          assert forall x :: x in pushed <==> x in pushed0 || x == dependent;
        }
      }
      return false, pushed;
    }

    /** Breadth-first search along dependents. */
    method Reaches(start: Id, target: Id) returns (found: bool)
      requires GraphOk(dependencies, dependents)
      modifies `trusted, `frontierBudgetExceeded, `frontierCache, `frontierWorkUsed
      ensures Charged() && ChargedAtLeast(0)
      ensures !frontierBudgetExceeded ==> (found <==> Reach(dependencies, start, target))
    {
      hide Reach, GraphOk;
      Consume(1);
      var seen: set<Id> := {};
      var queue := [start];
      var next := 0;
      while next < |queue|
        invariant 0 <= next <= |queue| && |queue| > 0 && queue[0] == start
        invariant Charged() && ChargedAtLeast(0)
        invariant target !in seen
        invariant forall x :: x in queue <==> x == start || x in seen
        invariant forall x :: x in seen ==> x in dependencies && Reach(dependencies, start, x)
        invariant forall x, b :: x in queue[..next] && x in At(dependencies, b) ==> b in seen
        decreases dependencies.Keys - seen, |queue| - next
      {
        var id := queue[next];
        Consume(1);
        if frontierBudgetExceeded {
          return false;
        }
        assert id in queue;
        ghost var queue0, seen0 := queue, seen;
        var pushed: seq<Id>;
        found, pushed := ExpandDependents(start, id, target, seen);
        if found || frontierBudgetExceeded {
          return;
        }
        seen := seen + Elements(pushed);
        if pushed != [] {
          assert pushed[0] in dependencies.Keys - seen0 && pushed[0] in seen;
        }
        queue := queue + pushed;
        next := next + 1;
        assert queue[..next] == queue0[..next - 1] + [id];
      }
      assert queue[..next] == queue && start in queue;
      NotReached(dependencies, seen, start, target);
      return false;
    }

    method AddFrontierRoot(frontier: set<Id>, root: Id, ghost s: set<Id>) returns (result: set<Id>)
      requires GraphOk(dependencies, dependents)
      requires !frontierBudgetExceeded ==> frontier == Minimal(dependencies, s)
      modifies `trusted, `frontierBudgetExceeded, `frontierCache, `frontierWorkUsed
      ensures Charged()
      ensures !frontierBudgetExceeded ==> result == Minimal(dependencies, s + {root})
      ensures if frontier == {} then ChargedExactly(0) else ChargedAtLeast(1)
    {
      hide Reach, Acyclic, Closed, Inverse;
      result := frontier;
      var todo := frontier;
      while todo != {}
        invariant Charged()
        invariant todo <= frontier && (if todo == frontier then ChargedExactly(0) else ChargedAtLeast(1))
        invariant !frontierBudgetExceeded ==>
                    forall e :: e in frontier - todo ==> e != root && !Reach(dependencies, e, root)
        invariant !frontierBudgetExceeded ==>
                    result == set e | e in frontier && (e in todo || !Reach(dependencies, root, e))
      {
        var existing :| existing in todo;
        todo := todo - {existing};
        Consume(1);
        if frontierBudgetExceeded {
          return;
        }
        var covered := existing == root;
        if !covered {
          covered := Reaches(existing, root);
        }
        if covered {
          if !frontierBudgetExceeded {
            MinimalAddCovered(dependencies, s, root, existing);
          }
          return;
        }
        var covers := Reaches(root, existing);
        if covers {
          result := result - {existing};
        }
        if frontierBudgetExceeded {
          return;
        }
      }
      result := result + {root};
      if !frontierBudgetExceeded {
        MinimalAddNew(dependencies, s, root);
      }
    }

    method ComputeFrontier(roots: set<Id>) returns (result: set<Id>)
      requires GraphOk(dependencies, dependents)
      modifies `trusted, `frontierBudgetExceeded, `frontierCache, `frontierWorkUsed
      ensures Charged()
      ensures !frontierBudgetExceeded ==> result == Minimal(dependencies, roots - index.inactive)
      ensures ChargedAtLeast(Comparisons(roots - index.inactive))
      ensures Comparisons(roots - index.inactive) == 0 ==> ChargedExactly(0)
    {
      hide GraphOk, Minimal, Comparisons;
      result := {};
      var todo := roots;
      ghost var s: set<Id> := {};
      NothingMinimal(dependencies, dependents, s);
      assert Comparisons({}) == 0 by { ComparedWithin({}, {}); }
      ghost var live := roots - index.inactive;
      while todo != {}
        invariant Charged()
        invariant todo <= roots
        invariant s == live - todo
        invariant !frontierBudgetExceeded ==> result == Minimal(dependencies, s)
        invariant ChargedAtLeast(Comparisons(s)) && (Comparisons(s) == 0 ==> ChargedExactly(0))
        invariant s == {} ==> result == {}
      {
        var root :| root in todo;
        todo := todo - {root};
        if root in index.inactive {
          continue;
        }
        NothingMinimal(dependencies, dependents, s);
        ComparedOnceMore(s, root);
        result := AddFrontierRoot(result, root, s);
        s := s + {root};
        if frontierBudgetExceeded {
          ComparedWithin(s, live);
          return;
        }
      }
      assert s == live;
    }

    // ---- tombstones -------------------------------------------------------------------

    lemma SkipOne(n: Id)
      requires IndexedExcept({})
      ensures IndexedExcept({n})
    {
      hide GraphOk, NoFresh;
      SkipMore(dependencies, directDirty, index, n);
    }

    /** One step of a compaction: a tombstoned entry is dropped. */
    method DropIfTombstone(n: Id, root: Id, ghost x: Index, ghost gone: set<Id>) returns (dropped: bool)
      requires n in x.roots && n in index.roots && root in x.roots[n] && root !in gone
      requires !frontierBudgetExceeded ==> IndexedExcept({n}) && Pruned(x, index, n, gone)
      modifies `trusted, `frontierBudgetExceeded, `frontierCache, `frontierWorkUsed, `index
      ensures Charged() && ChargedExactly(if root in x.inactive then 2 else 1)
      ensures n in index.roots && (!dropped ==> index == old(index))
      ensures !frontierBudgetExceeded ==> IndexedExcept({n}) && (dropped <==> root in x.inactive)
      ensures !frontierBudgetExceeded ==> Pruned(x, index, n, if root in x.inactive then gone + {root} else gone)
    {
      hide IndexOk, GraphOk, NoFresh, DropTombstone, Holders, Pruned;
      Consume(1);
      if frontierBudgetExceeded {
        return false;
      }
      PrunedKeeps(x, index, n, gone, root);
      PrunedHolds(x, index, n, gone);
      if root !in index.inactive {
        return false;
      }
      DropTombstoneOk(dependencies, directDirty, index, n, root);
      DropTombstonePrunes(x, index, n, gone, root);
      Consume(1);
      index := DropTombstone(index, n, root);
      dropped := true;
    }

    /** The loop of a compaction: drop every tombstoned entry of n. */
    method DropTombstones(n: Id) returns (changed: bool)
      requires n in index.roots
      requires !frontierBudgetExceeded ==> IndexedExcept({})
      modifies `trusted, `frontierBudgetExceeded, `frontierCache, `frontierWorkUsed, `index
      ensures Charged()
      ensures !changed ==> index == old(index)
      ensures !frontierBudgetExceeded ==> IndexedExcept({n})
      ensures !frontierBudgetExceeded ==> Pruned(old(index), index, n, old(index).inactive)
      ensures !frontierBudgetExceeded ==> (changed <==> old(index.roots[n]).Keys * old(index.inactive) != {})
      ensures ChargedExactly(|old(index.roots[n]).Keys| + |old(index.roots[n]).Keys * old(index.inactive)|)
    {
      hide IndexedExcept, Pruned, Spent, Gone, MetTombstone;
      changed := false;
      var todo := index.roots[n].Keys;
      ghost var x, roots := index, todo;
      if !frontierBudgetExceeded {
        SkipOne(n);
      }
      NoneSeen(roots, x.inactive);
      AllSeen(roots, x.inactive);
      PrunedStart(x, n, Gone(x.inactive, todo));
      while todo != {}
        invariant Charged()
        invariant todo <= roots
        invariant n in index.roots
        invariant !frontierBudgetExceeded ==> IndexedExcept({n})
        invariant !frontierBudgetExceeded ==> Pruned(x, index, n, Gone(x.inactive, todo))
        invariant !frontierBudgetExceeded ==> (changed <==> MetTombstone(roots, todo, x.inactive))
        invariant !changed ==> index == x
        invariant ChargedExactly(Spent(roots, todo, x.inactive))
      {
        var root :| root in todo;
        SpentOne(roots, todo, x.inactive, root);
        OneSeen(roots, todo, x.inactive, root);
        var dropped := DropIfTombstone(n, root, x, Gone(x.inactive, todo));
        changed := changed || dropped;
        todo := todo - {root};
        if frontierBudgetExceeded {
          return;
        }
      }
    }

    /** Computes a node's frontier from all its roots. */
    method RenewFrontier(n: Id) returns (ghost f: set<Id>)
      requires n in index.roots && !frontierBudgetExceeded && IndexedExcept({n})
      requires index.roots[n].Keys - index.inactive == index.roots[n].Keys
      modifies `trusted, `frontierBudgetExceeded, `frontierCache, `frontierWorkUsed, `index
      ensures Charged() && index == SetFrontier(old(index), n, f)
      ensures !frontierBudgetExceeded ==> IndexedExcept({})
      ensures ChargedAtLeast(RootCount(old(index.roots), n) + Comparisons(old(index.roots[n]).Keys))
      ensures Comparisons(old(index.roots[n]).Keys) == 0 ==> ChargedExactly(RootCount(old(index.roots), n))
    {
      hide IndexOk, GraphOk, NoFresh, Minimal, SetFrontier, Comparisons, RootCount;
      var frontier := ComputeFrontier(index.roots[n].Keys);
      f := frontier;
      if !frontierBudgetExceeded {
        SetFrontierOk(dependencies, directDirty, index, n, frontier);
      }
      SetFrontierRoots(index, n, frontier);
      index := SetFrontier(index, n, frontier);
      ChargeDirtyStateUpdate(n);
    }

    /** What remains to be done for a node after tombstones were dropped from it. */
    method CloseCompaction(n: Id, ghost x: Index)
      requires n in x.roots && n in index.roots && !frontierBudgetExceeded
      requires IndexedExcept({n}) && Pruned(x, index, n, x.inactive)
      modifies `trusted, `frontierBudgetExceeded, `frontierCache, `frontierWorkUsed, `index
      ensures Charged()
      ensures !frontierBudgetExceeded ==> IndexedExcept({}) && Compacted(x, index, n)
      ensures ChargedAtLeast(|x.roots[n].Keys - x.inactive| + Comparisons(x.roots[n].Keys - x.inactive))
      ensures Comparisons(x.roots[n].Keys - x.inactive) == 0 ==> ChargedExactly(|x.roots[n].Keys - x.inactive|)
    {
      hide IndexOk, GraphOk, NoFresh, Minimal, DropNode, SetFrontier, Compacted, Pruned, Holders, Comparisons,
           RootCount;
      PrunedCompacts(x, index, n);
      SurvivorsOfPruned(x, index, n);
      if index.roots[n] == map[] {
        DropNodeOk(dependencies, directDirty, index, n);
        index := DropNode(index, n);
      } else {
        ghost var frontier := RenewFrontier(n);
      }
    }

    /** Remove resolved roots from a node that is being observed again. */
    method CompactResolvedRoots(n: Id) returns (changed: bool)
      requires !frontierBudgetExceeded ==> IndexedExcept({})
      modifies `trusted, `frontierBudgetExceeded, `frontierCache, `frontierWorkUsed, `index
      ensures Charged()
      ensures !frontierBudgetExceeded ==> IndexedExcept({}) && Compacted(old(index), index, n)
      ensures !frontierBudgetExceeded ==> (changed <==> RootsAt(old(index).roots, n).Keys * old(index).inactive != {})
      ensures old(n !in index.roots || index.inactive == {}) ==>
                && !changed && index == old(index) && frontierWorkUsed == old(frontierWorkUsed)
                && frontierBudgetExceeded == old(frontierBudgetExceeded)
      ensures ChargedAtLeast(LeastCharge(RootsAt(old(index).roots, n).Keys, old(index).inactive))
      ensures NoneCompared(RootsAt(old(index).roots, n).Keys, old(index).inactive) ==>
                ChargedExactly(LeastCharge(RootsAt(old(index).roots, n).Keys, old(index).inactive))
    {
      hide IndexedExcept, Compacted, Pruned, LeastCharge, NoneCompared, Comparisons;
      ghost var x := index;
      LeastCharges(RootsAt(x.roots, n).Keys, x.inactive);
      if n !in index.roots || index.inactive == {} {
        CompactedTrivially(x, n);
        return false;
      }
      changed := DropTombstones(n);
      if frontierBudgetExceeded {
        return;
      }
      if !changed {
        CompactedTrivially(x, n);
        return;
      }
      PrunedHolds(x, index, n, x.inactive);
      CloseCompaction(n, x);
    }

    /** The charge for summarising a node's roots. The summary itself is write-only. */
    method ChargeDirtyStateUpdate(n: Id)
      modifies `trusted, `frontierBudgetExceeded, `frontierCache, `frontierWorkUsed
      ensures Charged() && ChargedExactly(RootCount(index.roots, n))
    {
      if n in index.roots {
        SizeOfKeys(index.roots[n]);
        Consume(|index.roots[n]|);
      }
    }

    // ---- merging roots into a node ------------------------------------------------------

    /** Enter one live root at a node unless it is there at equal or greater severity. */
    method EnterRoot(n: Id, root: Id, status: Status) returns (changed: bool)
      requires root !in index.inactive
      requires !frontierBudgetExceeded ==> IndexedExcept({n})
      requires !frontierBudgetExceeded ==> n in dependencies && root in dependencies && root in directDirty
                                           && Priority(status) <= Priority(directDirty[root])
                                           && Below(dependencies, root, n)
      modifies `trusted, `frontierBudgetExceeded, `frontierCache, `frontierWorkUsed, `index
      ensures Charged() && index.inactive == old(index.inactive)
      ensures !frontierBudgetExceeded ==> IndexedExcept({n})
      ensures var m := RootsAt(old(index).roots, n);
              !frontierBudgetExceeded ==> (changed <==> !(root in m && Priority(m[root]) >= Priority(status)))
      ensures index == if changed then PutEntry(old(index), n, root, status) else old(index)
    {
      hide IndexOk, PutEntry, GraphOk, NoFresh, Reach;
      Consume(1);
      if frontierBudgetExceeded {
        return false;
      }
      var previous := RootsAt(index.roots, n);
      if root in previous && Priority(previous[root]) >= Priority(status) {
        return false;
      }
      PutEntryOk(dependencies, directDirty, index, n, root, status);
      if n !in At(index.byRoot, root) && root in index.closures {
        Consume(1);
      }
      index := PutEntry(index, n, root, status);
      return true;
    }

    /** Enter every live incoming root that is new or more severe. */
    method MergeEntries(n: Id, incoming: Dirty) returns (changed: bool)
      requires !frontierBudgetExceeded ==> IndexedExcept({n})
      requires !frontierBudgetExceeded ==> Enterable(dependencies, directDirty, index.inactive, n, incoming)
      modifies `trusted, `frontierBudgetExceeded, `frontierCache, `frontierWorkUsed, `index
      ensures Charged()
      ensures !frontierBudgetExceeded ==> IndexedExcept({n}) && MergedAt(old(index), index, n, incoming)
      ensures !frontierBudgetExceeded ==> (changed <==> RootsAt(index.roots, n) != RootsAt(old(index).roots, n))
      ensures !changed ==> index == old(index)
    {
      hide IndexOk, Enterable, MergedAt, MergeMax, PutEntry, GraphOk, NoFresh, Holders, Below;
      changed := false;
      var todo := incoming.Keys;
      ghost var x := index;
      MergedStart(x, n, incoming);
      while todo != {}
        invariant Charged()
        invariant todo <= incoming.Keys
        invariant index.inactive == x.inactive
        invariant !frontierBudgetExceeded ==> IndexedExcept({n})
        invariant !frontierBudgetExceeded ==> MergedAt(x, index, n, incoming - todo)
        invariant !frontierBudgetExceeded ==> (changed <==> RootsAt(index.roots, n) != RootsAt(x.roots, n))
        invariant !changed ==> index == x
      {
        var root :| root in todo;
        if !frontierBudgetExceeded {
          MergedStep(x, index, n, incoming, todo, root);
        }
        todo := todo - {root};
        if root in index.inactive {
          continue;
        }
        if !frontierBudgetExceeded {
          EnterableAt(dependencies, directDirty, index.inactive, n, incoming, root);
        }
        var entered := EnterRoot(n, root, incoming[root]);
        changed := changed || entered;
        if frontierBudgetExceeded {
          break;
        }
      }
      assert incoming - {} == incoming;
    }

    /** Fold the live incoming roots into an antichain. */
    method ExtendFrontier(frontier: set<Id>, incoming: set<Id>, ghost s: set<Id>) returns (result: set<Id>)
      requires GraphOk(dependencies, dependents)
      requires !frontierBudgetExceeded ==> frontier == Minimal(dependencies, s)
      modifies `trusted, `frontierBudgetExceeded, `frontierCache, `frontierWorkUsed
      ensures Charged()
      ensures !frontierBudgetExceeded ==> result == Minimal(dependencies, s + (incoming - index.inactive))
    {
      hide Minimal, GraphOk;
      result := frontier;
      var todo := incoming;
      assert s + (incoming - todo - index.inactive) == s;
      while todo != {}
        invariant Charged()
        invariant todo <= incoming
        invariant !frontierBudgetExceeded ==> result == Minimal(dependencies, s + (incoming - todo - index.inactive))
      {
        var root :| root in todo;
        ghost var done := s + (incoming - todo - index.inactive);
        todo := todo - {root};
        if root in index.inactive {
          assert s + (incoming - todo - index.inactive) == done;
          continue;
        }
        assert s + (incoming - todo - index.inactive) == done + {root};
        result := AddFrontierRoot(result, root, done);
        if frontierBudgetExceeded {
          return;
        }
      }
      assert incoming - todo == incoming;
    }

    /** Store the antichain of a node whose roots have just grown. */
    method RefreshFrontier(n: Id, repaired: bool, incoming: set<Id>, ghost s: set<Id>) returns (done: bool)
      requires GraphOk(dependencies, dependents) && n in index.roots
      requires !frontierBudgetExceeded ==> IndexedExcept({n}) && At(index.frontiers, n) == Minimal(dependencies, s)
      requires !frontierBudgetExceeded ==>
                 s + (incoming - index.inactive) == index.roots[n].Keys &&
                   index.roots[n].Keys - index.inactive == index.roots[n].Keys
      modifies `trusted, `frontierBudgetExceeded, `frontierCache, `frontierWorkUsed, `index
      ensures Charged()
      ensures !frontierBudgetExceeded ==> done && IndexedExcept({})
      ensures index == old(index) || exists f: set<Id> :: index == SetFrontier(old(index), n, f)
    {
      hide IndexOk, Minimal, GraphOk, NoFresh, SetFrontier, ChargedAtLeast, ChargedExactly, Comparisons,
           RootCount;
      Consume(2);
      var frontier := At(index.frontiers, n);
      ghost var t := s;
      if repaired {
        frontier := ComputeFrontier(index.roots[n].Keys);
        t := index.roots[n].Keys;
      }
      if frontierBudgetExceeded {
        return false;
      }
      assert t + (incoming - index.inactive) == index.roots[n].Keys;
      frontier := ExtendFrontier(frontier, incoming, t);
      if frontierBudgetExceeded {
        return false;
      }
      SetFrontierOk(dependencies, directDirty, index, n, frontier);
      index := SetFrontier(index, n, frontier);
      Consume(1);
      ChargeDirtyStateUpdate(n);
      return true;
    }

    /** Merge the incoming roots into a node: compact it, enter the roots, extend its frontier. */
    method MergeDirtyState(n: Id, incoming: Dirty) returns (changed: bool)
      requires GraphOk(dependencies, dependents)
      requires !frontierBudgetExceeded ==> IndexedExcept({})
      requires !frontierBudgetExceeded ==> Enterable(dependencies, directDirty, index.inactive, n, incoming)
      requires !frontierBudgetExceeded ==> HeldElsewhere(index.roots, index.inactive, n, incoming)
      modifies `trusted, `frontierBudgetExceeded, `frontierCache, `frontierWorkUsed, `index
      ensures Charged()
      ensures !frontierBudgetExceeded ==> IndexedExcept({}) && Merged(old(index), index, n, incoming)
      ensures !frontierBudgetExceeded ==>
                (changed <==> RootsAt(index.roots, n) != Live(old(index).roots, old(index).inactive, n))
    {
      hide IndexOk, Enterable, HeldElsewhere, MergedAt, MergeMax, Compacted, Merged, Minimal, GraphOk, NoFresh, Holders,
           ChargedAtLeast, ChargedExactly, LeastCharge, NoneCompared;
      var repaired := false;
      ghost var x := index;
      if index.inactive != {} {
        repaired := CompactResolvedRoots(n);
      } else {
        CompactedTrivially(x, n);
      }
      if frontierBudgetExceeded {
        return false;
      }
      CompactedStart(x, index, n, incoming, dependencies, directDirty);
      ghost var y := index;
      FrontierOf(dependencies, directDirty, y, n);
      SkipMore(dependencies, directDirty, y, n);
      changed := MergeEntries(n, incoming);
      if frontierBudgetExceeded {
        return false;
      }
      ghost var z := index;
      MergedFrom(x, y, z, n, incoming);
      if !changed {
        return false;
      }
      changed := RefreshFrontier(n, repaired, incoming.Keys, RootsAt(y.roots, n).Keys);
      MergedFrontier(x, z, n, incoming);
    }

    // ---- propagation --------------------------------------------------------------------

    method CollectIndexed(roots: set<Id>, ghost sound: bool) returns (affected: set<Id>)
      requires sound ==> ClosuresOk(index.closures, index.byRoot)
      modifies `trusted, `frontierBudgetExceeded, `frontierCache, `frontierWorkUsed
      ensures Charged()
      ensures sound ==> affected == IndexedUnder(index.byRoot, roots)
    {
      hide IndexedUnder, ClosuresOk, MembersOf, At;
      affected := {};
      var todo := roots;
      NothingIndexed(index.byRoot);
      assert roots - todo == {};
      while todo != {}
        invariant Charged()
        invariant todo <= roots
        invariant sound ==> affected == IndexedUnder(index.byRoot, roots - todo)
      {
        var root :| root in todo;
        OneMoreIndexed(index.byRoot, roots - todo, root);
        assert roots - (todo - {root}) == roots - todo + {root};
        todo := todo - {root};
        Consume(1);
        if root !in index.closures {
          Consume(|MembersOf(index, root)|);
        }
        if sound {
          MembersAreIndexed(index, root);
        }
        affected := affected + ({root} + MembersOf(index, root));
      }
      assert roots - todo == roots;
    }

    /** Cache one closure, evicting another when the cache is full. */
    method RememberClosure(root: Id, affected: set<Id>, ghost sound: bool)
      requires sound ==> ClosuresOk(index.closures, index.byRoot) && affected == {root} + At(index.byRoot, root)
      modifies `trusted, `frontierBudgetExceeded, `frontierCache, `frontierWorkUsed, `index
      ensures Charged()
      ensures index == old(index).(closures := index.closures)
      ensures sound ==> ClosuresOk(index.closures, index.byRoot)
    {
      hide ClosuresOk, At;
      var closures := index.closures;
      if root !in closures && |closures| >= closureCacheLimit && closures != map[] {
        var oldest :| oldest in closures;
        if sound {
          ClosureEvicted(closures, index.byRoot, oldest);
        }
        closures := closures - {oldest};
        Consume(1);
      }
      if sound {
        ClosureAdded(closures, index.byRoot, root, affected);
      }
      index := index.(closures := closures[root := affected]);
      Consume(1);
    }

    /** The nodes indexed under the roots; single-root answers are cached. */
    method AffectedFromRoots(roots: set<Id>, ghost sound: bool) returns (affected: set<Id>)
      requires sound ==> ClosuresOk(index.closures, index.byRoot)
      modifies `trusted, `frontierBudgetExceeded, `frontierCache, `frontierWorkUsed, `index
      ensures Charged()
      ensures index == old(index).(closures := index.closures)
      ensures sound ==> ClosuresOk(index.closures, index.byRoot)
      ensures sound ==> affected == IndexedUnder(index.byRoot, roots)
    {
      hide IndexedUnder;
      if |roots| != 1 {
        affected := CollectIndexed(roots, sound);
        return;
      }
      var root :| root in roots;
      Singleton(roots, root);
      NothingIndexed(index.byRoot);
      OneMoreIndexed(index.byRoot, {}, root);
      assert {} + {root} == roots;
      assert {} + {root} + At(index.byRoot, root) == {root} + At(index.byRoot, root);
      Consume(1);
      if root in index.closures {
        return index.closures[root];
      }
      affected := CollectIndexed(roots, sound);
      RememberClosure(root, affected, sound);
    }

    /** A settled index: sound, fully propagated, and seeded with every direct root. */
    ghost predicate Settled()
      reads `dependencies, `dependents, `directDirty, `index
    {
      && IndexedExcept({})
      && directDirty.Keys !! index.inactive
      && Propagated(dependencies, index.roots, index.inactive, {})
      && Seeded(directDirty, index.roots, index.inactive, {})
    }

    /** Enter the seeds at their own nodes; changed ones are queued. */
    method EnterSeeds(seeds: set<Id>) returns (queue: seq<Id>, affected: set<Id>)
      requires Graph() && seeds <= directDirty.Keys
      requires !frontierBudgetExceeded ==> IndexedExcept({}) && directDirty.Keys !! index.inactive
      requires !frontierBudgetExceeded ==> Propagated(dependencies, index.roots, index.inactive, {})
      requires !frontierBudgetExceeded ==> Seeded(directDirty, index.roots, index.inactive, seeds)
      modifies `trusted, `frontierBudgetExceeded, `frontierCache, `frontierWorkUsed, `index
      ensures Charged()
      ensures old(frontierBudgetExceeded) ==> affected == {} && queue == [] && index == old(index)
      ensures Elems(queue) <= seeds
      ensures !frontierBudgetExceeded ==> IndexedExcept({}) && directDirty.Keys !! index.inactive
      ensures !frontierBudgetExceeded ==> Propagated(dependencies, index.roots, index.inactive, Elems(queue))
      ensures !frontierBudgetExceeded ==> Seeded(directDirty, index.roots, index.inactive, {})
      ensures !frontierBudgetExceeded ==> AffectedOk(dependencies, index, seeds, affected)
    {
      hide IndexOk, GraphOk, NoFresh, Propagated, Seeded, AffectedOk, Merged, Enterable, HeldElsewhere, IndexedUnder,
           GrewAt, Covers, Live, ClosuresOk;
      queue := [];
      affected := {};
      var todo := seeds;
      ghost var x0 := index;
      NothingAffected(dependencies, index);
      assert Elems(queue) == {};
      assert seeds - todo == {};
      while todo != {}
        invariant Charged()
        invariant todo <= seeds && Elems(queue) <= seeds
        invariant !frontierBudgetExceeded ==> IndexedExcept({}) && directDirty.Keys !! index.inactive
        invariant !frontierBudgetExceeded ==> Propagated(dependencies, index.roots, index.inactive, Elems(queue))
        invariant !frontierBudgetExceeded ==> Seeded(directDirty, index.roots, index.inactive, todo)
        invariant !frontierBudgetExceeded ==> AffectedOk(dependencies, index, seeds - todo, affected)
        invariant old(frontierBudgetExceeded) ==> affected == {} && queue == [] && index == x0
      {
        var id :| id in todo;
        if frontierBudgetExceeded {
          break;
        }
        ghost var x := index;
        ghost var pending, done, todo0 := Elems(queue), seeds - todo, todo;
        todo := todo - {id};
        assert seeds - todo == done + {id};
        assert todo + {id} == todo0;
        EnterableAtItself(dependencies, directDirty, x, id);
        var changed := MergeDirtyState(id, map[id := directDirty[id]]);
        ghost var y := index;
        if !frontierBudgetExceeded {
          SeedEntered(dependencies, dependents, directDirty, x, y, id, todo, pending);
        }
        if changed {
          queue := queue + [id];
          assert Elems(queue) == pending + {id};
        }
        ghost var before := affected;
        affected := affected + {id};
        ghost var sound := !frontierBudgetExceeded;
        if sound {
          ClosuresOfIndex(dependencies, directDirty, y);
        }
        var known := AffectedFromRoots({id}, sound);
        if sound {
          NewClosuresOk(dependencies, directDirty, y, index.closures, {});
          IndexedInReach(dependencies, directDirty, y, id);
          SeedAffected(dependencies, x, y, id, directDirty[id], done, before, known);
          AffectedIgnoresClosures(dependencies, y, index.closures, seeds - todo, affected + known);
        }
        affected := affected + known;
      }
      assert seeds - {} == seeds;
    }

    /** Offer a node's roots to each of its dependents; changed dependents are pushed. */
    method VisitDependents(id: Id, known: set<Id>, ghost pending: set<Id>, ghost seeds: set<Id>)
      returns (pushed: seq<Id>, affected: set<Id>)
      requires Graph()
      requires !frontierBudgetExceeded ==> IndexedExcept({}) && directDirty.Keys !! index.inactive
      requires !frontierBudgetExceeded ==> Propagated(dependencies, index.roots, index.inactive, pending + {id})
      requires !frontierBudgetExceeded ==> Seeded(directDirty, index.roots, index.inactive, {})
      requires !frontierBudgetExceeded ==>
                 AffectedOk(dependencies, index, seeds, known) && id in ReachOf(dependencies, seeds)
      modifies `trusted, `frontierBudgetExceeded, `frontierCache, `frontierWorkUsed, `index
      ensures Charged()
      ensures !frontierBudgetExceeded ==> IndexedExcept({}) && directDirty.Keys !! index.inactive
      ensures !frontierBudgetExceeded ==> Propagated(dependencies, index.roots, index.inactive, pending + Elems(pushed))
      ensures !frontierBudgetExceeded ==> Seeded(directDirty, index.roots, index.inactive, {})
      ensures !frontierBudgetExceeded ==>
                AffectedOk(dependencies, index, seeds, affected) && Elems(pushed) <= ReachOf(dependencies, seeds)
      ensures !frontierBudgetExceeded ==>
                Missing(dependencies, directDirty, index) <= Missing(dependencies, directDirty, old(index))
      ensures !frontierBudgetExceeded && pushed != [] ==>
                Missing(dependencies, directDirty, index) < Missing(dependencies, directDirty, old(index))
    {
      hide IndexOk, NoFresh, Propagated, PropagatedBut, Seeded, AffectedOk, Merged, Enterable, HeldElsewhere, Missing,
           ReachOf, Live, Reach;
      pushed := [];
      affected := known;
      var todo := At(dependents, id);
      ghost var x0 := index;
      if !frontierBudgetExceeded {
        VisitStarts(dependencies, index, pending, id);
      }
      assert pending + Elems(pushed) == pending;
      assert At(dependents, id) - todo == {};
      while todo != {}
        invariant Charged()
        invariant todo <= At(dependents, id)
        invariant !frontierBudgetExceeded ==> IndexedExcept({}) && directDirty.Keys !! index.inactive
        invariant !frontierBudgetExceeded ==>
                    PropagatedBut(dependencies, index, pending + Elems(pushed), id, At(dependents, id) - todo)
        invariant !frontierBudgetExceeded ==> Seeded(directDirty, index.roots, index.inactive, {})
        invariant !frontierBudgetExceeded ==>
                    AffectedOk(dependencies, index, seeds, affected) && Elems(pushed) <= ReachOf(dependencies, seeds)
        invariant !frontierBudgetExceeded ==>
                    Missing(dependencies, directDirty, index) <= Missing(dependencies, directDirty, x0)
        invariant !frontierBudgetExceeded && pushed != [] ==>
                    Missing(dependencies, directDirty, index) < Missing(dependencies, directDirty, x0)
      {
        var dependent :| dependent in todo;
        ghost var done := At(dependents, id) - todo;
        todo := todo - {dependent};
        assert At(dependents, id) - todo == done + {dependent};
        var roots := RootsAt(index.roots, id);
        ghost var x, before, queued := index, affected, pending + Elems(pushed);
        if roots != map[] {
          affected := affected + {dependent};
        }
        if !frontierBudgetExceeded {
          EnterableAtDependent(dependencies, dependents, directDirty, x, id, dependent);
        }
        var changed := MergeDirtyState(dependent, roots);
        if !frontierBudgetExceeded {
          DependentVisited(dependencies, dependents, directDirty, x, index, queued, id, done, dependent);
          DependentAffected(dependencies, x, index, id, dependent, roots, seeds, before);
        }
        if changed {
          pushed := pushed + [dependent];
          assert pending + Elems(pushed) == queued + {dependent};
        }
      }
      assert At(dependents, id) - todo == At(dependents, id);
      if !frontierBudgetExceeded {
        VisitEnds(dependencies, dependents, index, pending + Elems(pushed), id);
      }
    }

    /** Propagate the seeds to everything they reach, stopping at nodes that already know them. */
    method PropagateDirty(seeds: set<Id>) returns (affected: set<Id>)
      requires Graph() && seeds <= directDirty.Keys
      requires !frontierBudgetExceeded ==> IndexedExcept({}) && directDirty.Keys !! index.inactive
      requires !frontierBudgetExceeded ==> Propagated(dependencies, index.roots, index.inactive, {})
      requires !frontierBudgetExceeded ==> Seeded(directDirty, index.roots, index.inactive, seeds)
      modifies `trusted, `frontierBudgetExceeded, `frontierCache, `frontierWorkUsed, `index
      ensures Charged()
      ensures !frontierBudgetExceeded ==> Settled() && affected == ReachOf(dependencies, seeds)
      ensures old(frontierBudgetExceeded) ==> affected == {} && index == old(index)
    {
      hide IndexOk, NoFresh, Propagated, Seeded, AffectedOk, Missing, ReachOf, GraphOk;
      var queue: seq<Id>;
      queue, affected := EnterSeeds(seeds);
      var next := 0;
      assert queue[0..] == queue;
      if !frontierBudgetExceeded {
        SeedsReached(dependencies, index, seeds, affected);
      }
      while next < |queue|
        invariant 0 <= next <= |queue|
        invariant Charged()
        invariant old(frontierBudgetExceeded) ==> affected == {} && queue == [] && index == old(index)
        invariant !frontierBudgetExceeded ==> IndexedExcept({}) && directDirty.Keys !! index.inactive
        invariant !frontierBudgetExceeded ==>
                    Propagated(dependencies, index.roots, index.inactive, Elems(queue[next..]))
        invariant !frontierBudgetExceeded ==> Seeded(directDirty, index.roots, index.inactive, {})
        invariant !frontierBudgetExceeded ==> AffectedOk(dependencies, index, seeds, affected)
        invariant !frontierBudgetExceeded ==> Elems(queue[next..]) <= ReachOf(dependencies, seeds)
        decreases !frontierBudgetExceeded, Missing(dependencies, directDirty, index), |queue| - next
      {
        if frontierBudgetExceeded {
          break;
        }
        var id := queue[next];
        ghost var pending := Elems(queue[next + 1..]);
        assert queue[next..] == [id] + queue[next + 1..];
        assert Elems(queue[next..]) == pending + {id};
        var pushed: seq<Id>;
        pushed, affected := VisitDependents(id, affected, pending, seeds);
        assert (queue + pushed)[next + 1..] == queue[next + 1..] + pushed;
        assert Elems((queue + pushed)[next + 1..]) == pending + Elems(pushed);
        queue := queue + pushed;
        next := next + 1;
      }
      if !frontierBudgetExceeded {
        assert Elems(queue[next..]) == {};
        AffectedIsReach(dependencies, dependents, directDirty, index, seeds, affected);
      }
    }

    // ---- reactivation and rebuild ---------------------------------------------------------

    /** A resolved root is dirty again: re-enter it wherever it ever reached. */
    method ReactivateRoot(root: Id, status: Status)
      requires Graph() && root in directDirty && directDirty[root] == status && root in index.inactive
      requires !frontierBudgetExceeded ==> IndexedExcept({})
      modifies `trusted, `frontierBudgetExceeded, `frontierCache, `frontierWorkUsed, `index
      ensures Charged()
      ensures index.inactive == old(index.inactive) - {root}
      ensures !frontierBudgetExceeded ==> IndexedExcept({})
      ensures !frontierBudgetExceeded ==>
                Reactivating(dependencies, old(index), index, root, status, Descendants(dependencies, root))
    {
      hide IndexOk, Reactivating, GraphOk, NoFresh, Minimal, Descendants, ReEnter;
      ghost var x := index;
      if !frontierBudgetExceeded {
        ReactivationStarts(dependencies, directDirty, x, root, status);
        TombstoneIndexed(dependencies, directDirty, x, root);
      }
      index := TakeBack(index, root);
      if root !in index.byRoot {
        return;
      }
      var todo := index.byRoot[root];
      ghost var all := todo;
      assert all - todo == {};
      while todo != {}
        invariant Charged()
        invariant todo <= all && index.inactive == x.inactive - {root}
        invariant !frontierBudgetExceeded ==> Reactivating(dependencies, x, index, root, status, all - todo)
      {
        var m :| m in todo;
        ghost var visited := all - todo;
        todo := todo - {m};
        assert all - todo == visited + {m};
        if frontierBudgetExceeded {
          return;
        }
        var roots := RootsAt(index.roots, m);
        if root !in roots || roots[root] != status {
          Consume(1);
        }
        var frontier := ComputeFrontier(roots[root := status].Keys);
        if !frontierBudgetExceeded {
          ReactivationStep(dependencies, x, index, root, status, visited, m, frontier);
        }
        ReEnterInactive(index, m, root, status, frontier);
        index := ReEnter(index, m, root, status, frontier);
        ChargeDirtyStateUpdate(m);
      }
      assert all - todo == all;
      if !frontierBudgetExceeded {
        ReactivationOk(dependencies, directDirty, x, index, root, status);
      }
    }

    /** Forget the index and enter every direct root again. */
    method RebuildDirtyState()
      requires Graph()
      modifies `trusted, `frontierBudgetExceeded, `frontierCache, `frontierWorkUsed, `index
      ensures Charged()
      ensures !frontierBudgetExceeded ==> Settled()
      ensures directDirty == map[] ==>
                index.inactive == {} && index.roots == map[] && frontierBudgetExceeded == old(frontierBudgetExceeded)
    {
      hide IndexOk, GraphOk, NoFresh, Propagated, Seeded, ReachOf;
      index := Index(map[], map[], map[], map[], {}, map[], map[], 0);
      EmptyIndexOk(dependencies, directDirty);
      assert directDirty == map[] ==> directDirty.Keys == {};
      if directDirty != map[] {
        var _ := PropagateDirty(directDirty.Keys);
      }
    }

    // ---- validity of the whole engine ------------------------------------------------------

    /** What a cached entry may claim: complete answers are exact while the budget holds. */
    ghost predicate EntryValid(n: Id, e: FrontierResult)
      reads `dependencies, `directDirty, `graphRevision, `trusted, `frontierBudgetExceeded
    {
      && n in dependencies && e.graphRevision == graphRevision
      && (!e.complete ==> e.status == UNKNOWN && e.frontier == {} && !trusted)
      && (e.complete ==> trusted || frontierBudgetExceeded)
      && (e.complete && !frontierBudgetExceeded ==> Exact(dependencies, directDirty, n, e.status, e.frontier))
    }

    ghost predicate Valid()
      reads this
    {
      && Graph()
      && (frontierBudgetExceeded ==> !trusted)
      && (!frontierBudgetExceeded ==> Settled())
      && forall n :: n in frontierCache ==> EntryValid(n, frontierCache[n])
    }

    ghost predicate NothingComplete()
      reads `frontierCache
    {
      forall n :: n in frontierCache ==> !frontierCache[n].complete
    }

    /** No complete answer survived an overrun of the work budget. */
    ghost predicate NoOverrun()
      reads `frontierCache, `frontierBudgetExceeded
    {
      frontierBudgetExceeded ==> NothingComplete()
    }

    /** What every mutator but a full restore does to trust and to cached answers. */
    twostate predicate Mutated()
      reads `trusted, `frontierBudgetExceeded, `frontierCache
    {
      && (trusted ==> old(trusted))
      && (old(frontierBudgetExceeded) ==> frontierBudgetExceeded)
      && (forall n :: n in frontierCache ==> n in old(frontierCache) && frontierCache[n] == old(frontierCache[n]))
      && (frontierBudgetExceeded && !old(frontierBudgetExceeded) ==> frontierCache == map[])
    }

    /** Trust is lost to an overrun only. */
    twostate predicate KeptTrust()
      reads `trusted, `frontierBudgetExceeded
    {
      frontierBudgetExceeded || trusted == old(trusted)
    }

    // ---- mutators --------------------------------------------------------------------------

    /** Raise one direct state, taking the root back if it is a tombstone. */
    method RaiseDirect(id: Id, status: Status, ghost marked: set<Id>)
      requires Graph() && id in dependencies && status != FRESH
      requires id in directDirty ==> Priority(status) >= Priority(directDirty[id])
      requires !frontierBudgetExceeded ==> IndexedExcept({}) && directDirty.Keys !! index.inactive
      requires !frontierBudgetExceeded ==> Propagated(dependencies, index.roots, index.inactive, {})
      requires !frontierBudgetExceeded ==> Seeded(directDirty, index.roots, index.inactive, marked)
      modifies `trusted, `frontierBudgetExceeded, `frontierCache, `frontierWorkUsed, `index, `directDirty
      ensures Charged() && Graph()
      ensures directDirty == old(directDirty)[id := status]
      ensures !frontierBudgetExceeded ==> IndexedExcept({}) && directDirty.Keys !! index.inactive
      ensures !frontierBudgetExceeded ==> Propagated(dependencies, index.roots, index.inactive, {})
      ensures !frontierBudgetExceeded ==> Seeded(directDirty, index.roots, index.inactive, marked + {id})
    {
      hide IndexOk, GraphOk, Propagated, Seeded, Reactivating, Descendants;
      if !frontierBudgetExceeded {
        DirectRaised(dependencies, directDirty, index, id, status, {});
        SeedPending(directDirty, index, marked, id, status);
      }
      directDirty := directDirty[id := status];
      if id in index.inactive {
        ghost var x := index;
        ReactivateRoot(id, status);
        if !frontierBudgetExceeded {
          ReactivatedPropagated(dependencies, dependents, directDirty, x, index, id, status, marked + {id});
        }
      }
    }

    /** Raise the direct states and take back the tombstones among them. */
    method MarkDirectly(ids: set<Id>, status: Status)
      requires Graph() && ids <= dependencies.Keys && status != FRESH
      requires !frontierBudgetExceeded ==> Settled()
      modifies `trusted, `frontierBudgetExceeded, `frontierCache, `frontierWorkUsed, `index, `directDirty
      ensures Charged() && Graph()
      ensures directDirty == MarkAll(old(directDirty), ids, status)
      ensures !frontierBudgetExceeded ==> IndexedExcept({}) && directDirty.Keys !! index.inactive
      ensures !frontierBudgetExceeded ==> Propagated(dependencies, index.roots, index.inactive, {})
      ensures !frontierBudgetExceeded ==> Seeded(directDirty, index.roots, index.inactive, ids)
    {
      hide IndexOk, GraphOk, NoFresh, Propagated, Seeded;
      var todo := ids;
      ghost var direct0 := directDirty;
      assert ids - todo == {};
      assert MarkAll(direct0, {}, status) == direct0;
      while todo != {}
        invariant todo <= ids
        invariant Charged() && Graph()
        invariant directDirty == MarkAll(direct0, ids - todo, status)
        invariant !frontierBudgetExceeded ==> IndexedExcept({}) && directDirty.Keys !! index.inactive
        invariant !frontierBudgetExceeded ==> Propagated(dependencies, index.roots, index.inactive, {})
        invariant !frontierBudgetExceeded ==> Seeded(directDirty, index.roots, index.inactive, ids - todo)
      {
        var id :| id in todo;
        ghost var marked := ids - todo;
        MarkOne(direct0, marked, status, id);
        todo := todo - {id};
        assert ids - todo == marked + {id};
        RaiseDirect(id, if id in directDirty then StatusMax(directDirty[id], status) else status, marked);
      }
      assert ids - todo == ids;
    }

    /** Marking nodes that are already at least as dirty only reports what they affect. */
    method ReportAffected(nodeIds: set<Id>) returns (affected: set<Id>)
      requires Graph() && nodeIds <= directDirty.Keys
      requires !frontierBudgetExceeded ==> Settled()
      modifies `trusted, `frontierBudgetExceeded, `frontierCache, `frontierWorkUsed, `index
      ensures Charged()
      ensures !frontierBudgetExceeded ==> Settled() && affected == ReachOf(dependencies, nodeIds)
    {
      hide IndexOk, GraphOk, NoFresh, Propagated, Seeded, ReachOf, IndexedUnder, ClosuresOk;
      ghost var x, sound := index, !frontierBudgetExceeded;
      if sound {
        ClosuresOfIndex(dependencies, directDirty, x);
        SettledReach(dependencies, dependents, directDirty, x, nodeIds);
      }
      affected := AffectedFromRoots(nodeIds, sound);
      if sound {
        NewClosuresOk(dependencies, directDirty, x, index.closures, {});
      }
    }

    /** Mark, propagate, and drop the cached answers of everything the marks reach. */
    method MarkAndInvalidate(nodeIds: set<Id>, status: Status) returns (affected: set<Id>)
      requires Valid() && nodeIds <= dependencies.Keys && status != FRESH
      modifies `trusted, `frontierBudgetExceeded, `frontierCache, `frontierWorkUsed, `index, `directDirty
      ensures Valid() && Mutated() && KeptTrust()
      ensures directDirty == MarkAll(old(directDirty), nodeIds, status)
      ensures !frontierBudgetExceeded ==> affected == ReachOf(dependencies, nodeIds)
      ensures old(frontierBudgetExceeded) ==> frontierCache == old(frontierCache)
    {
      hide IndexOk, GraphOk, NoFresh, Propagated, Seeded, Exact, ReachOf;
      ghost var direct0 := directDirty;
      affected := MarkAndPropagate(nodeIds, status);
      if !frontierBudgetExceeded {
        MarkingIsLocal(dependencies, direct0, nodeIds, status);
      }
      frontierCache := frontierCache - affected;
    }

    method MarkAndPropagate(nodeIds: set<Id>, status: Status) returns (affected: set<Id>)
      requires Graph() && nodeIds <= dependencies.Keys && status != FRESH
      requires !frontierBudgetExceeded ==> Settled()
      modifies `trusted, `frontierBudgetExceeded, `frontierCache, `frontierWorkUsed, `index, `directDirty
      ensures Charged() && Graph()
      ensures directDirty == MarkAll(old(directDirty), nodeIds, status)
      ensures !frontierBudgetExceeded ==> Settled() && affected == ReachOf(dependencies, nodeIds)
      ensures old(frontierBudgetExceeded) ==> affected == {}
    {
      hide IndexOk, GraphOk, NoFresh, Propagated, Seeded, ReachOf;
      MarkDirectly(nodeIds, status);
      affected := PropagateDirty(nodeIds);
    }

    method MarkDirty(nodeIds: set<Id>, status: Status) returns (r: Outcome<Impact>)
      requires Valid()
      modifies this
      ensures Valid() && Mutated() && KeptTrust() && dependencies == old(dependencies)
      ensures r.Thrown? <==> status == FRESH || !(nodeIds <= old(dependencies).Keys)
      ensures r.Thrown? ==> directDirty == old(directDirty) && frontierCache == old(frontierCache)
      ensures r.Done? ==> directDirty == MarkAll(old(directDirty), nodeIds, status)
      ensures r.Done? ==> Marked(old(directDirty), nodeIds, status, directDirty)
      ensures r.Done? ==> (r.value.complete <==> trusted && !frontierBudgetExceeded)
      ensures r.Done? && r.value.complete ==> r.value.affected == ReachOf(dependencies, nodeIds)
      ensures old(frontierBudgetExceeded) ==> frontierCache == old(frontierCache)
    {
      hide IndexOk, GraphOk, NoFresh, Propagated, Seeded, Exact, ReachOf, Settled, IndexedExcept, Marked, MarkAll;
      frontierWorkUsed := 0;
      if status == FRESH {
        return Thrown(FreshIsNotDirty);
      }
      if id :| id in nodeIds && id !in dependencies {
        return Thrown(UnknownNode(id));
      }
      generation := generation + 1;
      MarkAllMarks(directDirty, nodeIds, status);
      var affected: set<Id>;
      if forall id :: id in nodeIds ==>
           id in directDirty && id !in index.inactive && Priority(directDirty[id]) >= Priority(status) {
        MarkedAlready(directDirty, nodeIds, status);
        affected := ReportAffected(nodeIds);
      } else {
        affected := MarkAndInvalidate(nodeIds, status);
      }
      r := Done(Impact(affected, trusted && !frontierBudgetExceeded));
    }

    /** Turn one direct root into a tombstone and drop the answers it bears on. */
    method TombstoneRoot(nodeId: Id) returns (affected: set<Id>)
      requires Valid() && nodeId in directDirty
      modifies `trusted, `frontierBudgetExceeded, `frontierCache, `frontierWorkUsed, `index, `directDirty
      ensures Valid() && Mutated() && KeptTrust()
      ensures directDirty == old(directDirty) - {nodeId}
      ensures !old(frontierBudgetExceeded) ==> affected == Descendants(dependencies, nodeId)
    {
      hide IndexOk, GraphOk, NoFresh, Propagated, Seeded, Exact, Descendants, Tombstone;
      affected := if nodeId in index.byRoot then index.byRoot[nodeId] else {nodeId};
      ghost var direct0 := directDirty;
      if !frontierBudgetExceeded {
        TombstoneOk(dependencies, dependents, directDirty, index, nodeId);
        TombstoneSettled(dependencies, directDirty, index, nodeId);
        ForgettingIsLocal(dependencies, directDirty, nodeId);
      }
      DroppedRoot(directDirty, nodeId);
      TombstoneFields(index, nodeId);
      directDirty := directDirty - {nodeId};
      index := Tombstone(index, nodeId);
      if index.tombs > budget {
        FailClosed();
      }
      frontierCache := frontierCache - affected;
    }

    method Resolve(nodeId: Id) returns (r: Outcome<Impact>)
      requires Valid()
      modifies this
      ensures Valid() && Mutated() && dependencies == old(dependencies)
      ensures r.Thrown? <==> nodeId !in old(dependencies)
      ensures !(nodeId in old(directDirty) && old(directDirty)[nodeId] == UNKNOWN) ==> KeptTrust()
      ensures directDirty == if nodeId in old(directDirty) && old(directDirty)[nodeId] != UNKNOWN
                             then old(directDirty) - {nodeId} else old(directDirty)
      ensures nodeId in old(directDirty) && old(directDirty)[nodeId] == UNKNOWN ==> !trusted && frontierCache == map[]
      ensures r.Done? && r.value.complete && directDirty == old(directDirty) ==> r.value.affected == {}
      ensures r.Done? && r.value.complete && directDirty != old(directDirty) ==>
                r.value.affected == Descendants(dependencies, nodeId)
    {
      hide IndexOk, GraphOk, NoFresh, Propagated, Seeded, Exact, Settled, IndexedExcept, Descendants;
      frontierWorkUsed := 0;
      if nodeId !in dependencies {
        return Thrown(UnknownNode(nodeId));
      }
      if nodeId !in directDirty {
        return Done(Impact({}, trusted && !frontierBudgetExceeded));
      }
      if directDirty[nodeId] == UNKNOWN {
        MarkUnknown();
        return Done(Impact(if nodeId in index.byRoot then index.byRoot[nodeId] else {nodeId}, false));
      }
      generation := generation + 1;
      assert nodeId !in directDirty - {nodeId};
      var affected := TombstoneRoot(nodeId);
      r := Done(Impact(affected, trusted && !frontierBudgetExceeded));
    }

    method MarkUnknown()
      requires Valid()
      modifies this
      ensures Valid() && Mutated() && dependencies == old(dependencies) && directDirty == old(directDirty)
      ensures index == old(index)
      ensures !trusted && frontierCache == map[]
    {
      hide IndexOk, GraphOk, NoFresh, Propagated, Seeded, Exact, Settled, IndexedExcept;
      frontierWorkUsed := 0;
      trusted := false;
      generation := generation + 1;
      frontierCache := map[];
    }

    /** Kept for compatibility: it withdraws trust like MarkUnknown instead of restoring it. */
    method RestoreTrust()
      requires Valid()
      modifies this
      ensures Valid() && Mutated() && dependencies == old(dependencies) && directDirty == old(directDirty)
      ensures !trusted && frontierCache == map[]
    {
      hide IndexOk, GraphOk, NoFresh, Propagated, Seeded, Exact, Settled, IndexedExcept;
      trusted := false;
      generation := generation + 1;
      frontierCache := map[];
    }

    /** Breadth-first closure along dependents; it is not charged to the work budget. */
    method DescendantClosure(start: Id) returns (affected: set<Id>)
      requires Graph() && start in dependencies
      ensures affected == Descendants(dependencies, start)
    {
      affected := {start};
      var queue := [start];
      var next := 0;
      while next < |queue|
        invariant 0 <= next <= |queue| && |queue| > 0 && queue[0] == start
        invariant start in affected && affected <= Descendants(dependencies, start)
        invariant forall x :: x in affected <==> x in queue
        invariant forall x, b :: x in queue[..next] && x in At(dependencies, b) ==> b in affected
        decreases dependencies.Keys - affected, |queue| - next
      {
        hide Reach;
        var id := queue[next];
        ghost var affected0, queue0 := affected, queue;
        var todo := At(dependents, id) - affected;
        assert id in queue && id in Descendants(dependencies, start);
        forall b | b in todo
          ensures b in Descendants(dependencies, start)
        {
          EdgeReaches(dependencies, id, b);
          ReachEndpoints(dependencies, id, b);
          BelowTransitive(dependencies, start, id, b);
        }
        while todo != {}
          invariant queue0 <= queue && affected0 <= affected && todo !! affected
          invariant affected + todo == affected0 + At(dependents, id) && todo <= Descendants(dependencies, start)
          invariant affected <= Descendants(dependencies, start)
          invariant |queue| > |queue0| ==> affected0 < affected
          invariant forall x :: x in affected <==> x in queue
        {
          var dependent :| dependent in todo;
          todo := todo - {dependent};
          affected := affected + {dependent};
          queue := queue + [dependent];
        }
        next := next + 1;
        assert queue[..next] == queue0[..next - 1] + [id];
      }
      assert queue[..next] == queue && start in queue;
      forall n | n in Descendants(dependencies, start)
        ensures n in affected
      {
        if n != start {
          var p :| IsPath(dependencies, p) && |p| >= 2 && p[0] == start && p[|p| - 1] == n;
          ClosedSetHoldsReached(dependencies, affected, p);
        }
      }
    }

    method ReplaceDirect(nodeId: Id, status: Status)
      requires Graph() && nodeId in dependencies
      modifies `trusted, `frontierBudgetExceeded, `frontierCache, `frontierWorkUsed, `index, `directDirty
      ensures Charged() && Graph()
      ensures directDirty == if status == FRESH then old(directDirty) - {nodeId} else old(directDirty)[nodeId := status]
      ensures !frontierBudgetExceeded ==> Settled()
      ensures forall n, t, f :: n in dependencies && n !in Descendants(dependencies, nodeId) ==>
                (Exact(dependencies, old(directDirty), n, t, f) <==> Exact(dependencies, directDirty, n, t, f))
    {
      hide IndexOk, GraphOk, Propagated, Seeded, Exact, Descendants;
      ghost var direct0 := directDirty;
      directDirty := if status == FRESH then directDirty - {nodeId} else directDirty[nodeId := status];
      assert directDirty - {nodeId} == direct0 - {nodeId};
      ReplacingIsLocal(dependencies, direct0, directDirty, nodeId);
      RebuildDirtyState();
    }

    method ReplaceStatus(nodeId: Id, status: Status) returns (r: Outcome<Impact>)
      requires Valid()
      modifies this
      ensures Valid() && Mutated() && KeptTrust() && dependencies == old(dependencies)
      ensures r.Thrown? <==> nodeId !in old(dependencies)
      ensures r.Thrown? ==> directDirty == old(directDirty)
      ensures r.Done? ==>
                directDirty
                == if status == FRESH then old(directDirty) - {nodeId} else old(directDirty)[nodeId := status]
      ensures r.Done? ==> r.value.affected == Descendants(dependencies, nodeId)
      ensures r.Done? ==> (r.value.complete <==> trusted && !frontierBudgetExceeded)
    {
      hide IndexOk, GraphOk, NoFresh, Propagated, Seeded, Exact, Settled, IndexedExcept, Descendants;
      frontierWorkUsed := 0;
      if nodeId !in dependencies {
        return Thrown(UnknownNode(nodeId));
      }
      var affected := DescendantClosure(nodeId);
      generation := generation + 1;
      ReplaceDirect(nodeId, status);
      frontierCache := frontierCache - affected;
      r := Done(Impact(affected, trusted && !frontierBudgetExceeded));
    }

    // ---- trust recovery ----------------------------------------------------------------------

    /** Validate a snapshot before anything is replaced. */
    method ReadSnapshot(states: seq<(Id, Status)>) returns (r: Outcome<Dirty>)
      ensures r.Done? <==> CompleteSnapshot(dependencies, states)
      ensures r.Done? ==> r.value == SnapshotStates(states) && r.value.Keys <= dependencies.Keys && NoFresh(r.value)
    {
      var next: Dirty := map[];
      var seen: set<Id> := {};
      for i := 0 to |states|
        invariant SnapshotPrefix(dependencies, states[..i]) && seen == SnapshotIds(states[..i])
        invariant next == SnapshotStates(states[..i])
        invariant next.Keys <= seen <= dependencies.Keys && NoFresh(next)
      {
        hide SnapshotIds, SnapshotPrefix;
        var id, status := states[i].0, states[i].1;
        SnapshotNext(dependencies, states, i);
        if id in seen {
          return Thrown(DuplicateState(id));
        }
        if id !in dependencies {
          return Thrown(UnknownNode(id));
        }
        seen := seen + {id};
        if status != FRESH {
          next := next[id := status];
        }
      }
      assert states[..|states|] == states;
      if id :| id in dependencies && id !in seen {
        return Thrown(IncompleteSnapshot(id));
      }
      return Done(next);
    }

    /** Restore every node's direct state at once; the only operation that restores trust. */
    method RestoreStates(states: seq<(Id, Status)>) returns (r: Outcome<()>)
      requires Valid()
      modifies this
      ensures Valid() && dependencies == old(dependencies)
      ensures r.Done? <==> CompleteSnapshot(old(dependencies), states)
      ensures r.Thrown? ==>
                directDirty == old(directDirty) && trusted == old(trusted) && frontierCache == old(frontierCache)
      ensures r.Thrown? ==> frontierBudgetExceeded == old(frontierBudgetExceeded)
      ensures r.Done? ==> directDirty == SnapshotStates(states)
      ensures r.Done? ==> (trusted <==> !frontierBudgetExceeded) && frontierCache == map[]
    {
      hide IndexOk, GraphOk, Propagated, Seeded, Exact, Settled, IndexedExcept, CompleteSnapshot, SnapshotStates;
      frontierWorkUsed := 0;
      var next := ReadSnapshot(states);
      if next.Thrown? {
        return Thrown(next.error);
      }
      generation := generation + 1;
      Recover(next.value);
      return Done(());
    }

    method Recover(next: Dirty)
      requires GraphOk(dependencies, dependents) && next.Keys <= dependencies.Keys && NoFresh(next)
      modifies `trusted, `frontierBudgetExceeded, `frontierCache, `frontierWorkUsed, `index, `directDirty
      ensures Graph() && directDirty == next && frontierCache == map[]
      ensures (trusted <==> !frontierBudgetExceeded) && (!frontierBudgetExceeded ==> Settled())
    {
      hide IndexOk, GraphOk, NoFresh, Propagated, Seeded;
      directDirty := next;
      frontierBudgetExceeded := false;
      trusted := true;
      RebuildDirtyState();
      frontierCache := map[];
    }

    // ---- queries -------------------------------------------------------------------------------

    /** Read the stored answer of a compacted node. The reads are charged, but not checked. */
    method ReadAnswer(n: Id) returns (status: Status, frontier: set<Id>)
      requires !frontierBudgetExceeded && RootsAt(index.roots, n).Keys !! index.inactive
      modifies `trusted, `frontierBudgetExceeded, `frontierCache, `frontierWorkUsed
      ensures Charged()
      ensures IsMaxSeverity(status, RootsAt(index.roots, n)) && frontier == At(index.frontiers, n)
      ensures frontierBudgetExceeded <==> old(frontierWorkUsed) + 2 + RootCount(index.roots, n) > budget
      ensures !frontierBudgetExceeded ==> frontierWorkUsed == old(frontierWorkUsed) + 2 + RootCount(index.roots, n)
    {
      status := FRESH;
      Consume(1);
      var roots := RootsAt(index.roots, n);
      var todo := roots.Keys;
      while todo != {}
        invariant Charged() && todo <= roots.Keys
        invariant forall r :: r in roots.Keys - todo ==> Priority(roots[r]) <= Priority(status)
        invariant status == FRESH || exists r :: r in roots && roots[r] == status
        invariant frontierBudgetExceeded <==> old(frontierWorkUsed) + 1 + |roots.Keys| - |todo| > budget
        invariant !frontierBudgetExceeded ==> frontierWorkUsed == old(frontierWorkUsed) + 1 + |roots.Keys| - |todo|
      {
        var root :| root in todo;
        todo := todo - {root};
        Consume(1);
        if root !in index.inactive {
          status := StatusMax(status, roots[root]);
        }
      }
      HighestPriority(status, roots);
      frontier := At(index.frontiers, n);
      Consume(1);
    }

    /** Store an answer and return it. */
    method Cache(n: Id, result: FrontierResult) returns (r: Outcome<FrontierResult>)
      requires Graph() && (frontierBudgetExceeded ==> !trusted) && (!frontierBudgetExceeded ==> Settled())
      requires forall m :: m in frontierCache ==> EntryValid(m, frontierCache[m])
      requires EntryValid(n, result)
      modifies `frontierCache
      ensures Valid() && r == Done(result) && frontierCache == old(frontierCache)[n := result]
    {
      hide EntryValid, Settled, Graph;
      frontierCache := frontierCache[n := result];
      r := Done(result);
    }

    /** Compact a node for a query, keeping the index settled. */
    method Observe(n: Id)
      requires Graph() && !frontierBudgetExceeded && Settled()
      modifies `trusted, `frontierBudgetExceeded, `frontierCache, `frontierWorkUsed, `index
      ensures Charged()
      ensures !frontierBudgetExceeded ==> Settled() && RootsAt(index.roots, n).Keys !! index.inactive
      ensures !frontierBudgetExceeded ==> RootCount(index.roots, n) == LiveCount(old(index), n)
      ensures old(index.inactive) == {} ==> index == old(index)
      ensures ChargedAtLeast(LeastCompaction(old(index), n))
      ensures ComparesNone(old(index), n) ==> ChargedExactly(LeastCompaction(old(index), n))
    {
      hide IndexOk, GraphOk, NoFresh, Propagated, Seeded, Compacted, Live, Holders, LeastCharge, NoneCompared,
           RootCount;
      ghost var x := index;
      var _ := CompactResolvedRoots(n);
      if !frontierBudgetExceeded {
        CompactedLive(x, index, n);
        CompactedInactive(x, index, n);
        CompactedCount(x, index, n);
        SameLive(dependencies, directDirty, x, index, {});
      }
    }

    /** Answer a query. compactionWork is what lazy compaction charged before the read-out: when
        no two surviving roots had to be compared, exactly what the roots and tombstones at the
        node tell. The read-out charges two and the number of live roots, unchecked. */
    method Frontier(nodeId: Id) returns (r: Outcome<FrontierResult>, ghost compactionWork: nat)
      requires Valid()
      modifies this
      ensures Valid() && dependencies == old(dependencies) && directDirty == old(directDirty)
      ensures KeptTrust() && (trusted ==> old(trusted))
      ensures old(trusted) && !frontierBudgetExceeded && r.Done? ==> r.value.complete
      ensures r.Done? && !old(trusted) && !old(frontierBudgetExceeded) ==> !r.value.complete
      ensures r.Thrown? <==> nodeId !in dependencies
      ensures r.Thrown? ==> frontierCache == old(frontierCache)
      ensures r.Done? && !r.value.complete ==> r.value.status == UNKNOWN && r.value.frontier == {}
      ensures old(NoOverrun()) && r.Done? && r.value.complete ==>
                Exact(dependencies, directDirty, nodeId, r.value.status, r.value.frontier) &&
                  StatusTells(dependencies, directDirty, nodeId, r.value.status)
      ensures old(!trusted && NothingComplete()) ==> NothingComplete() && (r.Done? ==> !r.value.complete)
      ensures nodeId in old(frontierCache) ==>
                && r == Done(old(frontierCache[nodeId]).(cacheHit := true, impactGeneration := generation))
                && frontierCache == old(frontierCache) && frontierBudgetExceeded == old(frontierBudgetExceeded)
      ensures nodeId in dependencies && nodeId !in old(frontierCache) ==>
                !r.value.cacheHit && nodeId in frontierCache && frontierCache[nodeId] == r.value
      ensures r.Done? && r.value.complete && !r.value.cacheHit ==>
                && old(trusted) && LeastCompaction(old(index), nodeId) <= compactionWork <= budget
                && (ComparesNone(old(index), nodeId) ==> compactionWork == LeastCompaction(old(index), nodeId))
                && (frontierBudgetExceeded <==> compactionWork + 2 + LiveCount(old(index), nodeId) > budget)
                && (!frontierBudgetExceeded ==>
                      frontierWorkUsed == compactionWork + 2 + LiveCount(old(index), nodeId))
      ensures old(trusted) && nodeId !in old(frontierCache) && r.Done? && ComparesNone(old(index), nodeId) ==>
                (r.value.complete <==> LeastCompaction(old(index), nodeId) <= budget)
      ensures old(trusted) && old(index.inactive) == {} && nodeId !in old(frontierCache) && r.Done? ==>
                r.value.complete && compactionWork == 0 && index == old(index)
      ensures old(NoOverrun()) ==>
                (NoOverrun() <==> !(r.Done? && r.value.complete && !r.value.cacheHit && frontierBudgetExceeded))
    {
      hide IndexOk, GraphOk, NoFresh, Propagated, Seeded, Exact, IsMaxSeverity, LeastCompaction, ComparesNone,
           LiveCount, RootCount, StatusTells;
      frontierWorkUsed := 0;
      compactionWork := 0;
      forall s, f | Exact(dependencies, directDirty, nodeId, s, f)
        ensures StatusTells(dependencies, directDirty, nodeId, s)
      {
        StatusMeaning(dependencies, directDirty, nodeId, s, f);
      }
      if nodeId !in dependencies {
        return Thrown(UnknownNode(nodeId)), 0;
      }
      if nodeId in frontierCache && frontierCache[nodeId].graphRevision == graphRevision {
        return Done(frontierCache[nodeId].(cacheHit := true, impactGeneration := generation)), 0;
      }
      if !trusted || frontierBudgetExceeded {
        r := Cache(nodeId, FrontierResult(UNKNOWN, {}, false, false, graphRevision, generation));
        return;
      }
      NoTombstonesNoWork(index, nodeId);
      Observe(nodeId);
      if !trusted || frontierBudgetExceeded {
        r := Cache(nodeId, FrontierResult(UNKNOWN, {}, false, false, graphRevision, generation));
        return;
      }
      compactionWork := frontierWorkUsed;
      var status, frontier := ReadAnswer(nodeId);
      IndexAnswers(dependencies, directDirty, index, nodeId, status);
      r := Cache(nodeId, FrontierResult(status, frontier, true, false, graphRevision, generation));
    }

    // ---- graph updates -----------------------------------------------------------------------

    /** Declare the listed dependencies as nodes, up to the first that names the node itself. */
    method DeclareDependencies(id: Id, dependsOn: seq<Id>) returns (self: bool)
      modifies `dependencies
      ensures self <==> id in dependsOn
      ensures dependencies == WithNodes(old(dependencies), BeforeSelf(dependsOn, id))
    {
      var i := 0;
      assert WithNodes(dependencies, {}) == dependencies;
      while i < |dependsOn|
        invariant 0 <= i <= |dependsOn| && id !in dependsOn[..i]
        invariant BeforeSelf(dependsOn[..i], id) <= BeforeSelf(dependsOn, id)
        invariant dependencies == WithNodes(old(dependencies), BeforeSelf(dependsOn[..i], id))
      {
        if dependsOn[i] == id {
          BeforeSelfStops(dependsOn, id, i);
          return true;
        }
        BeforeSelfGoesOn(dependsOn, id, i);
        if dependsOn[i] !in dependencies {
          dependencies := dependencies[dependsOn[i] := {}];
        }
        i := i + 1;
      }
      assert dependsOn[..i] == dependsOn;
      return false;
    }

    method RemoveReverseEdges(id: Id)
      modifies `dependents
      ensures forall a :: At(dependents, a) == At(old(dependents), a) - if a in At(dependencies, id) then {id} else {}
    {
      var todo := At(dependencies, id);
      while todo != {}
        invariant todo <= At(dependencies, id)
        invariant forall a ::
                    At(dependents, a) == At(old(dependents), a) - if a in At(dependencies, id) - todo then {id} else {}
      {
        var d :| d in todo;
        todo := todo - {d};
        var rest := At(dependents, d) - {id};
        dependents := if rest == {} then dependents - {d} else dependents[d := rest];
      }
    }

    method AddReverseEdges(id: Id, next: set<Id>)
      modifies `dependents
      ensures forall a :: At(dependents, a) == At(old(dependents), a) + if a in next then {id} else {}
    {
      var todo := next;
      while todo != {}
        invariant todo <= next
        invariant forall a :: At(dependents, a) == At(old(dependents), a) + if a in next - todo then {id} else {}
      {
        var d :| d in todo;
        todo := todo - {d};
        dependents := dependents[d := At(dependents, d) + {id}];
      }
    }

    /** Replace a node's edges in both directions, undoing everything if that closes a cycle. */
    method RewireEdges(id: Id, next: set<Id>, ghost g: Edges, ghost rev: Edges) returns (cycle: Option<Id>)
      requires GraphOk(g, rev) && dependencies == WithNodes(g, next) && dependents == rev && id !in next
      modifies `dependencies, `dependents
      ensures cycle.None? <==> Acyclic(WithDeps(g, id, next))
      ensures cycle.None? ==> dependencies == WithDeps(g, id, next) && GraphOk(dependencies, dependents)
      ensures cycle.Some? ==> Reach(WithDeps(g, id, next), cycle.value, cycle.value)
    {
      hide Reach;
      if id in dependencies {
        RemoveReverseEdges(id);
      }
      dependencies := dependencies[id := next];
      AddReverseEdges(id, next);
      RewiredOk(g, rev, dependencies, dependents, id, next);
      cycle := AssertAcyclic(dependencies, id);
      OnlyNewCycles(g, dependencies, id);
      CyclicHas(dependencies, cycle);
    }

    method SetDependencies(id: Id, dependsOn: seq<Id>) returns (r: Outcome<()>)
      requires Valid()
      modifies this
      ensures Valid() && Mutated() && KeptTrust() && directDirty == old(directDirty)
      ensures r.Done? <==> id !in dependsOn && Acyclic(WithDeps(old(dependencies), id, Elems(dependsOn)))
      ensures r.Done? ==> dependencies == WithDeps(old(dependencies), id, Elems(dependsOn)) && frontierCache == map[]
      ensures r.Thrown? && id !in dependsOn ==> dependencies == old(dependencies) && dependents == old(dependents)
      ensures r.Thrown? && id !in dependsOn ==>
                r.error.CycleAt? && Reach(WithDeps(old(dependencies), id, Elems(dependsOn)), r.error.id, r.error.id)
      ensures r.Thrown? && id in dependsOn ==>
                r.error == CycleAt(id) && dependencies == WithNodes(old(dependencies), BeforeSelf(dependsOn, id))
      ensures r.Thrown? ==> frontierCache == old(frontierCache)
    {
      hide IndexOk, NoFresh, Propagated, Seeded, Exact, Reach, Acyclic, WithDeps, WithNodes, Closed, Inverse,
           BeforeSelf, GraphOk;
      frontierWorkUsed := 0;
      ghost var x := index;
      var previousDependencies, previousDependents := dependencies, dependents;
      var self := DeclareDependencies(id, dependsOn);
      if self {
        DeclaredNodesOnly(previousDependencies, BeforeSelf(dependsOn, id));
        return Thrown(CycleAt(id));
      }
      BeforeSelfAll(dependsOn, id);
      WithDepsKeys(previousDependencies, id, Elems(dependsOn));
      var cycle := RewireEdges(id, Elements(dependsOn), previousDependencies, previousDependents);
      if cycle.Some? {
        dependencies := previousDependencies;
        dependents := previousDependents;
        return Thrown(CycleAt(cycle.value));
      }
      graphRevision := graphRevision + 1;
      generation := generation + 1;
      Rebuilt();
      return Done(());
    }

    /** Declaring unconnected nodes leaves the engine valid: no answer depends on them. */
    ghost method DeclaredNodesOnly(g: Edges, nodes: set<Id>)
      requires GraphOk(g, dependents) && directDirty.Keys <= g.Keys && NoFresh(directDirty)
      requires dependencies == WithNodes(g, nodes) && (frontierBudgetExceeded ==> !trusted)
      requires !frontierBudgetExceeded ==> IndexOk(g, directDirty, index, {}) && directDirty.Keys !! index.inactive
      requires !frontierBudgetExceeded ==>
                 Propagated(g, index.roots, index.inactive, {}) && Seeded(directDirty, index.roots, index.inactive, {})
      requires forall n :: n in frontierCache ==>
                 var e := frontierCache[n];
                 && n in g && e.graphRevision == graphRevision
                 && (!e.complete ==> e.status == UNKNOWN && e.frontier == {} && !trusted)
                 && (e.complete ==> trusted || frontierBudgetExceeded)
                 && (e.complete && !frontierBudgetExceeded ==> Exact(g, directDirty, n, e.status, e.frontier))
      ensures Valid()
    {
      hide IndexOk, NoFresh, Propagated, Seeded, Exact, Reach, WithNodes, GraphOk;
      DeclaredOk(g, dependents, directDirty, nodes);
      GraphClosed(g, dependents);
      GraphClosed(dependencies, dependents);
      if !frontierBudgetExceeded {
        IsolatedNodes(g, dependencies, directDirty, index);
      }
    }

    /** Rebuild after a graph change and forget every cached answer. */
    method Rebuilt()
      requires Graph() && (frontierBudgetExceeded ==> !trusted)
      modifies `trusted, `frontierBudgetExceeded, `frontierCache, `frontierWorkUsed, `index
      ensures Valid() && KeptTrust() && frontierCache == map[]
      ensures (trusted ==> old(trusted)) && (old(frontierBudgetExceeded) ==> frontierBudgetExceeded)
    {
      hide IndexOk, GraphOk, NoFresh, Propagated, Seeded, Exact;
      RebuildDirtyState();
      frontierCache := map[];
    }

    method AddNode(id: Id, dependsOn: seq<Id>) returns (r: Outcome<()>)
      requires Valid()
      modifies this
      ensures Valid() && Mutated() && KeptTrust() && directDirty == old(directDirty)
      ensures r.Done? <==> id !in old(dependencies) && id !in dependsOn &&
                           Acyclic(WithDeps(old(dependencies), id, Elems(dependsOn)))
      ensures r.Done? ==> dependencies == WithDeps(old(dependencies), id, Elems(dependsOn))
      ensures r.Thrown? && id !in old(dependencies) && id in dependsOn ==>
                dependencies == WithNodes(old(dependencies), BeforeSelf(dependsOn, id))
      ensures r.Thrown? && !(id !in old(dependencies) && id in dependsOn) ==> dependencies == old(dependencies)
    {
      if id in dependencies {
        return Thrown(NodeExists(id));
      }
      r := SetDependencies(id, dependsOn);
    }

    method RemoveNode(id: Id) returns (r: Outcome<()>)
      requires Valid()
      modifies this
      ensures Valid() && Mutated() && KeptTrust()
      ensures r.Thrown? <==> id in old(dependencies) && exists n :: id in At(old(dependencies), n)
      ensures r.Thrown? ==>
                && dependencies == old(dependencies) && directDirty == old(directDirty)
                && frontierCache == old(frontierCache)
      ensures r.Done? ==> dependencies == old(dependencies) - {id} && directDirty == old(directDirty) - {id}
    {
      hide IndexOk, NoFresh, Propagated, Seeded, Exact, Reach, Settled, IndexedExcept, GraphOk;
      frontierWorkUsed := 0;
      if id !in dependencies {
        assert dependencies - {id} == dependencies && directDirty - {id} == directDirty;
        return Done(());
      }
      ghost var g, rev := dependencies, dependents;
      DependentsOf(g, rev, id);
      if At(dependents, id) != {} { return Thrown(HasDependents(id)); }
      RemoveReverseEdges(id);
      dependencies := dependencies - {id};
      dependents := dependents - {id};
      NoFreshWithout(directDirty, id);
      directDirty := directDirty - {id};
      RemovedOk(g, rev, dependencies, dependents, id);
      graphRevision := graphRevision + 1;
      generation := generation + 1;
      Rebuilt();
      return Done(());
    }
  }

  lemma DependentsOf(g: Edges, rev: Edges, id: Id)
    requires GraphOk(g, rev)
    ensures At(rev, id) != {} <==> exists n :: id in At(g, n)
  {
    hide Closed, Acyclic;
    if n :| n in At(rev, id) { assert id in At(g, n); }
    if n :| id in At(g, n) { assert n in At(rev, id); }
  }

  lemma NoFreshWithout(direct: Dirty, id: Id)
    requires NoFresh(direct)
    ensures NoFresh(direct - {id})
  {}

  /** Every node at or above n is in the frontier or below one of its members. */
  ghost predicate CoversAll(g: Edges, frontier: set<Id>, n: Id) {
    forall a :: a in g && Below(g, a, n) ==> a in frontier || exists r :: r in frontier && Reach(g, r, a)
  }

  ghost predicate MarkChanges(g: Edges, dirty: Dirty, n: Id, status: Status, frontier: set<Id>, ids: set<Id>,
                              s: Status) {
    s != FRESH && ids <= g.Keys && !Exact(g, MarkAll(dirty, ids, s), n, status, frontier)
  }

  /** Some mark makes an exact answer wrong, unless it is INVALID already and its frontier covers
      everything at or above the node. */
  lemma SomeMarkChangesIff(g: Edges, dirty: Dirty, n: Id, status: Status, frontier: set<Id>)
    requires Acyclic(g) && n in g && Exact(g, dirty, n, status, frontier)
    ensures (exists ids, s :: MarkChanges(g, dirty, n, status, frontier, ids, s)) <==>
            status != INVALID || !CoversAll(g, frontier, n)
  {
    hide Reach, Acyclic, MarkAll;
    if status != INVALID {
      InvalidChanges(g, dirty, n, status, frontier);
      assert MarkChanges(g, dirty, n, status, frontier, {n}, INVALID);
    } else if !CoversAll(g, frontier, n) {
      var a :| a in g && Below(g, a, n) && a !in frontier && forall r :: r in frontier ==> !Reach(g, r, a);
      UncoveredChanges(g, dirty, n, status, frontier, a);
      assert MarkChanges(g, dirty, n, status, frontier, {a}, STALE);
    } else {
      forall ids, s | s != FRESH && ids <= g.Keys ensures Exact(g, MarkAll(dirty, ids, s), n, status, frontier) {
        CoveredStays(g, dirty, n, frontier, ids, s);
      }
    }
  }

  lemma InvalidChanges(g: Edges, dirty: Dirty, n: Id, status: Status, frontier: set<Id>)
    requires status != INVALID
    ensures !Exact(g, MarkAll(dirty, {n}, INVALID), n, status, frontier)
  {
    var causes := Causes(g, MarkAll(dirty, {n}, INVALID), n);
    assert n in causes && causes[n] == INVALID;
  }

  lemma UncoveredChanges(g: Edges, dirty: Dirty, n: Id, status: Status, frontier: set<Id>, a: Id)
    requires Acyclic(g) && Below(g, a, n) && a !in frontier && forall r :: r in frontier ==> !Reach(g, r, a)
    ensures !Exact(g, MarkAll(dirty, {a}, STALE), n, status, frontier)
  {
    hide Reach, Acyclic;
    var causes := Causes(g, MarkAll(dirty, {a}, STALE), n);
    assert a in causes;
    var m := MinimalBelow(g, causes.Keys, a);
  }

  lemma CoveredStays(g: Edges, dirty: Dirty, n: Id, frontier: set<Id>, ids: set<Id>, s: Status)
    requires Acyclic(g) && Exact(g, dirty, n, INVALID, frontier) && CoversAll(g, frontier, n) && ids <= g.Keys
    ensures Exact(g, MarkAll(dirty, ids, s), n, INVALID, frontier)
  {
    hide Reach, Acyclic;
    var now, was := Causes(g, MarkAll(dirty, ids, s), n), Causes(g, dirty, n);
    var r :| r in was && was[r] == INVALID;
    assert r in now && now[r] == INVALID;
    forall x | x in frontier ensures x in Minimal(g, now.Keys) {
      forall q | q in now && Reach(g, q, x) ensures false {
        if q !in was {
          assert q in g;
          if q !in frontier {
            var f :| f in frontier && Reach(g, f, q);
            ReachTransitive(g, f, q, x);
          }
        }
      }
    }
    assert forall q :: q in was ==> q in now;
    forall x | x in Minimal(g, now.Keys) ensures x in frontier {
      if x !in was { assert x in g; }
    }
  }

  /** Once a complete answer is cached in an engine whose budget is gone, no mark drops it: if
      the mark changes the answer, the next one is complete and wrong. */
  method StaleAfterOverrun(engine: IncrementalFrontierEngine, n: Id, ids: set<Id>, status: Status)
    returns (answer: FrontierResult)
    requires engine.Valid() && engine.frontierBudgetExceeded
    requires n in engine.frontierCache && engine.frontierCache[n].complete
    requires MarkChanges(engine.dependencies, engine.directDirty, n, engine.frontierCache[n].status,
                         engine.frontierCache[n].frontier, ids, status)
    modifies engine
    ensures engine.Valid() && n in engine.frontierCache && engine.frontierCache == old(engine.frontierCache)
    ensures engine.dependencies == old(engine.dependencies)
    ensures engine.directDirty == MarkAll(old(engine.directDirty), ids, status)
    ensures answer == engine.frontierCache[n].(cacheHit := true, impactGeneration := engine.generation)
    ensures answer.complete && !Exact(engine.dependencies, engine.directDirty, n, answer.status, answer.frontier)
  {
    hide Reach, IndexOk, Propagated, Seeded, GraphOk, Exact, MarkAll;
    var marked := engine.MarkDirty(ids, status);
    assert engine.EntryValid(n, engine.frontierCache[n]);
    var again, _ := engine.Frontier(n);
    answer := again.value;
  }

  lemma OneNodeLoads()
    ensures LoadedGraph([(0, [])]) == map[0 := {}] && Acyclic(LoadedGraph([(0, [])]))
  {
    var g: Edges := map[0 := {}];
    assert Elems([]) == {};
    assert WithDeps(map[], 0, {}) == g;
    assert LoadedGraph([(0, [])][..0]) == map[];
    RankedIsAcyclic(g, {0}, map[0 := 0], 1);
  }

  /** Listed before the first mention of id. */
  ghost predicate ListedBefore(dependsOn: seq<Id>, id: Id, n: Id) {
    exists i :: 0 <= i < |dependsOn| && dependsOn[i] == n && id !in dependsOn[..i + 1]
  }

  lemma {:induction false} BeforeSelfLists(dependsOn: seq<Id>, id: Id, n: Id)
    ensures n in BeforeSelf(dependsOn, id) <==> ListedBefore(dependsOn, id, n)
  {
    if dependsOn == [] { return; }
    var rest := dependsOn[1..];
    BeforeSelfLists(rest, id, n);
    if dependsOn[0] != id && ListedBefore(rest, id, n) {
      var i :| 0 <= i < |rest| && rest[i] == n && id !in rest[..i + 1];
      assert dependsOn[..i + 2] == [dependsOn[0]] + rest[..i + 1] && dependsOn[i + 1] == n;
    }
    if ListedBefore(dependsOn, id, n) {
      var i :| 0 <= i < |dependsOn| && dependsOn[i] == n && id !in dependsOn[..i + 1];
      assert dependsOn[0] in dependsOn[..i + 1];
      if i > 0 {
        assert dependsOn[..i + 1] == [dependsOn[0]] + rest[..i] && rest[i - 1] == n;
      }
    }
    if dependsOn[0] == n && n != id { assert dependsOn[..1] == [n] && ListedBefore(dependsOn, id, n); }
  }

  /** A list that is refused for naming the node itself changes the graph all the same exactly
      if a node before that place is not declared yet. */
  lemma SelfEdgeLeavesIff(g: Edges, dependsOn: seq<Id>, id: Id)
    ensures WithNodes(g, BeforeSelf(dependsOn, id)) != g <==> exists n :: ListedBefore(dependsOn, id, n) && n !in g
  {
    hide BeforeSelf, ListedBefore;
    forall n ensures n in BeforeSelf(dependsOn, id) <==> ListedBefore(dependsOn, id, n) {
      BeforeSelfLists(dependsOn, id, n);
    }
    assert WithNodes(g, {}) == g;
    if !(exists n :: n in BeforeSelf(dependsOn, id) && n !in g) {
      assert WithNodes(g, BeforeSelf(dependsOn, id)) == g;
    } else {
      var n :| n in BeforeSelf(dependsOn, id) && n !in g;
      assert n in WithNodes(g, BeforeSelf(dependsOn, id));
    }
  }

  /** An engine that refuses an edge list and has a new node afterwards. */
  method SelfEdgeLeavesNodeWitness() returns (engine: IncrementalFrontierEngine, r: Outcome<()>)
    ensures fresh(engine) && engine.Valid() && r == Thrown(CycleAt(0)) && engine.dependencies == map[1 := {}]
  {
    hide Reach, IndexOk, Propagated, Seeded, GraphOk, Exact, Acyclic;
    engine := new IncrementalFrontierEngine(1000, 256);
    r := engine.SetDependencies(0, [1, 0]);
    assert BeforeSelf([1, 0], 0) == {1} + BeforeSelf([0], 0) by { assert [1, 0][1..] == [0]; }
    assert WithNodes(map[], {1}) == map[1 := {}];
  }

  /** The read-out is charged after the last trust check, so a complete answer is cached
      although the budget is gone. With one unit of budget, the cached answer of node 0 is FRESH
      and complete although the node has just been marked. */
  method ReadOutOverrunWitness() returns (engine: IncrementalFrontierEngine)
    ensures fresh(engine) && engine.Valid() && engine.budget == 1 && engine.frontierBudgetExceeded
    ensures 0 in engine.dependencies && 0 in engine.directDirty && 0 in engine.frontierCache
    ensures engine.frontierCache[0].complete && engine.frontierCache[0].status == FRESH
    ensures !Exact(engine.dependencies, engine.directDirty, 0, engine.frontierCache[0].status,
                   engine.frontierCache[0].frontier)
  {
    hide Reach, IndexOk, Propagated, Seeded, GraphOk, Exact, LoadedGraph;
    OneNodeLoads();
    var nodes: seq<(Id, seq<Id>)> := [(0, [])];
    var loaded := IncrementalFrontierEngine.Create(nodes, 1, 256);
    engine := loaded.value;
    var first, _ := engine.Frontier(0);
    FreshWhenClean(engine.dependencies, engine.directDirty, 0, first.value.status, first.value.frontier);
    InvalidChanges(engine.dependencies, engine.directDirty, 0, first.value.status, first.value.frontier);
    var answer := StaleAfterOverrun(engine, 0, {0}, INVALID);
  }

  lemma FreshWhenClean(g: Edges, dirty: Dirty, n: Id, status: Status, frontier: set<Id>)
    requires dirty == map[] && Exact(g, dirty, n, status, frontier)
    ensures status == FRESH
  {
  }
}
