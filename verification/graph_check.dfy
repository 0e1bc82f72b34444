/** The two iterative depth-first searches that reject cyclic dependency graphs. */
module GraphCheck {
  import opened Dag
  import opened Wrappers

  /** A node to enter, or the mark left below a node's dependencies to leave it again. */
  datatype Frame = Frame(id: Id, exit: bool)

  ghost function Parent(stack: seq<Frame>): Option<Id> {
    if stack == [] then None
    else
      var top := stack[|stack| - 1];
      if top.exit then Some(top.id) else Parent(stack[..|stack| - 1])
  }

  ghost function ExitIds(stack: seq<Frame>): set<Id> {
    if stack == [] then {}
    else
      var top := stack[|stack| - 1];
      ExitIds(stack[..|stack| - 1]) + if top.exit then {top.id} else {}
  }

  /** Every frame is a dependency of the nearest node being visited below it. */
  ghost predicate Linked(g: Edges, stack: seq<Frame>) {
    stack == [] ||
    var rest, top := stack[..|stack| - 1], stack[|stack| - 1];
    && Linked(g, rest)
    && top.id in g
    && (top.exit ==> top.id !in ExitIds(rest))
    && match Parent(rest) {
         case Some(p) => top.id in At(g, p)
         case None => ExitIds(rest) == {}
       }
  }

  ghost predicate OnStackAbove(stack: seq<Frame>, i: nat, d: Id) {
    exists j :: i < j < |stack| && stack[j].id == d
  }

  /** A node being visited still has each dependency above it unless it is finished. */
  ghost predicate Accounted(g: Edges, stack: seq<Frame>, visited: set<Id>) {
    forall i, d :: 0 <= i < |stack| && stack[i].exit && d in At(g, stack[i].id) ==>
      d in visited || OnStackAbove(stack, i, d)
  }

  /** Finished nodes have only finished dependencies, of smaller rank. */
  ghost predicate Ranked(g: Edges, visited: set<Id>, rank: map<Id, nat>, next: nat) {
    && (forall n :: n in visited ==> n in rank && rank[n] < next)
    && (forall n, d :: n in visited && d in At(g, n) ==> d in visited && rank[d] < rank[n])
  }

  lemma {:induction false} ParentBelowExits(g: Edges, stack: seq<Frame>, x: Id)
    requires Linked(g, stack) && x in ExitIds(stack)
    ensures Parent(stack).Some? && Below(g, Parent(stack).value, x)
  {
    var rest, top := stack[..|stack| - 1], stack[|stack| - 1];
    if x in ExitIds(rest) {
      ParentBelowExits(g, rest, x);
      if top.exit {
        EdgeReaches(g, top.id, Parent(rest).value);
        BelowTransitive(g, top.id, Parent(rest).value, x);
      }
    }
  }

  /** A node met again while it is being visited lies on a cycle. */
  lemma MetAgain(g: Edges, stack: seq<Frame>, d: Id, parent: Id)
    requires Linked(g, stack) && Parent(stack) == Some(parent) && d in At(g, parent) && d in ExitIds(stack)
    ensures Reach(g, d, d)
  {
    ParentBelowExits(g, stack, d);
    EdgeReaches(g, d, parent);
    BelowTransitive(g, d, parent, d);
  }

  lemma Finished(g: Edges, visited: set<Id>, rank: map<Id, nat>, next: nat, n: Id)
    requires Ranked(g, visited, rank, next) && n !in visited && forall d :: d in At(g, n) ==> d in visited
    ensures Ranked(g, visited + {n}, rank[n := next], next + 1)
  {
  }

  lemma NoCycleThrough(g: Edges, visited: set<Id>, rank: map<Id, nat>, next: nat, n: Id)
    requires Ranked(g, visited, rank, next) && n in visited
    ensures !Reach(g, n, n)
  {
    if Reach(g, n, n) {
      var p :| IsPath(g, p) && |p| >= 2 && p[0] == n && p[|p| - 1] == n;
      RankGrows(g, visited, rank, p);
    }
  }

  lemma PopAccounted(g: Edges, stack: seq<Frame>, visited: set<Id>, visited': set<Id>)
    requires stack != [] && Accounted(g, stack, visited)
    requires visited <= visited' && stack[|stack| - 1].id in visited'
    ensures Accounted(g, stack[..|stack| - 1], visited')
  {
    var rest := stack[..|stack| - 1];
    forall i, d | 0 <= i < |rest| && rest[i].exit && d in At(g, rest[i].id)
      ensures d in visited' || OnStackAbove(rest, i, d)
    {
      if d !in visited {
        var j :| i < j < |stack| && stack[j].id == d;
        if j < |rest| {
          assert rest[j].id == d;
        }
      }
    }
  }

  lemma TopAccounted(g: Edges, stack: seq<Frame>, visited: set<Id>)
    requires stack != [] && stack[|stack| - 1].exit && Accounted(g, stack, visited)
    ensures forall d :: d in At(g, stack[|stack| - 1].id) ==> d in visited
  {
    forall d | d in At(g, stack[|stack| - 1].id)
      ensures d in visited
    {
      assert !OnStackAbove(stack, |stack| - 1, d);
    }
  }

  lemma EnterAccounted(g: Edges, stack: seq<Frame>, visited: set<Id>)
    requires stack != [] && !stack[|stack| - 1].exit && Accounted(g, stack, visited)
    ensures var top := stack[|stack| - 1];
            forall i, d :: 0 <= i < |stack| - 1 && stack[i].exit && d in At(g, stack[i].id) ==>
              d in visited || OnStackAbove(stack[..|stack| - 1] + [Frame(top.id, true)], i, d)
  {
    var top, entered := stack[|stack| - 1], stack[..|stack| - 1] + [Frame(stack[|stack| - 1].id, true)];
    forall i, d | 0 <= i < |stack| - 1 && stack[i].exit && d in At(g, stack[i].id) && d !in visited
      ensures OnStackAbove(entered, i, d)
    {
      var j :| i < j < |stack| && stack[j].id == d;
      assert entered[j].id == d;
    }
  }

  lemma PushedAbove(stack: seq<Frame>, f: Frame, i: nat, d: Id)
    requires OnStackAbove(stack, i, d)
    ensures OnStackAbove(stack + [f], i, d)
  {
    var j :| i < j < |stack| && stack[j].id == d;
    assert (stack + [f])[j].id == d;
  }

  /** The stack while a node's dependencies are being pushed: the lower frames are
      accounted for, and so are the dependencies of the node that are no longer to do. */
  ghost predicate Pushing(g: Edges, stack: seq<Frame>, visited: set<Id>, at: int, todo: set<Id>)
    requires 0 <= at < |stack|
  {
    && (forall i, d :: 0 <= i < |stack| && i != at && stack[i].exit && d in At(g, stack[i].id) ==>
          d in visited || OnStackAbove(stack, i, d))
    && (forall d :: d in At(g, stack[at].id) - todo ==> d in visited || OnStackAbove(stack, at, d))
  }

  lemma PushOne(g: Edges, stack: seq<Frame>, visited: set<Id>, at: int, todo: set<Id>, d: Id)
    requires 0 <= at < |stack| && Pushing(g, stack, visited, at, todo)
    ensures Pushing(g, stack + [Frame(d, false)], visited, at, todo - {d})
    ensures d in visited ==> Pushing(g, stack, visited, at, todo - {d})
  {
    var pushed := stack + [Frame(d, false)];
    forall i, e | 0 <= i < |pushed| && i != at && pushed[i].exit && e in At(g, pushed[i].id)
      ensures e in visited || OnStackAbove(pushed, i, e)
    {
      assert pushed[i] == stack[i];
      if e !in visited {
        PushedAbove(stack, Frame(d, false), i, e);
      }
    }
    forall e | e in At(g, pushed[at].id) - (todo - {d})
      ensures e in visited || OnStackAbove(pushed, at, e)
    {
      if e == d {
        assert pushed[|stack|].id == d;
      } else if e !in visited {
        PushedAbove(stack, Frame(d, false), at, e);
      }
    }
  }

  /** Push the unfinished dependencies of the node on top, unless one is being visited. */
  method PushDependencies(g: Edges, stack: seq<Frame>, visited: set<Id>, visiting: set<Id>)
    returns (cycle: Option<Id>, pushed: seq<Frame>)
    requires Closed(g) && stack != [] && stack[|stack| - 1].exit
    requires Linked(g, stack) && visiting == ExitIds(stack)
    requires Pushing(g, stack, visited, |stack| - 1, At(g, stack[|stack| - 1].id))
    ensures cycle.Some? ==> Reach(g, cycle.value, cycle.value)
    ensures cycle.None? ==>
              stack <= pushed && Linked(g, pushed) && ExitIds(pushed) == visiting && Accounted(g, pushed, visited)
  {
    var id := stack[|stack| - 1].id;
    pushed := stack;
    ghost var at := |stack| - 1;
    var todo := At(g, id);
    while todo != {}
      invariant todo <= At(g, id) && stack <= pushed
      invariant Linked(g, pushed) && ExitIds(pushed) == visiting && Parent(pushed) == Some(id)
      invariant Pushing(g, pushed, visited, at, todo)
    {
      var d :| d in todo;
      if d in visiting {
        MetAgain(g, pushed, d, id);
        return Some(d), pushed;
      }
      PushOne(g, pushed, visited, at, todo, d);
      todo := todo - {d};
      if d !in visited {
        assert (pushed + [Frame(d, false)])[..|pushed|] == pushed;
        pushed := pushed + [Frame(d, false)];
      }
    }
    return None, pushed;
  }

  lemma NothingRanked(g: Edges)
    ensures Ranked(g, {}, map[], 0)
  {}

  lemma SearchStarts(g: Edges, start: Id)
    requires start in g
    ensures Linked(g, [Frame(start, false)]) && ExitIds([Frame(start, false)]) == {}
    ensures Accounted(g, [Frame(start, false)], {}) && AtBottom([Frame(start, false)], start)
  {
    var stack := [Frame(start, false)];
    assert stack[..|stack| - 1] == [];
    assert Linked(g, []) && ExitIds([]) == {} && Parent([]) == None;
  }

  ghost predicate AtBottom(stack: seq<Frame>, start: Id) { stack != [] && stack[0].id == start }

  lemma BottomStays(stack: seq<Frame>, start: Id)
    requires stack != []
    ensures var id, rest := stack[|stack| - 1].id, stack[..|stack| - 1];
            && (AtBottom(stack, start) ==> id == start || AtBottom(rest, start))
            && (AtBottom(stack, start) ==> AtBottom(rest + [Frame(id, true)], start))
  {}

  lemma NothingAtBottom(start: Id)
    ensures !AtBottom([], start)
  {}

  lemma BottomUnder(entered: seq<Frame>, pushed: seq<Frame>, start: Id)
    ensures entered <= pushed && AtBottom(entered, start) ==> AtBottom(pushed, start)
  {}

  /** How many nodes have been neither entered nor finished. */
  ghost function OpenNodes(g: Edges, visiting: set<Id>, visited: set<Id>): nat { |g.Keys - visiting - visited| }

  lemma SameOpen(g: Edges, visiting: set<Id>, visited: set<Id>, id: Id)
    requires id in visiting
    ensures OpenNodes(g, visiting - {id}, visited + {id}) == OpenNodes(g, visiting, visited)
    ensures visiting !! visited ==> visiting - {id} !! visited + {id}
  {
    assert g.Keys - (visiting - {id}) - (visited + {id}) == g.Keys - visiting - visited;
  }

  lemma FewerOpen(g: Edges, visiting: set<Id>, visited: set<Id>, id: Id)
    requires id in g && id !in visiting && id !in visited
    ensures OpenNodes(g, visiting + {id}, visited) < OpenNodes(g, visiting, visited)
    ensures visiting !! visited ==> visiting + {id} !! visited
  {
    assert g.Keys - (visiting + {id}) - visited == g.Keys - visiting - visited - {id};
  }

  /** Popping a frame whose node is finished. */
  lemma PopFinished(g: Edges, stack: seq<Frame>, visited: set<Id>, visiting: set<Id>, rank: map<Id, nat>, next: nat)
    requires Linked(g, stack) && visiting == ExitIds(stack) && Accounted(g, stack, visited)
    requires Ranked(g, visited, rank, next) && visiting !! visited && stack != [] && stack[|stack| - 1].exit
    ensures var id, rest := stack[|stack| - 1].id, stack[..|stack| - 1];
            && id in visiting && id in g && Linked(g, rest) && visiting - {id} == ExitIds(rest)
            && Accounted(g, rest, visited + {id}) && Ranked(g, visited + {id}, rank[id := next], next + 1)
  {
    var id := stack[|stack| - 1].id;
    TopAccounted(g, stack, visited);
    PopAccounted(g, stack, visited, visited + {id});
    assert id in visiting;
    hide Accounted;
    Finished(g, visited, rank, next, id);
  }

  /** Popping another frame. */
  lemma PopFrame(g: Edges, stack: seq<Frame>, visited: set<Id>)
    requires Linked(g, stack) && Accounted(g, stack, visited) && stack != [] && !stack[|stack| - 1].exit
    ensures var id, rest := stack[|stack| - 1].id, stack[..|stack| - 1];
            && id in g && Linked(g, rest) && ExitIds(rest) == ExitIds(stack)
            && (id in visited ==> Accounted(g, rest, visited))
  {
    hide Accounted;
    if stack[|stack| - 1].id in visited { PopAccounted(g, stack, visited, visited); }
  }

  lemma MetOnStack(g: Edges, stack: seq<Frame>, id: Id)
    requires Linked(g, stack) && stack != [] && stack[|stack| - 1] == Frame(id, false) && id in ExitIds(stack)
    ensures Reach(g, id, id)
  {
    var rest := stack[..|stack| - 1];
    ParentBelowExits(g, rest, id);
    hide Reach;
    MetAgain(g, rest, id, Parent(rest).value);
  }

  /** Turning the top frame into the one that closes its node. */
  lemma EnterFrame(g: Edges, stack: seq<Frame>, visited: set<Id>)
    requires Linked(g, stack) && Accounted(g, stack, visited) && stack != [] && !stack[|stack| - 1].exit
    requires stack[|stack| - 1].id !in ExitIds(stack)
    ensures var id := stack[|stack| - 1].id;
            var entered := stack[..|stack| - 1] + [Frame(id, true)];
            && Linked(g, entered) && ExitIds(entered) == ExitIds(stack) + {id}
            && Pushing(g, entered, visited, |entered| - 1, At(g, id))
  {
    var id, rest := stack[|stack| - 1].id, stack[..|stack| - 1];
    var entered := rest + [Frame(id, true)];
    EnterAccounted(g, stack, visited);
    assert entered[..|entered| - 1] == rest;
    hide Accounted;
    assert forall i :: 0 <= i < |rest| ==> entered[i] == stack[i];
  }

  /** Depth-first search along dependencies from start, with an explicit stack. */
  method AssertAcyclic(g: Edges, start: Id) returns (cycle: Option<Id>)
    requires Closed(g) && start in g
    ensures cycle.Some? ==> Reach(g, cycle.value, cycle.value)
    ensures cycle.None? ==> !Reach(g, start, start)
  {
    hide Linked, ExitIds, Accounted, Ranked, Pushing, Parent, Reach, Closed, OpenNodes, AtBottom;
    var visiting: set<Id> := {};
    var visited: set<Id> := {};
    var stack := [Frame(start, false)];
    ghost var rank: map<Id, nat>, next := map[], 0;
    NothingRanked(g);
    SearchStarts(g, start);
    while stack != []
      invariant Linked(g, stack) && visiting == ExitIds(stack) && Accounted(g, stack, visited)
      invariant Ranked(g, visited, rank, next) && visiting !! visited
      invariant start in visited || AtBottom(stack, start)
      decreases OpenNodes(g, visiting, visited), |stack|
    {
      var frame, rest := stack[|stack| - 1], stack[..|stack| - 1];
      BottomStays(stack, start);
      if frame.exit {
        PopFinished(g, stack, visited, visiting, rank, next);
        SameOpen(g, visiting, visited, frame.id);
        visiting := visiting - {frame.id};
        visited := visited + {frame.id};
        rank, next := rank[frame.id := next], next + 1;
        stack := rest;
        continue;
      }
      PopFrame(g, stack, visited);
      if frame.id in visited {
        stack := rest;
        continue;
      }
      if frame.id in visiting {
        MetOnStack(g, stack, frame.id);
        return Some(frame.id);
      }
      EnterFrame(g, stack, visited);
      FewerOpen(g, visiting, visited, frame.id);
      visiting := visiting + {frame.id};
      var entered := rest + [Frame(frame.id, true)];
      cycle, stack := PushDependencies(g, entered, visited, visiting);
      BottomUnder(entered, stack, start);
      if cycle.Some? {
        return;
      }
    }
    NothingAtBottom(start);
    NoCycleThrough(g, visited, rank, next, start);
    return None;
  }

  // ---- the whole-graph check used when a graph is loaded ------------------------------

  /** A node on the current path with the dependencies it has not looked at yet. */
  datatype Visit = Visit(id: Id, rest: set<Id>)

  ghost function OpenIds(stack: seq<Visit>): set<Id> {
    set i | 0 <= i < |stack| :: stack[i].id
  }

  /** What the i-th node has looked at is done, or is the next node of the trail. */
  ghost predicate LookedAt(g: Edges, stack: seq<Visit>, done: set<Id>, i: nat)
    requires i < |stack|
  {
    forall d :: d in At(g, stack[i].id) && d !in stack[i].rest ==>
      d in done || (i + 1 < |stack| && stack[i + 1].id == d)
  }

  ghost predicate Trail(g: Edges, stack: seq<Visit>, done: set<Id>) {
    && (forall i ::
          0 <= i < |stack| ==> stack[i].id in g && stack[i].id !in done && stack[i].rest <= At(g, stack[i].id))
    && (forall i, j :: 0 <= i < j < |stack| ==> stack[i].id != stack[j].id)
    && (forall i :: 0 < i < |stack| ==> stack[i].id in At(g, stack[i - 1].id))
    && (forall i :: 0 <= i < |stack| ==> LookedAt(g, stack, done, i))
  }

  lemma {:induction false} TrailReaches(g: Edges, stack: seq<Visit>, done: set<Id>, k: nat)
    requires Trail(g, stack, done) && k < |stack|
    ensures Below(g, stack[|stack| - 1].id, stack[k].id)
    decreases |stack| - k
  {
    if k < |stack| - 1 {
      TrailReaches(g, stack, done, k + 1);
      EdgeReaches(g, stack[k + 1].id, stack[k].id);
      BelowTransitive(g, stack[|stack| - 1].id, stack[k + 1].id, stack[k].id);
    }
  }

  lemma RankedIsAcyclic(g: Edges, done: set<Id>, rank: map<Id, nat>, next: nat)
    requires Closed(g) && Ranked(g, done, rank, next) && g.Keys <= done
    ensures Acyclic(g)
  {
    forall a
      ensures !Reach(g, a, a)
    {
      if Reach(g, a, a) {
        ReachEndpoints(g, a, a);
        NoCycleThrough(g, done, rank, next, a);
      }
    }
  }

  lemma TrailFinishes(g: Edges, stack: seq<Visit>, done: set<Id>)
    requires stack != [] && Trail(g, stack, done) && stack[|stack| - 1].rest == {}
    ensures var top := stack[|stack| - 1].id;
            && top in g && top !in done && top in OpenIds(stack)
            && (forall d :: d in At(g, top) ==> d in done)
            && Trail(g, stack[..|stack| - 1], done + {top})
            && OpenIds(stack[..|stack| - 1]) == OpenIds(stack) - {top}
  {
    var below, top := stack[..|stack| - 1], stack[|stack| - 1];
    assert LookedAt(g, stack, done, |stack| - 1);
    forall i | 0 <= i < |below|
      ensures LookedAt(g, below, done + {top.id}, i)
    {
      assert LookedAt(g, stack, done, i);
    }
    forall x | x in OpenIds(stack) && x != top.id
      ensures x in OpenIds(below)
    {
      var i :| 0 <= i < |stack| && stack[i].id == x;
      assert below[i].id == x;
    }
  }

  lemma TrailLooks(stack: seq<Visit>, d: Id)
    requires stack != []
    ensures var top := stack[|stack| - 1];
            OpenIds(stack[..|stack| - 1] + [Visit(top.id, top.rest - {d})]) == OpenIds(stack)
  {
    var top := stack[|stack| - 1];
    var looked := stack[..|stack| - 1] + [Visit(top.id, top.rest - {d})];
    forall x | x in OpenIds(stack)
      ensures x in OpenIds(looked)
    {
      var i :| 0 <= i < |stack| && stack[i].id == x;
      assert looked[i].id == x;
    }
    forall x | x in OpenIds(looked)
      ensures x in OpenIds(stack)
    {
      var i :| 0 <= i < |looked| && looked[i].id == x;
      assert stack[i].id == x;
    }
  }

  lemma TrailSkips(g: Edges, stack: seq<Visit>, done: set<Id>, d: Id)
    requires stack != [] && Trail(g, stack, done) && d in done
    ensures var top := stack[|stack| - 1];
            Trail(g, stack[..|stack| - 1] + [Visit(top.id, top.rest - {d})], done)
  {
    var top := stack[|stack| - 1];
    var looked := stack[..|stack| - 1] + [Visit(top.id, top.rest - {d})];
    forall i | 0 <= i < |looked|
      ensures LookedAt(g, looked, done, i)
    {
      assert LookedAt(g, stack, done, i);
    }
  }

  lemma TrailEnters(g: Edges, stack: seq<Visit>, done: set<Id>, d: Id)
    requires Closed(g) && stack != [] && Trail(g, stack, done)
    requires d in stack[|stack| - 1].rest && d !in done && d !in OpenIds(stack)
    ensures var top := stack[|stack| - 1];
            Trail(g, stack[..|stack| - 1] + [Visit(top.id, top.rest - {d})] + [Visit(d, At(g, d))], done)
    ensures forall s: seq<Visit> :: OpenIds(s + [Visit(d, At(g, d))]) == OpenIds(s) + {d}
    ensures d in g
  {
    var top := stack[|stack| - 1];
    var looked := stack[..|stack| - 1] + [Visit(top.id, top.rest - {d})];
    var entered := looked + [Visit(d, At(g, d))];
    forall i, j | 0 <= i < j < |entered|
      ensures entered[i].id != entered[j].id
    {
      assert i < |stack| && entered[i].id == stack[i].id;
      assert stack[i].id in OpenIds(stack);
    }
    forall i | 0 <= i < |entered|
      ensures LookedAt(g, entered, done, i)
    {
      assert i < |stack| ==> LookedAt(g, stack, done, i);
    }
    forall s: seq<Visit>
      ensures OpenIds(s + [Visit(d, At(g, d))]) == OpenIds(s) + {d}
    {
      var t := s + [Visit(d, At(g, d))];
      assert t[|s|].id == d;
      forall x | x in OpenIds(s)
        ensures x in OpenIds(t)
      {
        var i :| 0 <= i < |s| && s[i].id == x;
        assert t[i].id == x;
      }
    }
  }

  /** Walk one trail to its end: everything start depends on is done, or a cycle is found. */
  method WalkTrail(g: Edges, start: Id, before: set<Id>, ghost rank0: map<Id, nat>, ghost next0: nat)
    returns (cycle: Option<Id>, done: set<Id>, ghost rank: map<Id, nat>, ghost next: nat)
    requires Closed(g) && start in g && start !in before && before <= g.Keys && Ranked(g, before, rank0, next0)
    ensures cycle.Some? ==> Reach(g, cycle.value, cycle.value)
    ensures cycle.None? ==> before + {start} <= done <= g.Keys && Ranked(g, done, rank, next)
  {
    hide Reach, Ranked, Trail, OpenIds;
    done, rank, next := before, rank0, next0;
    var open := {start};
    var stack := [Visit(start, At(g, start))];
    TrailStarts(g, start, done);
    while stack != []
      invariant Trail(g, stack, done) && open == OpenIds(stack) && Ranked(g, done, rank, next)
      invariant before <= done <= g.Keys
      invariant start in done || (stack != [] && stack[0].id == start)
      decreases g.Keys - open - done, |stack|, if stack == [] then {} else stack[|stack| - 1].rest
    {
      ghost var unseen := g.Keys - open - done;
      var top, below := stack[|stack| - 1], stack[..|stack| - 1];
      if top.rest == {} {
        TrailFinishes(g, stack, done);
        Finished(g, done, rank, next, top.id);
        rank, next := rank[top.id := next], next + 1;
        done := done + {top.id};
        open := open - {top.id};
        stack := below;
        assert g.Keys - open - done == unseen;
        continue;
      }
      var d :| d in top.rest;
      TrailLooks(stack, d);
      if d in open {
        ghost var k := OpenAt(stack, d);
        TrailInGraph(g, stack, done);
        TrailMeets(g, stack, done, k, d);
        return Some(d), done, rank, next;
      }
      if d in done {
        TrailSkips(g, stack, done, d);
        stack := below + [Visit(top.id, top.rest - {d})];
        continue;
      }
      TrailEnters(g, stack, done, d);
      open := open + {d};
      stack := below + [Visit(top.id, top.rest - {d})] + [Visit(d, At(g, d))];
      assert d in unseen;
    }
    return None, done, rank, next;
  }

  lemma TrailStarts(g: Edges, start: Id, done: set<Id>)
    requires start in g && start !in done
    ensures Trail(g, [Visit(start, At(g, start))], done)
    ensures OpenIds([Visit(start, At(g, start))]) == {start}
  {
    assert [Visit(start, At(g, start))][0].id == start;
  }

  lemma OpenAt(stack: seq<Visit>, d: Id) returns (k: nat)
    requires d in OpenIds(stack)
    ensures k < |stack| && stack[k].id == d
  {
    var i :| 0 <= i < |stack| && stack[i].id == d;
    k := i;
  }

  lemma TrailInGraph(g: Edges, stack: seq<Visit>, done: set<Id>)
    requires Trail(g, stack, done)
    ensures forall i :: 0 <= i < |stack| ==> stack[i].rest <= At(g, stack[i].id)
  {
  }

  lemma TrailMeets(g: Edges, stack: seq<Visit>, done: set<Id>, k: nat, d: Id)
    requires Trail(g, stack, done) && k < |stack| && stack[k].id == d && d in At(g, stack[|stack| - 1].id)
    ensures Reach(g, d, d)
  {
    TrailReaches(g, stack, done, k);
    EdgeReaches(g, d, stack[|stack| - 1].id);
    BelowTransitive(g, d, stack[|stack| - 1].id, d);
  }

  /** Depth-first search from every node: finds a cycle exactly when the graph has one. */
  method AssertAcyclicGraph(g: Edges) returns (cycle: Option<Id>)
    requires Closed(g)
    ensures cycle.Some? ==> Reach(g, cycle.value, cycle.value)
    ensures cycle.None? <==> Acyclic(g)
  {
    hide Reach;
    var done: set<Id> := {};
    ghost var rank: map<Id, nat>, next := map[], 0;
    var todo := g.Keys;
    while todo != {}
      invariant todo <= g.Keys && g.Keys - todo <= done <= g.Keys && Ranked(g, done, rank, next)
    {
      var start :| start in todo;
      todo := todo - {start};
      if start in done {
        continue;
      }
      cycle, done, rank, next := WalkTrail(g, start, done, rank, next);
      if cycle.Some? {
        return;
      }
    }
    RankedIsAcyclic(g, done, rank, next);
    return None;
  }
}
