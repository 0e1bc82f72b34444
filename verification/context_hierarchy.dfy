/** Source hierarchies: every source has at most one parent, and a chain of parents ends at a
    root, at a parent that is missing, or never. */
module ContextHierarchy {
  import opened Wrappers

  type Id = string

  datatype Issue = PARENT_MISSING | HIERARCHY_CYCLE

  datatype Info = Info(depth: nat, issue: Option<Issue>)

  /** Each known source with its parent, if it names one. */
  type Parents = map<Id, Option<Id>>

  /** The n-th ancestor, when there is a known one. */
  ghost function Up(parents: Parents, id: Id, n: nat): Option<Id> {
    if n == 0 then (if id in parents then Some(id) else None)
    else match Up(parents, id, n - 1)
         case None => None
         case Some(a) => if parents[a].Some? && parents[a].value in parents then parents[a] else None
  }

  lemma {:induction false} UpKnown(parents: Parents, id: Id, n: nat)
    ensures Up(parents, id, n).Some? ==> Up(parents, id, n).value in parents
  {
    if n > 0 { UpKnown(parents, id, n - 1); }
  }

  /** The chain reaches a source without a parent after n steps. */
  ghost predicate EndsAtRoot(parents: Parents, id: Id, n: nat) {
    Up(parents, id, n).Some? && Up(parents, id, n).value in parents && parents[Up(parents, id, n).value] == None
  }

  /** The chain reaches a source, or starts at one, that is not known. */
  ghost predicate EndsMissing(parents: Parents, id: Id, n: nat) {
    || (n == 0 && id !in parents)
    || (Up(parents, id, n).Some? && Up(parents, id, n).value in parents
        && parents[Up(parents, id, n).value].Some? && parents[Up(parents, id, n).value].value !in parents)
  }

  /** The chain never ends. */
  ghost predicate Endless(parents: Parents, id: Id) { forall n: nat :: Up(parents, id, n).Some? }

  /** What the inspection of a source must say. */
  ghost predicate Tells(parents: Parents, id: Id, info: Info) {
    match info.issue
    case None => EndsAtRoot(parents, id, info.depth)
    case Some(PARENT_MISSING) => info.depth == 0 && exists n: nat :: EndsMissing(parents, id, n)
    case Some(HIERARCHY_CYCLE) => info.depth == 0 && Endless(parents, id)
  }

  /** The verdict one step further down. */
  function Further(parent: Info): Info {
    if parent.issue == None then Info(parent.depth + 1, None) else Info(0, parent.issue)
  }

  /** What the inspection of a unit must say; its own parent may differ from its source's. */
  ghost predicate UnitTells(parents: Parents, sourceId: Id, parentId: Option<Id>, info: Info) {
    match parentId
    case None => Tells(parents, sourceId, info)
    case Some(p) =>
      if p == sourceId then info == Info(0, Some(HIERARCHY_CYCLE))
      else exists parent :: Tells(parents, p, parent) && info == Further(parent)
  }

  /** The parent's chain is the source's chain without its first step. */
  lemma {:induction false} UpStep(parents: Parents, id: Id, n: nat)
    requires id in parents && parents[id].Some? && parents[id].value in parents
    ensures Up(parents, id, n + 1) == Up(parents, parents[id].value, n)
  {
    if n == 0 {
      assert Up(parents, id, 0) == Some(id);
    } else {
      UpStep(parents, id, n - 1);
    }
  }

  /** A chain that comes back to where it was repeats for ever. */
  lemma {:induction false} UpShift(parents: Parents, id: Id, k: nat, n: nat)
    requires Up(parents, id, k) == Some(id)
    ensures Up(parents, id, k + n) == Up(parents, id, n)
  {
    UpKnown(parents, id, k);
    if n > 0 { UpShift(parents, id, k, n - 1); }
  }

  lemma {:induction false} Shorter(parents: Parents, id: Id, m: nat, n: nat)
    requires m <= n && Up(parents, id, n).Some?
    ensures Up(parents, id, m).Some?
  {
    if m < n { Shorter(parents, id, m, n - 1); }
  }

  lemma CycleIsEndless(parents: Parents, id: Id, k: nat)
    requires k > 0 && Up(parents, id, k) == Some(id)
    ensures Endless(parents, id)
  {
    forall n: nat ensures Up(parents, id, n).Some? { Around(parents, id, k, n); }
  }

  lemma {:induction false} Around(parents: Parents, id: Id, k: nat, n: nat)
    requires k > 0 && Up(parents, id, k) == Some(id)
    ensures Up(parents, id, n).Some?
  {
    if n <= k {
      Shorter(parents, id, n, k);
    } else {
      UpShift(parents, id, k, n - k);
      Around(parents, id, k, n - k);
    }
  }

  /** What is true of the parent is true of the source, one step further. */
  lemma TellsParent(parents: Parents, id: Id, parent: Info)
    requires id in parents && parents[id].Some? && parents[id].value in parents
    requires Tells(parents, parents[id].value, parent)
    ensures Tells(parents, id, Further(parent))
  {
    var p := parents[id].value;
    match parent.issue
    case None => UpStep(parents, id, parent.depth);
    case Some(PARENT_MISSING) =>
      var n: nat :| EndsMissing(parents, p, n);
      UpStep(parents, id, n);
      assert EndsMissing(parents, id, n + 1);
    case Some(HIERARCHY_CYCLE) =>
      forall n: nat ensures Up(parents, id, n).Some? {
        if n > 0 { UpStep(parents, id, n - 1); }
      }
  }

  /** Exactly one of the three verdicts is true of a source, and a root is at one depth. */
  lemma OneVerdict(parents: Parents, id: Id, a: Info, b: Info)
    requires Tells(parents, id, a) && Tells(parents, id, b)
    ensures a == b
  {
    hide EndsAtRoot, EndsMissing, Endless, Up;
    match (a.issue, b.issue) {
      case (None, None) => OneDepth(parents, id, a.depth, b.depth);
      case (None, Some(PARENT_MISSING)) => NotMissing(parents, id, a.depth);
      case (None, Some(HIERARCHY_CYCLE)) => RootEnds(parents, id, a.depth);
      case (Some(PARENT_MISSING), None) => NotMissing(parents, id, b.depth);
      case (Some(PARENT_MISSING), Some(PARENT_MISSING)) =>
      case (Some(PARENT_MISSING), Some(HIERARCHY_CYCLE)) => MissingEnds(parents, id);
      case (Some(HIERARCHY_CYCLE), None) => RootEnds(parents, id, b.depth);
      case (Some(HIERARCHY_CYCLE), Some(PARENT_MISSING)) => MissingEnds(parents, id);
      case (Some(HIERARCHY_CYCLE), Some(HIERARCHY_CYCLE)) =>
    }
  }

  /** And of a unit. */
  lemma OneUnitVerdict(parents: Parents, sourceId: Id, parentId: Option<Id>, a: Info, b: Info)
    requires UnitTells(parents, sourceId, parentId, a) && UnitTells(parents, sourceId, parentId, b)
    ensures a == b
  {
    hide Tells;
    if parentId == None {
      OneVerdict(parents, sourceId, a, b);
    } else if parentId.value != sourceId {
      var p :| Tells(parents, parentId.value, p) && a == Further(p);
      var q :| Tells(parents, parentId.value, q) && b == Further(q);
      OneVerdict(parents, parentId.value, p, q);
    }
  }

  lemma OneDepth(parents: Parents, id: Id, m: nat, n: nat)
    requires EndsAtRoot(parents, id, m) && EndsAtRoot(parents, id, n)
    ensures m == n
  {
    Final(parents, id, m);
    Final(parents, id, n);
    if m < n { Shorter(parents, id, m + 1, n); }
    if n < m { Shorter(parents, id, n + 1, m); }
  }

  lemma NotMissing(parents: Parents, id: Id, d: nat)
    requires EndsAtRoot(parents, id, d)
    ensures forall n: nat :: !EndsMissing(parents, id, n)
  {
    forall n: nat ensures !EndsMissing(parents, id, n) {
      if EndsMissing(parents, id, n) { MissingOrRoot(parents, id, n); }
    }
  }

  lemma RootEnds(parents: Parents, id: Id, d: nat)
    requires EndsAtRoot(parents, id, d)
    ensures !Endless(parents, id)
  {
    Final(parents, id, d);
  }

  lemma MissingEnds(parents: Parents, id: Id)
    requires exists n: nat :: EndsMissing(parents, id, n)
    ensures !Endless(parents, id)
  {
    var n: nat :| EndsMissing(parents, id, n);
    Final(parents, id, n);
  }

  /** A unit whose parent is its source's is as deep as its source. */
  lemma UnitAsDeep(parents: Parents, sourceId: Id, depth: nat)
    requires sourceId in parents && UnitTells(parents, sourceId, parents[sourceId], Info(depth, None))
    ensures Tells(parents, sourceId, Info(depth, None))
  {
    if parents[sourceId].Some? {
      var p := parents[sourceId].value;
      var parent :| Tells(parents, p, parent) && Info(depth, None) == Further(parent);
      Shorter(parents, p, 0, parent.depth);
      TellsParent(parents, sourceId, parent);
    }
  }

  lemma Final(parents: Parents, id: Id, n: nat)
    ensures EndsAtRoot(parents, id, n) || EndsMissing(parents, id, n) ==> Up(parents, id, n + 1) == None
  {
    if n == 0 && id !in parents { assert Up(parents, id, 0) == None; }
  }

  lemma MissingOrRoot(parents: Parents, id: Id, n: nat)
    requires EndsMissing(parents, id, n)
    ensures forall d: nat :: !EndsAtRoot(parents, id, d)
  {
    forall d: nat ensures !EndsAtRoot(parents, id, d) {
      Final(parents, id, n);
      Final(parents, id, d);
      if EndsAtRoot(parents, id, d) && d < n { Shorter(parents, id, d + 1, n); }
      if EndsAtRoot(parents, id, d) && n < d { Shorter(parents, id, n + 1, d); }
    }
  }

  // ---- the inspection -------------------------------------------------------------------

  /** The sources being visited, from the one asked about to the current one's child. */
  ghost predicate Chain(parents: Parents, path: seq<Id>, visiting: set<Id>, next: Id) {
    && (forall x :: x in visiting <==> x in path)
    && (forall i, j :: 0 <= i < j < |path| ==> path[i] != path[j])
    && (forall i {:trigger path[i]} :: 0 <= i < |path| ==>
          path[i] in parents && parents[path[i]] == Some(if i + 1 < |path| then path[i + 1] else next))
  }

  /** Along the chain, the i-th source reaches the next one to visit. */
  lemma {:induction false} ChainUp(parents: Parents, path: seq<Id>, visiting: set<Id>, next: Id, i: nat)
    requires Chain(parents, path, visiting, next) && i < |path| && next in parents
    ensures Up(parents, path[i], |path| - i) == Some(next)
    decreases |path| - i
  {
    if i + 1 < |path| {
      ChainUp(parents, path, visiting, next, i + 1);
      assert path[i + 1] in parents;
      UpStep(parents, path[i], |path| - i - 1);
    } else {
      assert Up(parents, path[i], 0) == Some(path[i]);
    }
  }

  ghost predicate MemoOk(parents: Parents, memo: map<Id, Info>) {
    forall id :: id in memo ==> Tells(parents, id, memo[id])
  }

  /** The memo and the states of one selection's inspections. */
  class HierarchyInspector {
    const parents: Parents
    var memo: map<Id, Info>
    var visiting: set<Id>

    constructor (parents: Parents)
      ensures this.parents == parents && MemoOk(parents, memo) && visiting == {}
    {
      this.parents := parents;
      memo, visiting := map[], {};
    }

    /** Follows the parents with a memo; terminates also on cycles, and says exactly how the
        chain ends. */
    method InspectSourceHierarchy(sourceId: Id, ghost path: seq<Id>) returns (info: Info)
      requires MemoOk(parents, memo) && Chain(parents, path, visiting, sourceId) && visiting <= parents.Keys
      modifies this
      ensures MemoOk(parents, memo) && visiting == old(visiting) && Tells(parents, sourceId, info)
      decreases |parents.Keys - visiting|
    {
      hide Tells, MemoOk, Chain;
      if sourceId in memo {
        MemoTells(parents, memo, sourceId);
        return memo[sourceId];
      }
      if sourceId in visiting {
        Revisited(parents, path, visiting, sourceId);
        return Info(0, Some(HIERARCHY_CYCLE));
      }
      if sourceId !in parents {
        UnknownMissing(parents, sourceId);
        info := Info(0, Some(PARENT_MISSING));
        MemoPush(parents, memo, sourceId, info);
        memo := memo[sourceId := info];
        return;
      }
      ghost var before := visiting;
      visiting := visiting + {sourceId};
      KnownEnds(parents, sourceId);
      if parents[sourceId] == None {
        info := Info(0, None);
      } else if parents[sourceId].value !in parents {
        info := Info(0, Some(PARENT_MISSING));
      } else {
        OneFewer(parents.Keys, before, sourceId);
        ChainPush(parents, path, before, sourceId);
        var parent := InspectSourceHierarchy(parents[sourceId].value, path + [sourceId]);
        TellsParent(parents, sourceId, parent);
        info := Further(parent);
      }
      visiting := visiting - {sourceId};
      assert visiting == before;
      MemoPush(parents, memo, sourceId, info);
      memo := memo[sourceId := info];
    }

    /** The same for a unit, whose own parent may differ from its source's. */
    method UnitHierarchy(sourceId: Id, parentId: Option<Id>) returns (info: Info)
      requires MemoOk(parents, memo) && visiting == {}
      modifies this
      ensures MemoOk(parents, memo) && visiting == {}
      ensures UnitTells(parents, sourceId, parentId, info)
    {
      if parentId == None {
        info := InspectSourceHierarchy(sourceId, []);
        return;
      }
      if parentId.value == sourceId { return Info(0, Some(HIERARCHY_CYCLE)); }
      var parent := InspectSourceHierarchy(parentId.value, []);
      info := Further(parent);
    }
  }

  lemma MemoTells(parents: Parents, memo: map<Id, Info>, id: Id)
    requires MemoOk(parents, memo) && id in memo
    ensures Tells(parents, id, memo[id])
  {}

  lemma MemoPush(parents: Parents, memo: map<Id, Info>, id: Id, info: Info)
    requires MemoOk(parents, memo) && Tells(parents, id, info)
    ensures MemoOk(parents, memo[id := info])
  {}

  /** Meeting a source that is being visited means that its chain comes back to it. */
  lemma Revisited(parents: Parents, path: seq<Id>, visiting: set<Id>, id: Id)
    requires Chain(parents, path, visiting, id) && id in visiting
    ensures Tells(parents, id, Info(0, Some(HIERARCHY_CYCLE)))
  {
    var i :| 0 <= i < |path| && path[i] == id;
    assert id in parents;
    ChainUp(parents, path, visiting, id, i);
    CycleIsEndless(parents, id, |path| - i);
  }

  lemma ChainPush(parents: Parents, path: seq<Id>, visiting: set<Id>, id: Id)
    requires Chain(parents, path, visiting, id) && id in parents && id !in visiting && parents[id].Some?
    ensures Chain(parents, path + [id], visiting + {id}, parents[id].value)
  {
    var more := path + [id];
    assert forall i :: 0 <= i < |path| ==> more[i] == path[i];
    assert forall x :: x in more <==> x in path || x == id;
  }

  lemma OneFewer(all: set<Id>, visiting: set<Id>, id: Id)
    requires id in all && id !in visiting
    ensures |all - (visiting + {id})| < |all - visiting|
  {
    assert all - (visiting + {id}) == all - visiting - {id};
  }

  lemma UnknownMissing(parents: Parents, id: Id)
    requires id !in parents
    ensures Tells(parents, id, Info(0, Some(PARENT_MISSING)))
  {
    assert EndsMissing(parents, id, 0);
  }

  lemma KnownEnds(parents: Parents, id: Id)
    requires id in parents
    ensures parents[id] == None ==> Tells(parents, id, Info(0, None))
    ensures parents[id].Some? && parents[id].value !in parents ==> Tells(parents, id, Info(0, Some(PARENT_MISSING)))
  {
    assert Up(parents, id, 0) == Some(id);
    if parents[id].Some? && parents[id].value !in parents { assert EndsMissing(parents, id, 0); }
  }
}
