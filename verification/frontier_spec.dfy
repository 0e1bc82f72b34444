/** What a dependency frontier is, independently of how the engine maintains it:
    the exact answer for a node, and the recursive reference that computes it naively. */
module FrontierSpec {
  import opened Dag
  import opened MemoryStatus

  type Dirty = map<Id, Status>

  function Priority(s: Status): nat {
    match s
    case FRESH => 0
    case STALE => 1
    case UNKNOWN => 2
    case INVALID => 3
  }

  function StatusMax(left: Status, right: Status): (s: Status)
    ensures s == Raised(left, right)
  {
    if Priority(left) >= Priority(right) then left else right
  }

  /** The worse of two states: INVALID is the worst, then UNKNOWN, then STALE. */
  ghost function Raised(was: Status, s: Status): Status {
    if INVALID in {was, s} then INVALID
    else if UNKNOWN in {was, s} then UNKNOWN
    else if STALE in {was, s} then STALE
    else FRESH
  }

  ghost predicate NoFresh(dirty: Dirty) {
    forall r :: r in dirty ==> dirty[r] != FRESH
  }

  /** The dirty nodes among n and its transitive dependencies, with their severities. */
  ghost function Causes(g: Edges, dirty: Dirty, n: Id): Dirty {
    map r | r in dirty && Below(g, r, n) :: dirty[r]
  }

  ghost predicate Has(causes: Dirty, s: Status) { exists r :: r in causes && causes[r] == s }

  /** INVALID if any cause is, otherwise UNKNOWN if any is, otherwise STALE if any is. */
  ghost predicate IsMaxSeverity(s: Status, causes: Dirty) {
    && (s == INVALID <==> Has(causes, INVALID))
    && (s == UNKNOWN <==> Has(causes, UNKNOWN) && !Has(causes, INVALID))
    && (s == STALE <==> Has(causes, STALE) && !Has(causes, UNKNOWN) && !Has(causes, INVALID))
  }

  /** The priorities order the states as the answers do. */
  lemma HighestPriority(s: Status, causes: Dirty)
    ensures IsMaxSeverity(s, causes) <==>
              && (forall r :: r in causes ==> Priority(causes[r]) <= Priority(s))
              && (s == FRESH || exists r :: r in causes && causes[r] == s)
  {
    assert forall t :: Has(causes, t) <==> exists r :: r in causes && causes[r] == t;
    match s
    case FRESH => assert forall r :: r in causes ==> Has(causes, causes[r]);
    case STALE => assert forall r :: r in causes ==> Has(causes, causes[r]);
    case UNKNOWN => assert forall r :: r in causes ==> Has(causes, causes[r]);
    case INVALID => assert forall r :: r in causes ==> Has(causes, causes[r]);
  }

  /** The answer a full recompute would give for n. */
  ghost predicate Exact(g: Edges, dirty: Dirty, n: Id, status: Status, frontier: set<Id>) {
    && IsMaxSeverity(status, Causes(g, dirty, n))
    && frontier == Minimal(g, Causes(g, dirty, n).Keys)
  }

  /** An exact answer is unique, so two engines that are both exact agree. */
  lemma ExactUnique(g: Edges, dirty: Dirty, n: Id, s: Status, f: set<Id>, s': Status, f': set<Id>)
    requires NoFresh(dirty)
    requires Exact(g, dirty, n, s, f) && Exact(g, dirty, n, s', f')
    ensures s == s' && f == f'
  {
    var causes := Causes(g, dirty, n);
    if s != FRESH {
      var r :| r in causes && causes[r] == s;
    }
    if s' != FRESH {
      var r :| r in causes && causes[r] == s';
    }
  }

  /** A frontier is empty exactly when nothing at or above the node is dirty. */
  lemma FrontierMeaning(g: Edges, dirty: Dirty, n: Id, status: Status, frontier: set<Id>)
    requires Acyclic(g) && NoFresh(dirty) && Exact(g, dirty, n, status, frontier)
    ensures forall r :: r in frontier <==>
                        r in dirty && Below(g, r, n) && forall q :: q in dirty ==> !Reach(g, q, r)
    ensures status == FRESH <==> frontier == {}
    ensures status == FRESH <==> forall r :: r in dirty ==> !Below(g, r, n)
  {
    var causes := Causes(g, dirty, n);
    forall r, q | r in causes && q in dirty && Reach(g, q, r)
      ensures q in causes
    {
      BelowTransitive(g, q, r, n);
    }
    if r :| r in causes {
      var m := MinimalBelow(g, causes.Keys, r);
    }
  }

  /** INVALID if an INVALID node is at or above n; else UNKNOWN if an UNKNOWN one is; STALE if there
      is a dirty one and all are STALE. */
  ghost predicate StatusTells(g: Edges, dirty: Dirty, n: Id, status: Status) {
    && (status == INVALID <==> exists r :: r in dirty && Below(g, r, n) && dirty[r] == INVALID)
    && (status == UNKNOWN <==>
          && (exists r :: r in dirty && Below(g, r, n) && dirty[r] == UNKNOWN)
          && (forall r :: r in dirty && Below(g, r, n) ==> dirty[r] != INVALID))
    && (status == STALE <==>
          && (exists r :: r in dirty && Below(g, r, n))
          && (forall r :: r in dirty && Below(g, r, n) ==> dirty[r] == STALE))
  }

  /** The status of an exact answer by the dirty nodes at or above the node. */
  lemma StatusMeaning(g: Edges, dirty: Dirty, n: Id, status: Status, frontier: set<Id>)
    requires NoFresh(dirty) && Exact(g, dirty, n, status, frontier)
    ensures StatusTells(g, dirty, n, status)
  {
    var causes := Causes(g, dirty, n);
    hide Below, Minimal;
    forall t ensures Has(causes, t) <==> exists r :: r in dirty && Below(g, r, n) && dirty[r] == t {
      if Has(causes, t) {
        var r :| r in causes && causes[r] == t;
        assert r in dirty && Below(g, r, n);
      }
      if r :| r in dirty && Below(g, r, n) && dirty[r] == t { assert r in causes; }
    }
    forall r | r in dirty && Below(g, r, n) ensures r in causes && Has(causes, dirty[r]) {}
  }

  /** Dirty nodes that do not bear on n can change without changing n's answer. */
  lemma ExactDependsOnCauses(g: Edges, dirty: Dirty, dirty': Dirty, n: Id)
    requires forall r :: Below(g, r, n) ==> (r in dirty <==> r in dirty') && (r in dirty ==> dirty[r] == dirty'[r])
    ensures forall s, f :: Exact(g, dirty, n, s, f) <==> Exact(g, dirty', n, s, f)
  {
    assert Causes(g, dirty, n) == Causes(g, dirty', n);
  }

  /** The reference's recursive collection of causal roots, over declared memories. */
  ghost function Collect(g: Edges, dirty: Dirty, id: Id, seen: set<Id>): set<Id>
    decreases g.Keys - seen
  {
    if id !in g || id in seen then {id}
    else
      var children := set c, x | c in g[id] && x in Collect(g, dirty, c, seen + {id}) :: x;
      if children != {} then children
      else if id in dirty then {id}
      else {}
  }

  lemma CausesSplit(g: Edges, dirty: Dirty, id: Id)
    requires id in g
    ensures forall r :: r in Causes(g, dirty, id) <==>
                        (r == id && id in dirty) || exists c :: c in g[id] && r in Causes(g, dirty, c)
  {
    forall r | r in Causes(g, dirty, id) && r != id
      ensures exists c :: c in g[id] && r in Causes(g, dirty, c)
    {
      var c := ReachLast(g, r, id);
      assert r in Causes(g, dirty, c);
    }
    forall c, r | c in g[id] && r in Causes(g, dirty, c)
      ensures r in Causes(g, dirty, id)
    {
      EdgeReaches(g, c, id);
      BelowTransitive(g, r, c, id);
    }
  }

  /** The minimal causes of a node are those of its dependencies, or the node itself. */
  lemma MinimalCausesSplit(g: Edges, dirty: Dirty, id: Id, children: set<Id>)
    requires Acyclic(g) && id in g
    requires children == set c, x | c in g[id] && x in Minimal(g, Causes(g, dirty, c).Keys) :: x
    ensures Minimal(g, Causes(g, dirty, id).Keys)
            == if children != {} then children else if id in dirty then {id} else {}
  {
    CausesSplit(g, dirty, id);
    var all := Causes(g, dirty, id).Keys;
    forall x | x in children
      ensures x in Minimal(g, all) && Reach(g, x, id)
    {
      var c :| c in g[id] && x in Minimal(g, Causes(g, dirty, c).Keys);
      EdgeReaches(g, c, id);
      BelowTransitive(g, x, c, id);
      forall q | q in all && Reach(g, q, x)
        ensures q in Causes(g, dirty, c)
      {
        BelowTransitive(g, q, x, c);
      }
    }
    forall x | x in Minimal(g, all) && x != id
      ensures x in children
    {
      var c :| c in g[id] && x in Causes(g, dirty, c);
      assert x in Minimal(g, Causes(g, dirty, c).Keys);
    }
    forall c, r | c in g[id] && r in Causes(g, dirty, c)
      ensures children != {}
    {
      var m := MinimalBelow(g, Causes(g, dirty, c).Keys, r);
      assert m in children;
    }
  }

  lemma {:induction false} CollectIsMinimal(g: Edges, dirty: Dirty, id: Id, seen: set<Id>)
    requires Acyclic(g) && Closed(g) && id in g
    requires forall s :: s in seen ==> Reach(g, id, s)
    ensures Collect(g, dirty, id, seen) == Minimal(g, Causes(g, dirty, id).Keys)
    decreases g.Keys - seen
  {
    assert id !in seen;
    forall c | c in g[id]
      ensures Collect(g, dirty, c, seen + {id}) == Minimal(g, Causes(g, dirty, c).Keys)
    {
      EdgeReaches(g, c, id);
      forall s | s in seen + {id}
        ensures Reach(g, c, s)
      {
        if s != id {
          ReachTransitive(g, c, id, s);
        }
      }
      CollectIsMinimal(g, dirty, c, seen + {id});
    }
    var children := set c, x | c in g[id] && x in Collect(g, dirty, c, seen + {id}) :: x;
    assert children == set c, x | c in g[id] && x in Minimal(g, Causes(g, dirty, c).Keys) :: x;
    MinimalCausesSplit(g, dirty, id, children);
  }

  /** On a declared DAG the recursive reference and the exact frontier are the same set. */
  lemma ReferenceAgrees(g: Edges, dirty: Dirty, n: Id, status: Status, frontier: set<Id>)
    requires Acyclic(g) && Closed(g) && n in g
    requires Exact(g, dirty, n, status, frontier)
    ensures Collect(g, dirty, n, {}) == frontier
  {
    CollectIsMinimal(g, dirty, n, {});
  }
}
