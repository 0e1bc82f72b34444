/** Finite dependency graphs: reachability along dependencies, and the minimal
    elements of a set of nodes. `d in At(g, n)` says that n depends on d. */
module Dag {

  type Id = nat
  type Edges = map<Id, set<Id>>

  function At(m: map<Id, set<Id>>, k: Id): set<Id> {
    if k in m then m[k] else {}
  }

  /** p runs from a cause to a consequence: each node depends on the one before it. */
  ghost predicate IsPath(g: Edges, p: seq<Id>) {
    |p| > 0 && forall i :: 0 < i < |p| ==> p[i - 1] in At(g, p[i])
  }

  /** a is a proper ancestor (transitive dependency) of b. */
  ghost predicate Reach(g: Edges, a: Id, b: Id) {
    exists p :: IsPath(g, p) && |p| >= 2 && p[0] == a && p[|p| - 1] == b
  }

  ghost predicate Below(g: Edges, a: Id, b: Id) {
    a == b || Reach(g, a, b)
  }

  ghost predicate Acyclic(g: Edges) {
    forall a :: !Reach(g, a, a)
  }

  /** Every dependency is itself a node. */
  ghost predicate Closed(g: Edges) {
    forall n, d :: n in g && d in g[n] ==> d in g
  }

  /** rev is the exact inverse of g. */
  ghost predicate Inverse(g: Edges, rev: Edges) {
    forall a, b :: b in At(rev, a) <==> a in At(g, b)
  }

  lemma EdgeReaches(g: Edges, a: Id, b: Id)
    requires a in At(g, b)
    ensures Reach(g, a, b)
  {
    assert IsPath(g, [a, b]);
  }

  lemma ReachTransitive(g: Edges, a: Id, b: Id, c: Id)
    requires Reach(g, a, b) && Reach(g, b, c)
    ensures Reach(g, a, c)
  {
    var p :| IsPath(g, p) && |p| >= 2 && p[0] == a && p[|p| - 1] == b;
    var q :| IsPath(g, q) && |q| >= 2 && q[0] == b && q[|q| - 1] == c;
    var r := p + q[1..];
    forall i | 0 < i < |r|
      ensures r[i - 1] in At(g, r[i])
    {
      if i >= |p| {
        assert r[i] == q[i - |p| + 1];
        assert r[i - 1] == q[i - |p|];
      }
    }
    assert IsPath(g, r);
  }

  lemma BelowTransitive(g: Edges, a: Id, b: Id, c: Id)
    requires Below(g, a, b) && Below(g, b, c)
    ensures Below(g, a, c)
    ensures Reach(g, a, b) || Reach(g, b, c) ==> Reach(g, a, c)
  {
    if a != b && b != c {
      ReachTransitive(g, a, b, c);
    }
  }

  /** The last edge of a path: c is the direct dependency through which a reaches b. */
  lemma ReachLast(g: Edges, a: Id, b: Id) returns (c: Id)
    requires Reach(g, a, b)
    ensures c in At(g, b) && Below(g, a, c)
  {
    var p :| IsPath(g, p) && |p| >= 2 && p[0] == a && p[|p| - 1] == b;
    c := p[|p| - 2];
    if |p| > 2 {
      assert IsPath(g, p[..|p| - 1]);
    }
  }

  /** The first edge of a path: c is the direct dependent of a on the way to b. */
  lemma ReachFirst(g: Edges, a: Id, b: Id) returns (c: Id)
    requires Reach(g, a, b)
    ensures a in At(g, c) && Below(g, c, b)
  {
    var p :| IsPath(g, p) && |p| >= 2 && p[0] == a && p[|p| - 1] == b;
    c := p[1];
    if |p| > 2 {
      var q := p[1..];
      forall i | 0 < i < |q|
        ensures q[i - 1] in At(g, q[i])
      {
        assert q[i] == p[i + 1] && q[i - 1] == p[i];
      }
      assert IsPath(g, q);
    }
  }

  lemma ReachEndpoints(g: Edges, a: Id, b: Id)
    requires Closed(g) && Reach(g, a, b)
    ensures a in g && b in g
  {
    var c := ReachFirst(g, a, b);
    var d := ReachLast(g, a, b);
  }

  /** A set that contains a's dependents and is closed under dependents holds all a reaches. */
  lemma {:induction false} ClosedSetHoldsReached(g: Edges, s: set<Id>, p: seq<Id>)
    requires IsPath(g, p) && |p| >= 2
    requires forall b :: p[0] in At(g, b) ==> b in s
    requires forall x, b :: x in s && x in At(g, b) ==> b in s
    ensures p[|p| - 1] in s
    decreases |p|
  {
    if |p| > 2 {
      assert IsPath(g, p[..|p| - 1]);
      ClosedSetHoldsReached(g, s, p[..|p| - 1]);
      assert p[|p| - 2] in At(g, p[|p| - 1]);
    } else {
      assert p[0] in At(g, p[1]);
    }
  }

  lemma NotReached(g: Edges, s: set<Id>, start: Id, target: Id)
    requires target !in s
    requires forall b :: start in At(g, b) ==> b in s
    requires forall x, b :: x in s && x in At(g, b) ==> b in s
    ensures !Reach(g, start, target)
  {
    if Reach(g, start, target) {
      var p :| IsPath(g, p) && |p| >= 2 && p[0] == start && p[|p| - 1] == target;
      ClosedSetHoldsReached(g, s, p);
    }
  }

  ghost function Descendants(g: Edges, r: Id): set<Id> {
    set n | n in g && Below(g, r, n)
  }

  ghost function Minimal(g: Edges, s: set<Id>): set<Id> {
    set r | r in s && forall q :: q in s ==> !Reach(g, q, r)
  }

  ghost function Above(g: Edges, s: set<Id>, r: Id): set<Id> {
    set x | x in s && Reach(g, x, r)
  }

  /** In a finite acyclic graph every member of s lies below a minimal member. */
  lemma {:induction false} MinimalBelow(g: Edges, s: set<Id>, r: Id) returns (m: Id)
    requires Acyclic(g) && r in s
    ensures m in Minimal(g, s) && Below(g, m, r)
    decreases Above(g, s, r)
  {
    if Above(g, s, r) == {} {
      assert forall q :: q in s && Reach(g, q, r) ==> q in Above(g, s, r);
      m := r;
    } else {
      var x :| x in Above(g, s, r);
      forall y | y in Above(g, s, x)
        ensures y in Above(g, s, r)
      {
        ReachTransitive(g, y, x, r);
      }
      assert x !in Above(g, s, x);
      assert Above(g, s, x) < Above(g, s, r);
      m := MinimalBelow(g, s, x);
      BelowTransitive(g, m, x, r);
    }
  }

  /** Adding a root that an existing minimal root already covers changes nothing. */
  lemma MinimalAddCovered(g: Edges, s: set<Id>, root: Id, e: Id)
    requires Acyclic(g) && e in Minimal(g, s) && Below(g, e, root)
    ensures Minimal(g, s + {root}) == Minimal(g, s)
    ensures forall m :: m in Minimal(g, s) ==> !Reach(g, root, m)
  {
    if root == e {
      assert s + {root} == s;
    } else {
      forall m | m in Minimal(g, s)
        ensures !Reach(g, root, m)
      {
        if Reach(g, root, m) {
          ReachTransitive(g, e, root, m);
        }
      }
    }
  }

  /** Adding an uncovered root makes it minimal and evicts exactly what it reaches. */
  lemma MinimalAddNew(g: Edges, s: set<Id>, root: Id)
    requires Acyclic(g)
    requires forall e :: e in Minimal(g, s) ==> e != root && !Reach(g, e, root)
    ensures Minimal(g, s + {root}) == (set m | m in Minimal(g, s) && !Reach(g, root, m)) + {root}
  {
    forall x | x in s
      ensures !Reach(g, x, root) && x != root
    {
      if Reach(g, x, root) || x == root {
        var m := MinimalBelow(g, s, x);
        BelowTransitive(g, m, x, root);
      }
    }
  }

  lemma SizeWithin(a: set<Id>, b: set<Id>)
    requires a <= b
    ensures |a| <= |b|
  {
    if a != {} {
      var x :| x in a;
      SizeWithin(a - {x}, b - {x});
    }
  }

  /** A numbering that grows along every edge rules out cycles. */
  lemma {:induction false} RankGrows(g: Edges, s: set<Id>, rank: map<Id, nat>, p: seq<Id>)
    requires forall n :: n in s ==> n in rank
    requires forall n, d :: n in s && d in At(g, n) ==> d in s && rank[d] < rank[n]
    requires IsPath(g, p) && |p| >= 2 && p[|p| - 1] in s
    ensures p[0] in s && rank[p[0]] < rank[p[|p| - 1]]
    decreases |p|
  {
    if |p| > 2 {
      assert IsPath(g, p[..|p| - 1]);
      RankGrows(g, s, rank, p[..|p| - 1]);
    }
  }

  lemma SameReach(g: Edges, h: Edges)
    requires forall n :: At(g, n) == At(h, n)
    ensures forall a, b :: Reach(g, a, b) <==> Reach(h, a, b)
  {
    forall a, b
      ensures Reach(g, a, b) <==> Reach(h, a, b)
    {
      if Reach(g, a, b) {
        var p :| IsPath(g, p) && |p| >= 2 && p[0] == a && p[|p| - 1] == b;
        assert IsPath(h, p);
      }
      if Reach(h, a, b) {
        var p :| IsPath(h, p) && |p| >= 2 && p[0] == a && p[|p| - 1] == b;
        assert IsPath(g, p);
      }
    }
  }

  lemma SubgraphPath(g: Edges, h: Edges, p: seq<Id>)
    requires IsPath(h, p) && forall n :: At(h, n) <= At(g, n)
    ensures IsPath(g, p)
  {
  }

  lemma SubgraphReach(g: Edges, h: Edges, a: Id, b: Id)
    requires Reach(h, a, b) && forall n :: At(h, n) <= At(g, n)
    ensures Reach(g, a, b)
  {
    var p :| IsPath(h, p) && |p| >= 2 && p[0] == a && p[|p| - 1] == b;
    SubgraphPath(g, h, p);
  }

  lemma SubgraphAcyclic(g: Edges, h: Edges)
    requires Acyclic(g) && forall n :: At(h, n) <= At(g, n)
    ensures Acyclic(h)
  {
    forall a
      ensures !Reach(h, a, a)
    {
      if Reach(h, a, a) {
        SubgraphReach(g, h, a, a);
      }
    }
  }

  lemma AvoidingPath(g: Edges, h: Edges, id: Id, p: seq<Id>)
    requires IsPath(h, p) && forall n :: n != id ==> At(h, n) == At(g, n)
    requires |p| >= 2 && forall i :: 0 < i < |p| ==> p[i] != id
    ensures Reach(g, p[0], p[|p| - 1])
  {
    assert IsPath(g, p);
  }

  lemma CycleThrough(g: Edges, h: Edges, id: Id, p: seq<Id>)
    requires Acyclic(g) && forall n :: n != id ==> At(h, n) == At(g, n)
    requires IsPath(h, p) && |p| >= 2 && p[0] == p[|p| - 1]
    ensures Reach(h, id, id)
  {
    if forall i :: 0 < i < |p| ==> p[i] != id {
      AvoidingPath(g, h, id, p);
      assert false;
    }
    var i :| 0 < i < |p| && p[i] == id;
    assert IsPath(h, p[..i + 1]);
    assert Reach(h, p[0], id);
    if i < |p| - 1 {
      var q := p[i..];
      forall j | 0 < j < |q|
        ensures q[j - 1] in At(h, q[j])
      {
        assert q[j] == p[i + j] && q[j - 1] == p[i + j - 1];
      }
      assert IsPath(h, q);
      ReachTransitive(h, id, p[0], id);
    }
  }

  /** Changing one node's dependencies closes a cycle exactly when that node reaches itself. */
  lemma OnlyNewCycles(g: Edges, h: Edges, id: Id)
    requires Acyclic(g) && forall n :: n != id ==> At(h, n) == At(g, n)
    ensures Acyclic(h) <==> !Reach(h, id, id)
  {
    forall a | Reach(h, a, a)
      ensures Reach(h, id, id)
    {
      var p :| IsPath(h, p) && |p| >= 2 && p[0] == a && p[|p| - 1] == a;
      CycleThrough(g, h, id, p);
    }
  }
}
