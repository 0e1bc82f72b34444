/** What the engine's maintained index has to satisfy, as predicates over plain values.
    A root is live when it is not a tombstone; tombstones are roots that were resolved
    but whose entries have not yet been removed from the nodes they reached. */
module FrontierIndex {
  import opened Dag
  import opened FrontierSpec
  import opened GraphCheck
  import opened MemoryStatus
  import opened Wrappers

  type RootMap = map<Id, Dirty>

  function RootsAt(roots: RootMap, n: Id): Dirty {
    if n in roots then roots[n] else map[]
  }

  function NumAt(m: map<Id, nat>, r: Id): nat {
    if r in m then m[r] else 0
  }

  ghost function Live(roots: RootMap, inactive: set<Id>, n: Id): Dirty {
    RootsAt(roots, n) - inactive
  }

  /** The nodes that carry an entry for root r. */
  ghost function Holders(roots: RootMap, r: Id): set<Id> {
    set n | n in roots && r in roots[n]
  }

  /** The entries that belong to tombstones. */
  ghost function Tombs(roots: RootMap, inactive: set<Id>): set<(Id, Id)> {
    set n, r | n in roots && r in roots[n] && r in inactive :: (n, r)
  }

  ghost predicate GraphOk(g: Edges, rev: Edges) {
    Closed(g) && Acyclic(g) && Inverse(g, rev)
  }

  ghost predicate EntryOk(g: Edges, direct: Dirty, inactive: set<Id>, n: Id, r: Id, s: Status) {
    n in g && r in g && Below(g, r, n) && (r in inactive || (r in direct && Priority(s) <= Priority(direct[r])))
  }

  /** Every entry has a cause: its root is at or above the node, and a live entry never
      claims more severity than the root's direct state. */
  ghost predicate Sound(g: Edges, direct: Dirty, roots: RootMap, inactive: set<Id>) {
    forall n, r {:trigger r in roots[n]} :: n in roots && r in roots[n] ==>
      EntryOk(g, direct, inactive, n, r, roots[n][r])
  }

  /** Live roots are indexed by exactly their holders; a tombstone keeps its full reach. */
  ghost predicate ByRootOk(g: Edges, roots: RootMap, byRoot: map<Id, set<Id>>, inactive: set<Id>) {
    && (forall r :: r in inactive ==> r in byRoot && r in g && byRoot[r] == Descendants(g, r))
    && (forall r :: r !in inactive ==> At(byRoot, r) == Holders(roots, r))
  }

  /** A node without tombstones stores the minimal antichain of its roots. */
  ghost predicate FrontierOkAt(g: Edges, roots: RootMap, frontiers: map<Id, set<Id>>, inactive: set<Id>, n: Id) {
    && (n !in roots ==> n !in frontiers)
    && (n in roots && roots[n].Keys !! inactive ==> n in frontiers && frontiers[n] == Minimal(g, roots[n].Keys))
  }

  ghost predicate FrontiersOk(g: Edges, roots: RootMap, frontiers: map<Id, set<Id>>, inactive: set<Id>, skip: set<Id>) {
    forall n :: n !in skip ==> FrontierOkAt(g, roots, frontiers, inactive, n)
  }

  ghost predicate CountsOk(roots: RootMap, inactive: set<Id>, counts: map<Id, nat>, tombCounts: map<Id, nat>,
                           tombs: nat) {
    && (forall r :: NumAt(counts, r) == |Holders(roots, r)|)
    && (forall r :: NumAt(tombCounts, r) == if r in inactive then |Holders(roots, r)| else 0)
    && tombs == |Tombs(roots, inactive)|
  }

  ghost predicate ClosuresOk(closures: map<Id, set<Id>>, byRoot: map<Id, set<Id>>) {
    forall r :: r in closures ==> closures[r] == {r} + At(byRoot, r)
  }

  /** b's live entries cover a's. */
  ghost predicate Covers(b: Dirty, a: Dirty) {
    forall r :: r in a ==> r in b && Priority(b[r]) >= Priority(a[r])
  }

  /** Every edge out of a node that is not pending has been propagated. */
  ghost predicate Propagated(g: Edges, roots: RootMap, inactive: set<Id>, pending: set<Id>) {
    forall a, b {:trigger a in At(g, b)} :: a in At(g, b) && a !in pending ==>
      Covers(Live(roots, inactive, b), Live(roots, inactive, a))
  }

  /** Every direct root that is not pending is entered, with its own severity, at its own node. */
  ghost predicate Seeded(direct: Dirty, roots: RootMap, inactive: set<Id>, pending: set<Id>) {
    forall r :: r in direct && r !in pending ==>
      r in Live(roots, inactive, r) && Live(roots, inactive, r)[r] == direct[r]
  }

  function MergeMax(a: Dirty, b: Dirty): (m: Dirty)
    ensures m.Keys == a.Keys + b.Keys
    ensures Covers(m, a) && Covers(m, b)
    ensures forall r :: r in m ==> (r in a && m[r] == a[r]) || (r in b && m[r] == b[r])
  {
    map r | r in a.Keys + b.Keys ::
      if r !in b then a[r]
      else if r !in a then b[r]
      else if Priority(a[r]) >= Priority(b[r]) then a[r] else b[r]
  }

  lemma SamePriority(a: Status, b: Status)
    requires Priority(a) == Priority(b)
    ensures a == b
  {
  }

  lemma CoversTransitive(a: Dirty, b: Dirty, c: Dirty)
    requires Covers(a, b) && Covers(b, c)
    ensures Covers(a, c)
  {
  }

  /** The engine's maintained fields, as one value. */
  datatype Index = Index(
    roots: RootMap, frontiers: map<Id, set<Id>>, byRoot: map<Id, set<Id>>, closures: map<Id, set<Id>>,
    inactive: set<Id>, counts: map<Id, nat>, tombCounts: map<Id, nat>, tombs: nat)

  /** The index is sound; the frontiers of the nodes in skip may be out of date. */
  ghost predicate IndexOk(g: Edges, direct: Dirty, x: Index, skip: set<Id>) {
    && Sound(g, direct, x.roots, x.inactive)
    && ByRootOk(g, x.roots, x.byRoot, x.inactive)
    && FrontiersOk(g, x.roots, x.frontiers, x.inactive, skip)
    && CountsOk(x.roots, x.inactive, x.counts, x.tombCounts, x.tombs)
    && ClosuresOk(x.closures, x.byRoot)
  }

  lemma SkipMore(g: Edges, direct: Dirty, x: Index, n: Id)
    requires IndexOk(g, direct, x, {})
    ensures IndexOk(g, direct, x, {n})
  {
  }

  // ---- removing one tombstoned entry ------------------------------------------------

  lemma DropEntryHolders(roots: RootMap, n: Id, r: Id, roots': RootMap, inactive: set<Id>)
    requires n in roots && r in roots[n] && r in inactive
    requires roots' == roots[n := roots[n] - {r}]
    ensures Holders(roots', r) == Holders(roots, r) - {n}
    ensures |Holders(roots', r)| == |Holders(roots, r)| - 1
    ensures forall q :: q != r ==> Holders(roots', q) == Holders(roots, q)
    ensures Tombs(roots', inactive) == Tombs(roots, inactive) - {(n, r)}
    ensures |Tombs(roots', inactive)| == |Tombs(roots, inactive)| - 1
  {
    assert n in Holders(roots, r);
    assert (n, r) in Tombs(roots, inactive);
    forall q | q != r
      ensures Holders(roots', q) == Holders(roots, q)
    {
    }
  }

  function Less(k: nat): nat {
    if k > 0 then k - 1 else 0
  }

  function DropEntry(x: Index, n: Id, r: Id): Index
    requires n in x.roots
  {
    x.(roots := x.roots[n := x.roots[n] - {r}],
       counts := x.counts[r := Less(NumAt(x.counts, r))],
       tombCounts := x.tombCounts[r := Less(NumAt(x.tombCounts, r))],
       tombs := Less(x.tombs))
  }

  function ForgetRoot(x: Index, r: Id): Index {
    x.(counts := x.counts - {r}, tombCounts := x.tombCounts - {r}, byRoot := x.byRoot - {r},
       closures := x.closures - {r}, inactive := x.inactive - {r})
  }

  /** Physically remove one tombstoned entry; forget the root with its last entry. */
  function DropTombstone(x: Index, n: Id, r: Id): Index
    requires n in x.roots
  {
    var y := DropEntry(x, n, r);
    if y.counts[r] == 0 && y.tombCounts[r] == 0 then ForgetRoot(y, r) else y
  }

  lemma DropEntrySound(g: Edges, direct: Dirty, x: Index, n: Id, r: Id)
    requires n in x.roots && Sound(g, direct, x.roots, x.inactive)
    ensures Sound(g, direct, DropEntry(x, n, r).roots, x.inactive)
  {
  }

  lemma DropEntryByRoot(g: Edges, x: Index, n: Id, r: Id)
    requires n in x.roots && r in x.roots[n] && r in x.inactive
    requires ByRootOk(g, x.roots, x.byRoot, x.inactive)
    ensures ByRootOk(g, DropEntry(x, n, r).roots, x.byRoot, x.inactive)
  {
    DropEntryHolders(x.roots, n, r, DropEntry(x, n, r).roots, x.inactive);
  }

  lemma DropEntryFrontiers(g: Edges, x: Index, n: Id, r: Id)
    requires n in x.roots && FrontiersOk(g, x.roots, x.frontiers, x.inactive, {n})
    ensures FrontiersOk(g, DropEntry(x, n, r).roots, x.frontiers, x.inactive, {n})
  {
    forall m | m != n
      ensures FrontierOkAt(g, DropEntry(x, n, r).roots, x.frontiers, x.inactive, m)
    {
      assert FrontierOkAt(g, x.roots, x.frontiers, x.inactive, m);
    }
  }

  lemma DropEntryCounts(x: Index, n: Id, r: Id)
    requires n in x.roots && r in x.roots[n] && r in x.inactive
    requires CountsOk(x.roots, x.inactive, x.counts, x.tombCounts, x.tombs)
    ensures var y := DropEntry(x, n, r); CountsOk(y.roots, y.inactive, y.counts, y.tombCounts, y.tombs)
  {
    DropEntryHolders(x.roots, n, r, DropEntry(x, n, r).roots, x.inactive);
  }

  lemma DropEntryOk(g: Edges, direct: Dirty, x: Index, n: Id, r: Id)
    requires n in x.roots && r in x.roots[n] && r in x.inactive
    requires IndexOk(g, direct, x, {n})
    ensures IndexOk(g, direct, DropEntry(x, n, r), {n})
  {
    DropEntrySound(g, direct, x, n, r);
    DropEntryByRoot(g, x, n, r);
    DropEntryFrontiers(g, x, n, r);
    DropEntryCounts(x, n, r);
  }

  /** A tombstone without entries can be forgotten: the remaining tombstone entries are the same. */
  lemma ForgottenTombstone(roots: RootMap, inactive: set<Id>, r: Id)
    requires Holders(roots, r) == {}
    ensures Tombs(roots, inactive - {r}) == Tombs(roots, inactive)
    ensures forall n :: Live(roots, inactive - {r}, n) == Live(roots, inactive, n)
    ensures forall n :: r !in RootsAt(roots, n)
  {
    forall n
      ensures r !in RootsAt(roots, n)
    {
      assert n !in Holders(roots, r);
    }
    forall n, q | n in roots && q in roots[n] && q in inactive
      ensures q != r
    {
      assert r !in RootsAt(roots, n);
    }
  }

  lemma ForgetRootSound(g: Edges, direct: Dirty, x: Index, r: Id)
    requires Sound(g, direct, x.roots, x.inactive) && Holders(x.roots, r) == {}
    ensures Sound(g, direct, x.roots, x.inactive - {r})
  {
    ForgottenTombstone(x.roots, x.inactive, r);
    forall n, q | n in x.roots && q in x.roots[n]
      ensures q != r
    {
      assert r !in RootsAt(x.roots, n);
    }
  }

  lemma ForgetRootByRoot(g: Edges, x: Index, r: Id)
    requires ByRootOk(g, x.roots, x.byRoot, x.inactive) && Holders(x.roots, r) == {}
    ensures ByRootOk(g, x.roots, x.byRoot - {r}, x.inactive - {r})
  {
  }

  lemma ForgetRootFrontiers(g: Edges, x: Index, r: Id, skip: set<Id>)
    requires FrontiersOk(g, x.roots, x.frontiers, x.inactive, skip) && Holders(x.roots, r) == {}
    ensures FrontiersOk(g, x.roots, x.frontiers, x.inactive - {r}, skip)
  {
    ForgottenTombstone(x.roots, x.inactive, r);
    forall m | m !in skip
      ensures FrontierOkAt(g, x.roots, x.frontiers, x.inactive - {r}, m)
    {
      assert FrontierOkAt(g, x.roots, x.frontiers, x.inactive, m);
      assert r !in RootsAt(x.roots, m);
    }
  }

  lemma ForgetRootCounts(x: Index, r: Id)
    requires CountsOk(x.roots, x.inactive, x.counts, x.tombCounts, x.tombs) && Holders(x.roots, r) == {}
    ensures CountsOk(x.roots, x.inactive - {r}, x.counts - {r}, x.tombCounts - {r}, x.tombs)
  {
    ForgottenTombstone(x.roots, x.inactive, r);
  }

  lemma ForgetRootOk(g: Edges, direct: Dirty, x: Index, r: Id, skip: set<Id>)
    requires IndexOk(g, direct, x, skip) && Holders(x.roots, r) == {}
    ensures IndexOk(g, direct, ForgetRoot(x, r), skip)
  {
    ForgetRootSound(g, direct, x, r);
    ForgetRootByRoot(g, x, r);
    ForgetRootFrontiers(g, x, r, skip);
    ForgetRootCounts(x, r);
  }

  lemma DropTombstoneOk(g: Edges, direct: Dirty, x: Index, n: Id, r: Id)
    requires n in x.roots && r in x.roots[n] && r in x.inactive
    requires IndexOk(g, direct, x, {n})
    ensures IndexOk(g, direct, DropTombstone(x, n, r), {n})
    ensures r !in DropTombstone(x, n, r).inactive ==> Holders(DropTombstone(x, n, r).roots, r) == {}
  {
    var y := DropEntry(x, n, r);
    DropEntryOk(g, direct, x, n, r);
    if y.counts[r] == 0 && y.tombCounts[r] == 0 {
      assert NumAt(y.counts, r) == 0;
      ForgetRootOk(g, direct, y, r, {n});
    }
  }

  /** y is x with the tombstoned entries of n that belong to gone removed; tombstones that
      y no longer lists have no entries left anywhere. */
  ghost predicate Pruned(x: Index, y: Index, n: Id, gone: set<Id>)
    requires n in x.roots
  {
    && n in y.roots && y.roots == x.roots[n := y.roots[n]]
    && y.roots[n] == x.roots[n] - gone
    && y.inactive <= x.inactive
    && (forall r :: r in x.inactive && r !in y.inactive ==> Holders(y.roots, r) == {})
    && y.frontiers == x.frontiers
  }

  lemma PrunedStart(x: Index, n: Id, gone: set<Id>)
    requires n in x.roots && x.roots[n].Keys !! gone
    ensures Pruned(x, x, n, gone)
  {
    assert x.roots[n] - gone == x.roots[n];
  }

  lemma PrunedHolds(x: Index, y: Index, n: Id, gone: set<Id>)
    requires n in x.roots && Pruned(x, y, n, gone)
    ensures n in y.roots && y.inactive <= x.inactive
  {
  }

  lemma PrunedKeeps(x: Index, y: Index, n: Id, gone: set<Id>, r: Id)
    requires n in x.roots && Pruned(x, y, n, gone) && r in x.roots[n] && r !in gone
    ensures r in y.roots[n] && (r in y.inactive <==> r in x.inactive)
  {
    assert n in Holders(y.roots, r);
  }

  lemma DropTombstonePrunes(x: Index, y: Index, n: Id, gone: set<Id>, r: Id)
    requires n in x.roots && Pruned(x, y, n, gone) && r in y.roots[n]
    requires r !in DropTombstone(y, n, r).inactive ==> Holders(DropTombstone(y, n, r).roots, r) == {}
    ensures Pruned(x, DropTombstone(y, n, r), n, gone + {r})
  {
    var z := DropTombstone(y, n, r);
    forall q | q in x.inactive && q !in z.inactive
      ensures Holders(z.roots, q) == {}
    {
      if q != r {
        assert Holders(y.roots, q) == {};
        forall m | m in Holders(z.roots, q)
          ensures m in Holders(y.roots, q)
        {
        }
      }
    }
  }

  /** y is x with n's tombstoned entries gone: nothing else about live entries changes. */
  ghost predicate Compacted(x: Index, y: Index, n: Id) {
    && RootsAt(y.roots, n) == RootsAt(x.roots, n) - x.inactive
    && y.roots - {n} == x.roots - {n}
    && y.inactive <= x.inactive
    && (forall r :: r in x.inactive && r !in y.inactive ==> Holders(y.roots, r) == {})
  }

  // ---- closing a compaction -----------------------------------------------------------

  function DropNode(x: Index, n: Id): Index {
    x.(roots := x.roots - {n}, frontiers := x.frontiers - {n})
  }

  lemma DropNodeHolders(roots: RootMap, n: Id, inactive: set<Id>)
    requires n in roots && roots[n] == map[]
    ensures forall r :: Holders(roots - {n}, r) == Holders(roots, r)
    ensures Tombs(roots - {n}, inactive) == Tombs(roots, inactive)
  {
  }

  lemma DropNodeFrontiers(g: Edges, x: Index, n: Id)
    requires FrontiersOk(g, x.roots, x.frontiers, x.inactive, {n})
    ensures FrontiersOk(g, x.roots - {n}, x.frontiers - {n}, x.inactive, {})
  {
    forall m
      ensures FrontierOkAt(g, x.roots - {n}, x.frontiers - {n}, x.inactive, m)
    {
      assert m != n ==> FrontierOkAt(g, x.roots, x.frontiers, x.inactive, m);
    }
  }

  lemma DropNodeByRoot(g: Edges, x: Index, n: Id)
    requires n in x.roots && x.roots[n] == map[] && ByRootOk(g, x.roots, x.byRoot, x.inactive)
    ensures ByRootOk(g, x.roots - {n}, x.byRoot, x.inactive)
  {
    DropNodeHolders(x.roots, n, x.inactive);
  }

  lemma DropNodeCounts(x: Index, n: Id)
    requires n in x.roots && x.roots[n] == map[]
    requires CountsOk(x.roots, x.inactive, x.counts, x.tombCounts, x.tombs)
    ensures CountsOk(x.roots - {n}, x.inactive, x.counts, x.tombCounts, x.tombs)
  {
    DropNodeHolders(x.roots, n, x.inactive);
  }

  lemma DropNodeSound(g: Edges, direct: Dirty, x: Index, n: Id)
    requires Sound(g, direct, x.roots, x.inactive)
    ensures Sound(g, direct, x.roots - {n}, x.inactive)
  {
  }

  lemma DropNodeOk(g: Edges, direct: Dirty, x: Index, n: Id)
    requires n in x.roots && x.roots[n] == map[]
    requires IndexOk(g, direct, x, {n})
    ensures IndexOk(g, direct, DropNode(x, n), {})
  {
    DropNodeSound(g, direct, x, n);
    DropNodeFrontiers(g, x, n);
    DropNodeByRoot(g, x, n);
    DropNodeCounts(x, n);
  }

  function SetFrontier(x: Index, n: Id, frontier: set<Id>): Index {
    x.(frontiers := x.frontiers[n := frontier])
  }

  lemma SetFrontierOk(g: Edges, direct: Dirty, x: Index, n: Id, frontier: set<Id>)
    requires IndexOk(g, direct, x, {n})
    requires n in x.roots && frontier == Minimal(g, x.roots[n].Keys)
    ensures IndexOk(g, direct, SetFrontier(x, n, frontier), {})
  {
    var y := SetFrontier(x, n, frontier);
    forall m
      ensures FrontierOkAt(g, y.roots, y.frontiers, y.inactive, m)
    {
      assert m != n ==> FrontierOkAt(g, x.roots, x.frontiers, x.inactive, m);
    }
  }

  // ---- adding one live entry --------------------------------------------------------

  function PutEntry(x: Index, n: Id, r: Id, s: Status): Index {
    x.(roots := x.roots[n := RootsAt(x.roots, n)[r := s]],
       byRoot := x.byRoot[r := At(x.byRoot, r) + {n}],
       closures := if n in At(x.byRoot, r) then x.closures else x.closures - {r},
       counts := if r in RootsAt(x.roots, n) then x.counts else x.counts[r := NumAt(x.counts, r) + 1])
  }

  lemma PutEntrySelf(roots: RootMap, n: Id, r: Id, s: Status)
    ensures Holders(roots[n := RootsAt(roots, n)[r := s]], r) == Holders(roots, r) + {n}
    ensures |Holders(roots, r) + {n}| == |Holders(roots, r)| + if r in RootsAt(roots, n) then 0 else 1
  {
    var before := Holders(roots, r);
    if n in before {
      assert before + {n} == before;
    }
  }

  lemma PutEntryOther(roots: RootMap, n: Id, r: Id, s: Status, q: Id)
    requires q != r
    ensures Holders(roots[n := RootsAt(roots, n)[r := s]], q) == Holders(roots, q)
  {
  }

  lemma PutEntryTombs(roots: RootMap, n: Id, r: Id, s: Status, roots': RootMap, inactive: set<Id>)
    requires roots' == roots[n := RootsAt(roots, n)[r := s]] && r !in inactive
    ensures Tombs(roots', inactive) == Tombs(roots, inactive)
  {
  }

  lemma PutEntrySound(g: Edges, direct: Dirty, x: Index, n: Id, r: Id, s: Status)
    requires Sound(g, direct, x.roots, x.inactive)
    requires r in direct && Priority(s) <= Priority(direct[r])
    requires n in g && r in g && Below(g, r, n)
    ensures Sound(g, direct, PutEntry(x, n, r, s).roots, x.inactive)
  {
  }

  lemma PutEntryByRoot(g: Edges, x: Index, n: Id, r: Id, s: Status)
    requires ByRootOk(g, x.roots, x.byRoot, x.inactive) && r !in x.inactive
    ensures var y := PutEntry(x, n, r, s); ByRootOk(g, y.roots, y.byRoot, x.inactive)
  {
    var y := PutEntry(x, n, r, s);
    forall q | q !in x.inactive
      ensures At(y.byRoot, q) == Holders(y.roots, q)
    {
      if q == r {
        PutEntrySelf(x.roots, n, r, s);
      } else {
        PutEntryOther(x.roots, n, r, s, q);
      }
    }
  }

  lemma PutEntryFrontiers(g: Edges, x: Index, n: Id, r: Id, s: Status)
    requires FrontiersOk(g, x.roots, x.frontiers, x.inactive, {n})
    ensures FrontiersOk(g, PutEntry(x, n, r, s).roots, x.frontiers, x.inactive, {n})
  {
    forall m | m != n
      ensures FrontierOkAt(g, PutEntry(x, n, r, s).roots, x.frontiers, x.inactive, m)
    {
      assert FrontierOkAt(g, x.roots, x.frontiers, x.inactive, m);
    }
  }

  lemma PutEntryCounts(x: Index, n: Id, r: Id, s: Status)
    requires CountsOk(x.roots, x.inactive, x.counts, x.tombCounts, x.tombs) && r !in x.inactive
    ensures var y := PutEntry(x, n, r, s); CountsOk(y.roots, y.inactive, y.counts, y.tombCounts, y.tombs)
  {
    var y := PutEntry(x, n, r, s);
    PutEntryTombs(x.roots, n, r, s, y.roots, x.inactive);
    PutEntrySelf(x.roots, n, r, s);
    forall q
      ensures NumAt(y.counts, q) == |Holders(y.roots, q)|
      ensures NumAt(y.tombCounts, q) == if q in y.inactive then |Holders(y.roots, q)| else 0
    {
      if q != r {
        PutEntryOther(x.roots, n, r, s, q);
      }
    }
  }

  lemma PutEntryClosures(x: Index, n: Id, r: Id, s: Status)
    requires ClosuresOk(x.closures, x.byRoot)
    ensures var y := PutEntry(x, n, r, s); ClosuresOk(y.closures, y.byRoot)
  {
  }

  lemma PutEntryOk(g: Edges, direct: Dirty, x: Index, n: Id, r: Id, s: Status)
    requires IndexOk(g, direct, x, {n})
    requires r !in x.inactive && r in direct && Priority(s) <= Priority(direct[r])
    requires n in g && r in g && Below(g, r, n)
    ensures IndexOk(g, direct, PutEntry(x, n, r, s), {n})
    ensures PutEntry(x, n, r, s).inactive == x.inactive
  {
    PutEntrySound(g, direct, x, n, r, s);
    PutEntryByRoot(g, x, n, r, s);
    PutEntryFrontiers(g, x, n, r, s);
    PutEntryCounts(x, n, r, s);
    PutEntryClosures(x, n, r, s);
  }

  /** Every live root of incoming may be entered at n. */
  ghost predicate Enterable(g: Edges, direct: Dirty, inactive: set<Id>, n: Id, incoming: Dirty) {
    n in g && forall r :: r in incoming && r !in inactive ==>
      r in g && r in direct && Priority(incoming[r]) <= Priority(direct[r]) && Below(g, r, n)
  }

  lemma EnterableAt(g: Edges, direct: Dirty, inactive: set<Id>, n: Id, incoming: Dirty, r: Id)
    requires Enterable(g, direct, inactive, n, incoming) && r in incoming && r !in inactive
    ensures n in g && r in g && r in direct && Priority(incoming[r]) <= Priority(direct[r]) && Below(g, r, n)
  {
  }

  /** y is x with the live part of incoming merged into n; frontiers and tombstones are the same. */
  ghost predicate MergedAt(x: Index, y: Index, n: Id, incoming: Dirty) {
    && RootsAt(y.roots, n) == MergeMax(RootsAt(x.roots, n), incoming - x.inactive)
    && y.roots - {n} == x.roots - {n}
    && y.inactive == x.inactive && y.frontiers == x.frontiers
  }

  lemma MergedStart(x: Index, n: Id, incoming: Dirty)
    ensures MergedAt(x, x, n, incoming - incoming.Keys)
  {
    assert incoming - incoming.Keys - x.inactive == map[];
  }

  lemma MergeOne(a: Dirty, b: Dirty, r: Id, s: Status)
    requires r !in b
    ensures var m := MergeMax(a, b);
            MergeMax(a, b[r := s]) == if r in m && Priority(m[r]) >= Priority(s) then m else m[r := s]
  {
  }

  lemma RestOfIncoming(incoming: Dirty, todo: set<Id>, inactive: set<Id>, r: Id)
    requires r in todo && r in incoming
    ensures incoming - (todo - {r}) - inactive
            == if r in inactive then incoming - todo - inactive else (incoming - todo - inactive)[r := incoming[r]]
  {
    if r in inactive {
      assert incoming - (todo - {r}) - inactive == incoming - todo - inactive;
    } else {
      assert incoming - (todo - {r}) - inactive == (incoming - todo - inactive)[r := incoming[r]];
    }
  }

  lemma MergedSkip(x: Index, y: Index, n: Id, incoming: Dirty, rest: Dirty)
    requires MergedAt(x, y, n, incoming)
    requires MergeMax(RootsAt(x.roots, n), rest - x.inactive) == MergeMax(RootsAt(x.roots, n), incoming - x.inactive)
    ensures MergedAt(x, y, n, rest)
  {
  }

  lemma MergedPut(x: Index, y: Index, n: Id, incoming: Dirty, rest: Dirty, r: Id, s: Status)
    requires MergedAt(x, y, n, incoming)
    requires MergeMax(RootsAt(x.roots, n), rest - x.inactive) ==
               MergeMax(RootsAt(x.roots, n), incoming - x.inactive)[r := s]
    ensures MergedAt(x, PutEntry(y, n, r, s), n, rest)
  {
    hide MergeMax;
    var z := PutEntry(y, n, r, s);
    assert z.roots - {n} == y.roots - {n};
  }

  lemma MergedStep(x: Index, y: Index, n: Id, incoming: Dirty, todo: set<Id>, r: Id)
    requires MergedAt(x, y, n, incoming - todo) && r in todo && r in incoming
    ensures var m := RootsAt(y.roots, n);
            if r in x.inactive || (r in m && Priority(m[r]) >= Priority(incoming[r]))
            then MergedAt(x, y, n, incoming - (todo - {r}))
            else MergedAt(x, PutEntry(y, n, r, incoming[r]), n, incoming - (todo - {r}))
                 && RootsAt(PutEntry(y, n, r, incoming[r]).roots, n) != RootsAt(x.roots, n)
  {
    RestOfIncoming(incoming, todo, x.inactive, r);
    var m := RootsAt(y.roots, n);
    if r in x.inactive {
      MergedSkip(x, y, n, incoming - todo, incoming - (todo - {r}));
    } else {
      MergeOne(RootsAt(x.roots, n), incoming - todo - x.inactive, r, incoming[r]);
      if r in m && Priority(m[r]) >= Priority(incoming[r]) {
        MergedSkip(x, y, n, incoming - todo, incoming - (todo - {r}));
      } else {
        MergedPut(x, y, n, incoming - todo, incoming - (todo - {r}), r, incoming[r]);
        assert Covers(m, RootsAt(x.roots, n));
        assert RootsAt(PutEntry(y, n, r, incoming[r]).roots, n) == m[r := incoming[r]];
      }
    }
  }

  /** A tombstone among the incoming roots still has an entry at some other node. */
  ghost predicate HeldElsewhere(roots: RootMap, inactive: set<Id>, n: Id, incoming: Dirty) {
    forall r :: r in incoming && r in inactive ==> exists m :: m != n && m in Holders(roots, r)
  }

  /** y is x with n compacted and the live part of incoming merged into it. */
  ghost predicate Merged(x: Index, y: Index, n: Id, incoming: Dirty) {
    && RootsAt(y.roots, n) == MergeMax(Live(x.roots, x.inactive, n), incoming - x.inactive)
    && y.roots - {n} == x.roots - {n}
    && y.inactive <= x.inactive
    && (forall r :: r in x.inactive && r !in y.inactive ==> Holders(y.roots, r) == {})
  }

  lemma FrontierOf(g: Edges, direct: Dirty, x: Index, n: Id)
    requires IndexOk(g, direct, x, {}) && RootsAt(x.roots, n).Keys !! x.inactive
    ensures At(x.frontiers, n) == Minimal(g, RootsAt(x.roots, n).Keys)
  {
    assert FrontierOkAt(g, x.roots, x.frontiers, x.inactive, n);
  }

  lemma CompactedTrivially(x: Index, n: Id)
    requires RootsAt(x.roots, n).Keys * x.inactive == {}
    ensures Compacted(x, x, n)
  {
    forall r | r in RootsAt(x.roots, n)
      ensures r !in x.inactive
    {
      assert r !in RootsAt(x.roots, n).Keys * x.inactive;
    }
    assert RootsAt(x.roots, n) - x.inactive == RootsAt(x.roots, n);
  }

  lemma PrunedCompacts(x: Index, y: Index, n: Id)
    requires n in x.roots && Pruned(x, y, n, x.inactive)
    ensures n in y.roots
    ensures y.roots[n] == map[] ==> Compacted(x, DropNode(y, n), n)
    ensures forall f: set<Id> :: Compacted(x, SetFrontier(y, n, f), n)
    ensures y.roots[n].Keys - y.inactive == y.roots[n].Keys
  {
    forall r | r in x.inactive && r !in y.inactive
      ensures Holders(y.roots - {n}, r) == {}
    {
      assert Holders(y.roots, r) == {};
      assert Holders(y.roots - {n}, r) <= Holders(y.roots, r);
    }
  }

  lemma CompactedHolders(x: Index, y: Index, n: Id, r: Id, m: Id)
    requires Compacted(x, y, n) && m != n && m in Holders(x.roots, r)
    ensures m in Holders(y.roots, r)
  {
    assert m in x.roots - {n};
  }

  /** After compacting n the incoming roots are still enterable, and live ones stay live. */
  lemma CompactedStart(x: Index, y: Index, n: Id, incoming: Dirty, g: Edges, direct: Dirty)
    requires Compacted(x, y, n)
    requires Enterable(g, direct, x.inactive, n, incoming) && HeldElsewhere(x.roots, x.inactive, n, incoming)
    ensures incoming - y.inactive == incoming - x.inactive
    ensures Enterable(g, direct, y.inactive, n, incoming)
    ensures RootsAt(y.roots, n).Keys !! y.inactive
    ensures RootsAt(y.roots, n) == Live(x.roots, x.inactive, n)
  {
    forall r | r in incoming && r in x.inactive
      ensures r in y.inactive
    {
      var m :| m != n && m in Holders(x.roots, r);
      CompactedHolders(x, y, n, r, m);
    }
  }

  lemma MergedHolders(y: Index, z: Index, n: Id, incoming: Dirty, r: Id)
    requires MergedAt(y, z, n, incoming) && r !in incoming - y.inactive
    ensures Holders(z.roots, r) <= Holders(y.roots, r)
  {
    forall m | m in Holders(z.roots, r)
      ensures m in Holders(y.roots, r)
    {
      assert m != n ==> m in z.roots - {n};
    }
  }

  lemma MergedFrom(x: Index, y: Index, z: Index, n: Id, incoming: Dirty)
    requires Compacted(x, y, n) && MergedAt(y, z, n, incoming)
    requires incoming - y.inactive == incoming - x.inactive
    requires RootsAt(y.roots, n).Keys !! y.inactive
    ensures Merged(x, z, n, incoming)
    ensures z.frontiers == y.frontiers && z.inactive == y.inactive
    ensures RootsAt(z.roots, n).Keys == RootsAt(y.roots, n).Keys + (incoming.Keys - z.inactive)
    ensures RootsAt(z.roots, n).Keys - z.inactive == RootsAt(z.roots, n).Keys
    ensures RootsAt(z.roots, n).Keys + (incoming.Keys - z.inactive) == RootsAt(z.roots, n).Keys
    ensures RootsAt(z.roots, n) != RootsAt(y.roots, n) ==> n in z.roots
  {
    forall r | r in x.inactive && r !in z.inactive
      ensures Holders(z.roots, r) == {}
    {
      assert Holders(y.roots, r) == {};
      assert r !in incoming - y.inactive;
      MergedHolders(y, z, n, incoming, r);
    }
  }

  lemma MergedFrontier(x: Index, z: Index, n: Id, incoming: Dirty)
    requires Merged(x, z, n, incoming)
    ensures forall f: set<Id> :: Merged(x, SetFrontier(z, n, f), n, incoming)
    ensures forall f: set<Id> :: SetFrontier(z, n, f).roots == z.roots
  {
  }

  // ---- resolving and reactivating a root ---------------------------------------------

  lemma PairCount(s: set<Id>, r: Id, pairs: set<(Id, Id)>)
    requires pairs == set n | n in s :: (n, r)
    ensures |pairs| == |s|
  {
    if s != {} {
      var n :| n in s;
      var rest := set m | m in s - {n} :: (m, r);
      PairCount(s - {n}, r, rest);
      assert pairs == rest + {(n, r)};
    }
  }

  lemma TombstonePairs(roots: RootMap, inactive: set<Id>, r: Id) returns (pairs: set<(Id, Id)>)
    requires r !in inactive
    ensures pairs == set n | n in Holders(roots, r) :: (n, r)
    ensures Tombs(roots, inactive + {r}) == Tombs(roots, inactive) + pairs
    ensures Tombs(roots, inactive) !! pairs
  {
    pairs := set n | n in Holders(roots, r) :: (n, r);
    forall n | n in Holders(roots, r)
      ensures (n, r) in Tombs(roots, inactive + {r})
    {
    }
  }

  /** Resolving a root turns all its entries into tombstone entries; reactivation undoes that. */
  lemma TombstoneRoot(roots: RootMap, inactive: set<Id>, r: Id)
    requires r !in inactive
    ensures |Tombs(roots, inactive + {r})| == |Tombs(roots, inactive)| + |Holders(roots, r)|
  {
    var pairs := TombstonePairs(roots, inactive, r);
    PairCount(Holders(roots, r), r, pairs);
  }

  lemma HoldersDescend(g: Edges, direct: Dirty, roots: RootMap, inactive: set<Id>, r: Id)
    requires Sound(g, direct, roots, inactive)
    ensures Holders(roots, r) <= Descendants(g, r)
  {
    forall n | n in Holders(roots, r)
      ensures n in Descendants(g, r)
    {
      assert n in roots && r in roots[n];
      assert n in g;
      assert r in g;
      assert Below(g, r, n);
    }
  }

  /** x's root map with root entered, at the given severity, at every node of visited. */
  ghost function ReEntered(roots: RootMap, visited: set<Id>, root: Id, status: Status): RootMap {
    map m | m in roots.Keys + visited :: if m in visited then RootsAt(roots, m)[root := status] else roots[m]
  }

  lemma ReEnterOne(roots: RootMap, visited: set<Id>, root: Id, status: Status, m: Id)
    ensures var y := ReEntered(roots, visited, root, status);
            ReEntered(roots, visited + {m}, root, status) == y[m := RootsAt(y, m)[root := status]]
  {
    var y := ReEntered(roots, visited, root, status);
    var z, w := ReEntered(roots, visited + {m}, root, status), y[m := RootsAt(y, m)[root := status]];
    assert z.Keys == w.Keys;
    forall k | k in z
      ensures z[k] == w[k]
    {
      if k == m {
        assert RootsAt(y, m)[root := status] == RootsAt(roots, m)[root := status];
      }
    }
  }

  lemma ReEnteredAt(roots: RootMap, visited: set<Id>, root: Id, status: Status, n: Id)
    ensures RootsAt(ReEntered(roots, visited, root, status), n)
            == if n in visited then RootsAt(roots, n)[root := status] else RootsAt(roots, n)
  {
  }

  /** y is x with the tombstone root taken back and re-entered at the visited nodes. */
  ghost predicate Reactivating(g: Edges, x: Index, y: Index, root: Id, status: Status, visited: set<Id>) {
    && y.roots == ReEntered(x.roots, visited, root, status)
    && y.inactive == x.inactive - {root}
    && y.byRoot == x.byRoot && y.closures == x.closures
    && y.tombCounts == x.tombCounts - {root}
    && y.tombs == |Tombs(x.roots, x.inactive - {root})|
    && (forall q :: NumAt(y.counts, q) == |Holders(y.roots, q)|)
    && (forall m ::
          m !in visited ==>
            (m in y.frontiers <==> m in x.frontiers) && (m in x.frontiers ==> y.frontiers[m] == x.frontiers[m]))
    && (forall m ::
          m in visited ==> m in y.frontiers && y.frontiers[m] == Minimal(g, RootsAt(y.roots, m).Keys - y.inactive))
  }

  function TakeBack(x: Index, root: Id): Index {
    x.(tombs := if x.tombs >= NumAt(x.tombCounts, root) then x.tombs - NumAt(x.tombCounts, root) else 0,
       tombCounts := x.tombCounts - {root},
       inactive := x.inactive - {root})
  }

  lemma TombstoneIndexed(g: Edges, direct: Dirty, x: Index, root: Id)
    requires IndexOk(g, direct, x, {}) && root in x.inactive
    ensures root in x.byRoot && x.byRoot[root] == Descendants(g, root)
  {
  }

  lemma ReEnterInactive(y: Index, m: Id, root: Id, status: Status, frontier: set<Id>)
    ensures ReEnter(y, m, root, status, frontier).inactive == y.inactive
  {
  }

  lemma EmptyIndexOk(g: Edges, direct: Dirty)
    ensures var x := Index(map[], map[], map[], map[], {}, map[], map[], 0);
            && IndexOk(g, direct, x, {})
            && Propagated(g, x.roots, x.inactive, {})
            && Seeded(direct, x.roots, x.inactive, direct.Keys)
  {
    var x := Index(map[], map[], map[], map[], {}, map[], map[], 0);
    assert forall r :: Holders(x.roots, r) == {};
    assert Tombs(x.roots, x.inactive) == {};
  }

  lemma TakenBackTombs(x: Index, root: Id)
    requires CountsOk(x.roots, x.inactive, x.counts, x.tombCounts, x.tombs) && root in x.inactive
    ensures x.tombs - NumAt(x.tombCounts, root) == |Tombs(x.roots, x.inactive - {root})|
  {
    assert NumAt(x.tombCounts, root) == |Holders(x.roots, root)|;
    TombstoneRoot(x.roots, x.inactive - {root}, root);
    assert x.inactive - {root} + {root} == x.inactive;
  }

  lemma ReactivationStarts(g: Edges, direct: Dirty, x: Index, root: Id, status: Status)
    requires IndexOk(g, direct, x, {}) && root in x.inactive
    ensures Reactivating(g, x, TakeBack(x, root), root, status, {})
  {
    hide Sound, ByRootOk, FrontiersOk, ClosuresOk, Minimal, Tombs, Holders;
    TakenBackTombs(x, root);
    assert ReEntered(x.roots, {}, root, status) == x.roots;
  }

  function ReEnter(y: Index, m: Id, root: Id, status: Status, frontier: set<Id>): Index {
    y.(roots := y.roots[m := RootsAt(y.roots, m)[root := status]],
       counts := if root in RootsAt(y.roots, m) then y.counts else y.counts[root := NumAt(y.counts, root) + 1],
       frontiers := y.frontiers[m := frontier])
  }

  lemma ReEnterCounts(y: Index, m: Id, root: Id, status: Status, frontier: set<Id>)
    requires forall q :: NumAt(y.counts, q) == |Holders(y.roots, q)|
    ensures var z := ReEnter(y, m, root, status, frontier); forall q :: NumAt(z.counts, q) == |Holders(z.roots, q)|
  {
    var z := ReEnter(y, m, root, status, frontier);
    PutEntrySelf(y.roots, m, root, status);
    forall q
      ensures NumAt(z.counts, q) == |Holders(z.roots, q)|
    {
      if q != root {
        PutEntryOther(y.roots, m, root, status, q);
      }
    }
  }

  lemma ReactivationStep(g: Edges, x: Index, y: Index, root: Id, status: Status, visited: set<Id>, m: Id,
                         frontier: set<Id>)
    requires Reactivating(g, x, y, root, status, visited)
    requires frontier == Minimal(g, RootsAt(y.roots, m)[root := status].Keys - y.inactive)
    ensures Reactivating(g, x, ReEnter(y, m, root, status, frontier), root, status, visited + {m})
  {
    hide Holders, Tombs, Minimal, ReEntered;
    ReEnterOne(x.roots, visited, root, status, m);
    ReEnterCounts(y, m, root, status, frontier);
  }

  lemma ReactivatedHolders(g: Edges, direct: Dirty, x: Index, y: Index, root: Id, status: Status, q: Id)
    requires Sound(g, direct, x.roots, x.inactive) && y.roots == ReEntered(x.roots, Descendants(g, root), root, status)
    ensures Holders(y.roots, q) == if q == root then Descendants(g, root) else Holders(x.roots, q)
  {
    hide Sound, Descendants;
    HoldersDescend(g, direct, x.roots, x.inactive, root);
    forall m | m in Holders(y.roots, q)
      ensures m in if q == root then Descendants(g, root) else Holders(x.roots, q)
    {
      assert m in Descendants(g, root) || m in Holders(x.roots, q);
    }
  }

  lemma ReactivatedSound(g: Edges, direct: Dirty, x: Index, y: Index, root: Id, status: Status)
    requires Sound(g, direct, x.roots, x.inactive) && root in g && root in direct && direct[root] == status
    requires y.roots == ReEntered(x.roots, Descendants(g, root), root, status)
    ensures Sound(g, direct, y.roots, x.inactive - {root})
  {
    HoldersDescend(g, direct, x.roots, x.inactive, root);
    forall n, r | n in y.roots && r in y.roots[n]
      ensures n in g && r in g && Below(g, r, n)
      ensures r in x.inactive - {root} || (r in direct && Priority(y.roots[n][r]) <= Priority(direct[r]))
    {
      ReEnteredAt(x.roots, Descendants(g, root), root, status, n);
      if r == root {
        assert n in Descendants(g, root) || n in Holders(x.roots, root);
        assert y.roots[n][r] == status;
      } else {
        assert n in x.roots;
        assert r in x.roots[n];
        assert y.roots[n][r] == x.roots[n][r];
      }
    }
  }

  lemma ReactivatedByRoot(g: Edges, direct: Dirty, x: Index, y: Index, root: Id, status: Status)
    requires Sound(g, direct, x.roots, x.inactive) && ByRootOk(g, x.roots, x.byRoot, x.inactive) && root in x.inactive
    requires y.roots == ReEntered(x.roots, Descendants(g, root), root, status)
    ensures ByRootOk(g, y.roots, x.byRoot, x.inactive - {root})
  {
    forall r | r !in x.inactive - {root}
      ensures At(x.byRoot, r) == Holders(y.roots, r)
    {
      ReactivatedHolders(g, direct, x, y, root, status, r);
    }
  }

  lemma ReactivatedFrontiers(g: Edges, direct: Dirty, x: Index, y: Index, root: Id, status: Status)
    requires Sound(g, direct, x.roots, x.inactive) && FrontiersOk(g, x.roots, x.frontiers, x.inactive, {})
    requires Reactivating(g, x, y, root, status, Descendants(g, root))
    ensures FrontiersOk(g, y.roots, y.frontiers, y.inactive, {})
  {
    forall m
      ensures FrontierOkAt(g, y.roots, y.frontiers, y.inactive, m)
    {
      if m in Descendants(g, root) {
        if y.roots[m].Keys !! y.inactive {
          assert RootsAt(y.roots, m).Keys - y.inactive == y.roots[m].Keys;
        }
      } else {
        assert FrontierOkAt(g, x.roots, x.frontiers, x.inactive, m);
        if m in x.roots {
          assert root in x.roots[m] ==> m in Descendants(g, root);
          assert x.roots[m].Keys !! x.inactive <==> x.roots[m].Keys !! y.inactive;
        }
      }
    }
  }

  lemma ReactivatedTombs(x: Index, y: Index, root: Id, status: Status, visited: set<Id>)
    requires y.roots == ReEntered(x.roots, visited, root, status)
    ensures Tombs(y.roots, x.inactive - {root}) == Tombs(x.roots, x.inactive - {root})
  {
    forall n, r | n in y.roots && r in y.roots[n] && r in x.inactive - {root}
      ensures n in x.roots && r in x.roots[n]
    {
    }
    forall n, r | n in x.roots && r in x.roots[n]
      ensures n in y.roots && r in y.roots[n]
    {
    }
  }

  lemma ReactivatedCounts(g: Edges, direct: Dirty, x: Index, y: Index, root: Id, status: Status)
    requires Sound(g, direct, x.roots, x.inactive)
    requires CountsOk(x.roots, x.inactive, x.counts, x.tombCounts, x.tombs)
    requires Reactivating(g, x, y, root, status, Descendants(g, root))
    ensures CountsOk(y.roots, y.inactive, y.counts, y.tombCounts, y.tombs)
  {
    ReactivatedTombs(x, y, root, status, Descendants(g, root));
    forall r
      ensures NumAt(y.tombCounts, r) == if r in y.inactive then |Holders(y.roots, r)| else 0
    {
      ReactivatedHolders(g, direct, x, y, root, status, r);
    }
  }

  /** Once every node the root ever reached is visited, the index is sound again. */
  lemma ReactivationOk(g: Edges, direct: Dirty, x: Index, y: Index, root: Id, status: Status)
    requires IndexOk(g, direct, x, {}) && root in x.inactive && root in direct && direct[root] == status
    requires Reactivating(g, x, y, root, status, Descendants(g, root))
    ensures IndexOk(g, direct, y, {})
  {
    ReactivatedSound(g, direct, x, y, root, status);
    ReactivatedByRoot(g, direct, x, y, root, status);
    ReactivatedFrontiers(g, direct, x, y, root, status);
    ReactivatedCounts(g, direct, x, y, root, status);
  }

  lemma ReactivatedLive(g: Edges, direct: Dirty, x: Index, y: Index, root: Id, status: Status, m: Id)
    requires Sound(g, direct, x.roots, x.inactive) && root in x.inactive
    requires y.roots == ReEntered(x.roots, Descendants(g, root), root, status) && y.inactive == x.inactive - {root}
    ensures Live(y.roots, y.inactive, m)
            == if m in Descendants(g, root) then Live(x.roots, x.inactive, m)[root := status]
              else Live(x.roots, x.inactive, m)
    ensures root !in Live(x.roots, x.inactive, m)
  {
    hide Sound, Descendants;
    HoldersDescend(g, direct, x.roots, x.inactive, root);
    if m !in Descendants(g, root) {
      assert m !in Holders(x.roots, root);
    }
  }

  lemma ReactivatedEdge(g: Edges, root: Id, a: Id, b: Id)
    requires Closed(g) && a in At(g, b)
    ensures a in Descendants(g, root) ==> b in Descendants(g, root)
  {
    EdgeReaches(g, a, b);
    ReachEndpoints(g, a, b);
    if a in Descendants(g, root) {
      BelowTransitive(g, root, a, b);
    }
  }

  lemma ReactivatedPropagated(g: Edges, rev: Edges, direct: Dirty, x: Index, y: Index, root: Id, status: Status,
                              pending: set<Id>)
    requires IndexOk(g, direct, x, {}) && GraphOk(g, rev) && root in x.inactive
    requires Reactivating(g, x, y, root, status, Descendants(g, root))
    requires Propagated(g, x.roots, x.inactive, {})
    requires Seeded(direct, x.roots, x.inactive, pending) && root in pending
    ensures Propagated(g, y.roots, y.inactive, {})
    ensures Seeded(direct, y.roots, y.inactive, pending)
  {
    hide Sound, ByRootOk, FrontiersOk, CountsOk, ClosuresOk, Live, Minimal, Holders, Tombs, ReEntered;
    forall a, b | a in At(g, b)
      ensures Covers(Live(y.roots, y.inactive, b), Live(y.roots, y.inactive, a))
    {
      ReactivatedLive(g, direct, x, y, root, status, a);
      ReactivatedLive(g, direct, x, y, root, status, b);
      ReactivatedEdge(g, root, a, b);
      assert Covers(Live(x.roots, x.inactive, b), Live(x.roots, x.inactive, a));
      assert b in Descendants(g, root) || a !in Descendants(g, root);
    }
    forall r | r in direct && r !in pending
      ensures r in Live(y.roots, y.inactive, r) && Live(y.roots, y.inactive, r)[r] == direct[r]
    {
      ReactivatedLive(g, direct, x, y, root, status, r);
    }
  }

  // ---- propagation ----------------------------------------------------------------------

  ghost function Elems(q: seq<Id>): set<Id> {
    set x | x in q
  }

  lemma MergedLive(x: Index, y: Index, n: Id, incoming: Dirty)
    requires Merged(x, y, n, incoming)
    ensures Live(y.roots, y.inactive, n) == MergeMax(Live(x.roots, x.inactive, n), incoming - x.inactive)
    ensures Live(y.roots, y.inactive, n) == RootsAt(y.roots, n)
    ensures forall m :: m != n ==> Live(y.roots, y.inactive, m) == Live(x.roots, x.inactive, m)
  {
    forall m | m != n
      ensures Live(y.roots, y.inactive, m) == Live(x.roots, x.inactive, m)
    {
      assert RootsAt(y.roots, m) == RootsAt(x.roots - {n}, m) == RootsAt(x.roots, m);
      forall r | r in RootsAt(y.roots, m) && r in x.inactive
        ensures r in y.inactive
      {
        assert m in Holders(y.roots, r);
      }
    }
  }

  lemma MergedAddsOnlyN(x: Index, y: Index, n: Id, incoming: Dirty, r: Id)
    requires Merged(x, y, n, incoming)
    ensures Holders(y.roots, r) <= Holders(x.roots, r) + {n}
  {
    forall m | m in Holders(y.roots, r) && m != n
      ensures m in Holders(x.roots, r)
    {
      assert m in y.roots - {n};
    }
  }

  /** Live entries, per node, grew from x to y and only at n. */
  ghost predicate GrewAt(x: Index, y: Index, n: Id) {
    && (forall m :: m != n ==> Live(y.roots, y.inactive, m) == Live(x.roots, x.inactive, m))
    && Covers(Live(y.roots, y.inactive, n), Live(x.roots, x.inactive, n))
  }

  lemma MergedGrew(x: Index, y: Index, n: Id, incoming: Dirty)
    requires Merged(x, y, n, incoming)
    ensures GrewAt(x, y, n)
    ensures Covers(Live(y.roots, y.inactive, n), incoming - x.inactive)
  {
    MergedLive(x, y, n, incoming);
  }

  /** Edges out of pending nodes are still to do; so are those out of id except to done. */
  ghost predicate PropagatedBut(g: Edges, x: Index, pending: set<Id>, id: Id, done: set<Id>) {
    forall a, b {:trigger a in At(g, b)} :: a in At(g, b) && a !in pending && (a == id ==> b in done) ==>
      Covers(Live(x.roots, x.inactive, b), Live(x.roots, x.inactive, a))
  }

  lemma PropagatedGrows(g: Edges, x: Index, y: Index, pending: set<Id>, n: Id)
    requires Acyclic(g) && GrewAt(x, y, n)
    requires Propagated(g, x.roots, x.inactive, pending)
    ensures Propagated(g, y.roots, y.inactive, pending + {n})
    ensures Live(y.roots, y.inactive, n) == Live(x.roots, x.inactive, n) ==> Propagated(g, y.roots, y.inactive, pending)
  {
    forall a, b | a in At(g, b) && a !in pending + {n}
      ensures Covers(Live(y.roots, y.inactive, b), Live(y.roots, y.inactive, a))
    {
      CoversTransitive(Live(y.roots, y.inactive, b), Live(x.roots, x.inactive, b), Live(x.roots, x.inactive, a));
    }
  }

  lemma EdgeCovered(g: Edges, x: Index, y: Index, pending: set<Id>, id: Id, done: set<Id>, b: Id)
    requires id != b && GrewAt(x, y, b)
    requires Covers(Live(y.roots, y.inactive, b), Live(x.roots, x.inactive, id))
    requires PropagatedBut(g, x, pending, id, done)
    ensures PropagatedBut(g, y, pending + {b}, id, done + {b})
    ensures Live(y.roots, y.inactive, b) == Live(x.roots, x.inactive, b) ==>
              PropagatedBut(g, y, pending, id, done + {b})
  {
    forall a, c | a in At(g, c) && a !in pending && a != b && (a == id ==> c in done + {b})
      ensures Covers(Live(y.roots, y.inactive, c), Live(y.roots, y.inactive, a))
    {
      if a == id && c == b {
      } else {
        CoversTransitive(Live(y.roots, y.inactive, c), Live(x.roots, x.inactive, c), Live(x.roots, x.inactive, a));
      }
    }
    if Live(y.roots, y.inactive, b) == Live(x.roots, x.inactive, b) {
      forall a, c | a in At(g, c) && a !in pending && (a == id ==> c in done + {b})
        ensures Covers(Live(y.roots, y.inactive, c), Live(y.roots, y.inactive, a))
      {
        if !(a == id && c == b) {
          CoversTransitive(Live(y.roots, y.inactive, c), Live(x.roots, x.inactive, c), Live(x.roots, x.inactive, a));
        }
      }
    }
  }

  lemma SeededMerge(direct: Dirty, x: Index, y: Index, id: Id, pending: set<Id>)
    requires GrewAt(x, y, id) && id in direct
    requires Seeded(direct, x.roots, x.inactive, pending + {id})
    requires Covers(Live(y.roots, y.inactive, id), map[id := direct[id]])
    requires Priority(Live(y.roots, y.inactive, id)[id]) <= Priority(direct[id])
    ensures Seeded(direct, y.roots, y.inactive, pending)
  {
    SamePriority(Live(y.roots, y.inactive, id)[id], direct[id]);
  }

  /** What is still to be entered: (node, root, severity) triples that are not covered yet. */
  ghost function Missing(g: Edges, direct: Dirty, x: Index): set<(Id, Id, int)> {
    set n, r, p | n in g && r in direct && 0 <= p <= 3
                  && !(r in Live(x.roots, x.inactive, n) && Priority(Live(x.roots, x.inactive, n)[r]) >= p)
      :: (n, r, p)
  }

  lemma MissingShrinks(g: Edges, direct: Dirty, x: Index, y: Index, n: Id)
    requires n in g && GrewAt(x, y, n)
    requires Live(y.roots, y.inactive, n).Keys <= direct.Keys
    ensures Missing(g, direct, y) <= Missing(g, direct, x)
    ensures Live(y.roots, y.inactive, n) != Live(x.roots, x.inactive, n) ==>
              Missing(g, direct, y) < Missing(g, direct, x)
  {
    var a, b := Live(x.roots, x.inactive, n), Live(y.roots, y.inactive, n);
    if b != a {
      var r :| r in b && (r !in a || b[r] != a[r]);
      if r in a && Priority(a[r]) == Priority(b[r]) {
        SamePriority(a[r], b[r]);
      }
      assert (n, r, Priority(b[r])) in Missing(g, direct, x);
      assert (n, r, Priority(b[r])) !in Missing(g, direct, y);
    }
  }

  /** The roots of a node may be entered at each of its dependents. */
  lemma EnterableAtDependent(g: Edges, rev: Edges, direct: Dirty, x: Index, id: Id, b: Id)
    requires GraphOk(g, rev) && IndexOk(g, direct, x, {}) && direct.Keys <= g.Keys && id in At(g, b)
    ensures id != b && b in g && Reach(g, id, b)
    ensures Enterable(g, direct, x.inactive, b, RootsAt(x.roots, id))
    ensures HeldElsewhere(x.roots, x.inactive, b, RootsAt(x.roots, id))
  {
    EdgeReaches(g, id, b);
    ReachEndpoints(g, id, b);
    forall r | r in RootsAt(x.roots, id)
      ensures id in Holders(x.roots, r)
      ensures r !in x.inactive ==>
                r in g && r in direct && Priority(RootsAt(x.roots, id)[r]) <= Priority(direct[r]) && Below(g, r, b)
    {
      assert id in x.roots && r in x.roots[id];
      BelowTransitive(g, r, id, b);
    }
  }

  lemma EnterableAtItself(g: Edges, direct: Dirty, x: Index, id: Id)
    requires id in direct && direct.Keys <= g.Keys && id !in x.inactive
    ensures Enterable(g, direct, x.inactive, id, map[id := direct[id]])
    ensures HeldElsewhere(x.roots, x.inactive, id, map[id := direct[id]])
  {
  }

  lemma LiveIsDirect(g: Edges, direct: Dirty, x: Index, n: Id)
    requires IndexOk(g, direct, x, {})
    ensures Live(x.roots, x.inactive, n).Keys <= direct.Keys
    ensures forall r ::
              r in Live(x.roots, x.inactive, n) ==> Priority(Live(x.roots, x.inactive, n)[r]) <= Priority(direct[r])
  {
    forall r | r in Live(x.roots, x.inactive, n)
      ensures r in direct && Priority(Live(x.roots, x.inactive, n)[r]) <= Priority(direct[r])
    {
      assert n in x.roots && r in x.roots[n];
    }
  }

  // ---- cached closures ----------------------------------------------------------------

  /** The roots themselves and every node indexed under one of them. */
  ghost function IndexedUnder(byRoot: map<Id, set<Id>>, roots: set<Id>): set<Id> {
    roots + set r, n | r in roots && n in At(byRoot, r) :: n
  }

  lemma NothingIndexed(byRoot: map<Id, set<Id>>)
    ensures IndexedUnder(byRoot, {}) == {}
  {
  }

  lemma OneMoreIndexed(byRoot: map<Id, set<Id>>, roots: set<Id>, r: Id)
    ensures IndexedUnder(byRoot, roots + {r}) == IndexedUnder(byRoot, roots) + {r} + At(byRoot, r)
  {
  }

  lemma ClosureEvicted(closures: map<Id, set<Id>>, byRoot: map<Id, set<Id>>, r: Id)
    requires ClosuresOk(closures, byRoot)
    ensures ClosuresOk(closures - {r}, byRoot)
  {
  }

  lemma ClosureAdded(closures: map<Id, set<Id>>, byRoot: map<Id, set<Id>>, r: Id, affected: set<Id>)
    requires ClosuresOk(closures, byRoot) && affected == {r} + At(byRoot, r)
    ensures ClosuresOk(closures[r := affected], byRoot)
  {
  }

  lemma ClosuresOfIndex(g: Edges, direct: Dirty, x: Index)
    requires IndexOk(g, direct, x, {})
    ensures ClosuresOk(x.closures, x.byRoot)
  {
  }

  /** The cached closure of a root, or its indexed nodes. */
  function MembersOf(x: Index, r: Id): set<Id> {
    if r in x.closures then x.closures[r] else At(x.byRoot, r)
  }

  lemma MembersAreIndexed(x: Index, r: Id)
    requires ClosuresOk(x.closures, x.byRoot)
    ensures {r} + MembersOf(x, r) == {r} + At(x.byRoot, r)
  {
  }

  lemma Singleton(s: set<Id>, r: Id)
    requires r in s && |s| == 1
    ensures s == {r}
  {
    assert |s - {r}| == 0;
  }

  lemma NewClosuresOk(g: Edges, direct: Dirty, x: Index, closures: map<Id, set<Id>>, skip: set<Id>)
    requires IndexOk(g, direct, x, skip) && ClosuresOk(closures, x.byRoot)
    ensures IndexOk(g, direct, x.(closures := closures), skip)
  {
  }

  // ---- what a propagation touches -------------------------------------------------------

  /** The nodes at or below one of the roots. */
  ghost function ReachOf(g: Edges, roots: set<Id>): set<Id> {
    set n | n in g && exists r :: r in roots && Below(g, r, n)
  }

  /** affected lists every node that holds one of the seeds, and only nodes the seeds reach. */
  ghost predicate AffectedOk(g: Edges, x: Index, seeds: set<Id>, affected: set<Id>) {
    && seeds <= affected <= ReachOf(g, seeds)
    && forall s :: s in seeds ==> Holders(x.roots, s) <= affected
  }

  lemma NothingAffected(g: Edges, x: Index)
    ensures AffectedOk(g, x, {}, {})
  {
  }

  lemma SeedsReached(g: Edges, x: Index, seeds: set<Id>, affected: set<Id>)
    requires AffectedOk(g, x, seeds, affected)
    ensures seeds <= ReachOf(g, seeds)
  {
  }

  lemma SeedEntered(g: Edges, rev: Edges, direct: Dirty, x: Index, y: Index, id: Id, todo: set<Id>, pending: set<Id>)
    requires GraphOk(g, rev) && id in direct && direct.Keys !! x.inactive
    requires IndexOk(g, direct, y, {}) && Merged(x, y, id, map[id := direct[id]])
    requires Propagated(g, x.roots, x.inactive, pending)
    requires Seeded(direct, x.roots, x.inactive, todo + {id})
    ensures direct.Keys !! y.inactive
    ensures Seeded(direct, y.roots, y.inactive, todo)
    ensures Propagated(g, y.roots, y.inactive, pending + {id})
    ensures RootsAt(y.roots, id) == Live(x.roots, x.inactive, id) ==> Propagated(g, y.roots, y.inactive, pending)
  {
    MergedGrew(x, y, id, map[id := direct[id]]);
    MergedLive(x, y, id, map[id := direct[id]]);
    assert map[id := direct[id]] - x.inactive == map[id := direct[id]];
    LiveIsDirect(g, direct, y, id);
    SeededMerge(direct, x, y, id, todo);
    PropagatedGrows(g, x, y, pending, id);
  }

  lemma AffectedIgnoresClosures(g: Edges, x: Index, closures: map<Id, set<Id>>, seeds: set<Id>, affected: set<Id>)
    requires AffectedOk(g, x, seeds, affected)
    ensures AffectedOk(g, x.(closures := closures), seeds, affected)
  {
  }

  lemma HoldersInReach(g: Edges, direct: Dirty, roots: RootMap, inactive: set<Id>, r: Id)
    requires Sound(g, direct, roots, inactive)
    ensures Holders(roots, r) <= ReachOf(g, {r})
  {
    forall n | n in Holders(roots, r)
      ensures n in ReachOf(g, {r})
    {
      assert n in roots && r in roots[n];
      assert r in {r} && Below(g, r, n);
    }
  }

  /** A live root's indexed nodes are its holders, and lie within its reach. */
  lemma IndexedInReach(g: Edges, direct: Dirty, x: Index, r: Id)
    requires IndexOk(g, direct, x, {}) && r in g && r !in x.inactive
    ensures IndexedUnder(x.byRoot, {r}) == {r} + Holders(x.roots, r)
    ensures IndexedUnder(x.byRoot, {r}) <= ReachOf(g, {r})
  {
    hide IndexedUnder, Sound, FrontiersOk, CountsOk, ClosuresOk, Holders;
    NothingIndexed(x.byRoot);
    OneMoreIndexed(x.byRoot, {}, r);
    assert {} + {r} == {r};
    assert At(x.byRoot, r) == Holders(x.roots, r);
    HoldersInReach(g, direct, x.roots, x.inactive, r);
    assert r in ReachOf(g, {r});
  }

  lemma ReachOfGrows(g: Edges, a: set<Id>, b: set<Id>)
    requires a <= b
    ensures ReachOf(g, a) <= ReachOf(g, b)
  {
  }

  lemma SeedAffected(g: Edges, x: Index, y: Index, id: Id, s: Status, seeds: set<Id>, before: set<Id>, known: set<Id>)
    requires Merged(x, y, id, map[id := s])
    requires AffectedOk(g, x, seeds, before)
    requires known == {id} + Holders(y.roots, id) && known <= ReachOf(g, {id})
    ensures AffectedOk(g, y, seeds + {id}, before + {id} + known)
  {
    hide Merged, ReachOf, Holders;
    forall r | r in seeds
      ensures Holders(y.roots, r) <= before + {id}
    {
      MergedAddsOnlyN(x, y, id, map[id := s], r);
    }
    ReachOfGrows(g, seeds, seeds + {id});
    ReachOfGrows(g, {id}, seeds + {id});
  }

  lemma MergedAddsNothing(x: Index, y: Index, n: Id, r: Id)
    requires Merged(x, y, n, map[])
    ensures Holders(y.roots, r) <= Holders(x.roots, r)
  {
    var nothing: Dirty := map[];
    assert nothing - x.inactive == nothing;
    forall m | m in Holders(y.roots, r)
      ensures m in Holders(x.roots, r)
    {
      assert m != n ==> m in y.roots - {n};
    }
  }

  /** Visiting one dependent b of id keeps the account of affected nodes. */
  lemma DependentAffected(g: Edges, x: Index, y: Index, id: Id, b: Id, incoming: Dirty, seeds: set<Id>, before: set<Id>)
    requires Merged(x, y, b, incoming) && AffectedOk(g, x, seeds, before)
    requires id in ReachOf(g, seeds) && Reach(g, id, b) && b in g
    ensures b in ReachOf(g, seeds)
    ensures AffectedOk(g, y, seeds, if incoming == map[] then before else before + {b})
  {
    hide Merged, Holders, Reach;
    var s :| s in seeds && Below(g, s, id);
    BelowTransitive(g, s, id, b);
    assert Below(g, s, b);
    assert b in ReachOf(g, seeds);
    forall r | r in seeds
      ensures Holders(y.roots, r) <= if incoming == map[] then before else before + {b}
    {
      MergedAddsOnlyN(x, y, b, incoming, r);
      if incoming == map[] {
        MergedAddsNothing(x, y, b, r);
      }
    }
  }

  /** Visiting one dependent b of id propagates that edge and shrinks what is missing. */
  lemma DependentVisited(g: Edges, rev: Edges, direct: Dirty, x: Index, y: Index, pending: set<Id>, id: Id,
                         done: set<Id>, b: Id)
    requires GraphOk(g, rev) && direct.Keys <= g.Keys && id in At(g, b) && id != b && b in g
    requires IndexOk(g, direct, y, {}) && Merged(x, y, b, RootsAt(x.roots, id))
    requires direct.Keys !! x.inactive && Seeded(direct, x.roots, x.inactive, {})
    requires PropagatedBut(g, x, pending, id, done)
    ensures direct.Keys !! y.inactive && Seeded(direct, y.roots, y.inactive, {})
    ensures PropagatedBut(g, y, pending + {b}, id, done + {b})
    ensures Missing(g, direct, y) <= Missing(g, direct, x)
    ensures if RootsAt(y.roots, b) == Live(x.roots, x.inactive, b)
            then PropagatedBut(g, y, pending, id, done + {b})
            else Missing(g, direct, y) < Missing(g, direct, x)
  {
    hide IndexOk, PropagatedBut, Missing, GraphOk, Seeded, MergeMax;
    MergedInactive(x, y, b, RootsAt(x.roots, id));
    MergedGrew(x, y, b, RootsAt(x.roots, id));
    MergedLive(x, y, b, RootsAt(x.roots, id));
    LiveIsDirect(g, direct, y, b);
    EdgeCovered(g, x, y, pending, id, done, b);
    MissingShrinks(g, direct, x, y, b);
    SeededGrows(g, direct, x, y, b);
  }

  lemma MergedInactive(x: Index, y: Index, n: Id, incoming: Dirty)
    requires Merged(x, y, n, incoming)
    ensures y.inactive <= x.inactive
  {
  }

  lemma SeededGrows(g: Edges, direct: Dirty, x: Index, y: Index, n: Id)
    requires GrewAt(x, y, n) && IndexOk(g, direct, y, {})
    requires Seeded(direct, x.roots, x.inactive, {})
    ensures Seeded(direct, y.roots, y.inactive, {})
  {
    hide IndexOk;
    LiveIsDirect(g, direct, y, n);
    if n in direct {
      SamePriority(Live(y.roots, y.inactive, n)[n], direct[n]);
    }
  }

  lemma VisitStarts(g: Edges, x: Index, pending: set<Id>, id: Id)
    requires Propagated(g, x.roots, x.inactive, pending + {id})
    ensures PropagatedBut(g, x, pending, id, {})
  {
  }

  lemma VisitEnds(g: Edges, rev: Edges, x: Index, pending: set<Id>, id: Id)
    requires Inverse(g, rev) && PropagatedBut(g, x, pending, id, At(rev, id))
    ensures Propagated(g, x.roots, x.inactive, pending)
  {
  }

  /** When nothing is pending, the affected nodes are exactly what the seeds reach. */
  lemma AffectedIsReach(g: Edges, rev: Edges, direct: Dirty, x: Index, seeds: set<Id>, affected: set<Id>)
    requires GraphOk(g, rev) && IndexOk(g, direct, x, {}) && direct.Keys <= g.Keys && seeds <= direct.Keys
    requires Propagated(g, x.roots, x.inactive, {}) && Seeded(direct, x.roots, x.inactive, {})
    requires AffectedOk(g, x, seeds, affected)
    ensures affected == ReachOf(g, seeds)
  {
    forall n | n in ReachOf(g, seeds)
      ensures n in affected
    {
      var s :| s in seeds && Below(g, s, n);
      HoldersAreDescendants(g, direct, x.roots, x.inactive, s);
    }
  }

  // ---- a settled index answers exactly ------------------------------------------------

  lemma {:induction false} EntryFollowsPath(g: Edges, direct: Dirty, roots: RootMap, inactive: set<Id>, p: seq<Id>)
    requires Propagated(g, roots, inactive, {}) && Seeded(direct, roots, inactive, {})
    requires IsPath(g, p) && p[0] in direct
    ensures p[0] in Live(roots, inactive, p[|p| - 1])
    ensures Priority(Live(roots, inactive, p[|p| - 1])[p[0]]) >= Priority(direct[p[0]])
    decreases |p|
  {
    if |p| > 1 {
      assert IsPath(g, p[..|p| - 1]);
      EntryFollowsPath(g, direct, roots, inactive, p[..|p| - 1]);
      assert p[|p| - 2] in At(g, p[|p| - 1]);
    }
  }

  lemma EntryReaches(g: Edges, direct: Dirty, roots: RootMap, inactive: set<Id>, r: Id, n: Id)
    requires Propagated(g, roots, inactive, {}) && Seeded(direct, roots, inactive, {})
    requires r in direct && Below(g, r, n)
    ensures r in Live(roots, inactive, n) && Priority(Live(roots, inactive, n)[r]) >= Priority(direct[r])
  {
    if r == n {
      assert IsPath(g, [n]);
      EntryFollowsPath(g, direct, roots, inactive, [n]);
    } else {
      var p :| IsPath(g, p) && |p| >= 2 && p[0] == r && p[|p| - 1] == n;
      EntryFollowsPath(g, direct, roots, inactive, p);
    }
  }

  /** In a settled index the live roots of a node are exactly its causes. */
  lemma LiveIsCauses(g: Edges, direct: Dirty, roots: RootMap, inactive: set<Id>, n: Id)
    requires Sound(g, direct, roots, inactive)
    requires Propagated(g, roots, inactive, {}) && Seeded(direct, roots, inactive, {})
    ensures Live(roots, inactive, n) == Causes(g, direct, n)
  {
    hide Propagated, Seeded, Reach;
    var live, causes := Live(roots, inactive, n), Causes(g, direct, n);
    forall r | r in live
      ensures r in causes && live[r] == causes[r]
    {
      assert n in roots && r in roots[n];
      EntryReaches(g, direct, roots, inactive, r, n);
      SamePriority(live[r], direct[r]);
    }
    forall r | r in causes
      ensures r in live
    {
      EntryReaches(g, direct, roots, inactive, r, n);
    }
  }

  /** In a settled index the reverse index of a live root is its full reach. */
  lemma HoldersAreDescendants(g: Edges, direct: Dirty, roots: RootMap, inactive: set<Id>, r: Id)
    requires Closed(g) && direct.Keys <= g.Keys && r in direct
    requires Sound(g, direct, roots, inactive)
    requires Propagated(g, roots, inactive, {}) && Seeded(direct, roots, inactive, {})
    ensures Holders(roots, r) == Descendants(g, r)
  {
    hide Propagated, Seeded, Reach;
    forall n | n in Holders(roots, r)
      ensures n in Descendants(g, r)
    {
      assert n in roots && r in roots[n];
    }
    forall n | n in Descendants(g, r)
      ensures n in Holders(roots, r)
    {
      EntryReaches(g, direct, roots, inactive, r, n);
      assert n in roots;
    }
  }

  // ---- raising direct states, resolving, and growing the graph ---------------------------

  ghost function MarkAll(dirty: Dirty, ids: set<Id>, s: Status): Dirty {
    map r | r in dirty.Keys + ids :: if r !in ids then dirty[r] else if r in dirty then Raised(dirty[r], s) else s
  }

  /** The named states are those of s and before, the worse of the two; all others stay. */
  ghost predicate Marked(was: Dirty, ids: set<Id>, s: Status, now: Dirty) {
    && now.Keys == was.Keys + ids
    && (forall id :: id in was && id !in ids ==> now[id] == was[id])
    && (forall id :: id in ids ==> (now[id] == INVALID <==> s == INVALID || StateIs(was, id, INVALID)))
    && (forall id :: id in ids ==>
          (now[id] == UNKNOWN <==>
            now[id] != INVALID && (s == UNKNOWN || StateIs(was, id, UNKNOWN))))
    && (forall id :: id in ids ==> (now[id] == STALE <==> s == STALE && (id in was ==> was[id] == STALE)))
  }

  ghost predicate StateIs(dirty: Dirty, id: Id, s: Status) { id in dirty && dirty[id] == s }

  lemma MarkAllMarks(dirty: Dirty, ids: set<Id>, s: Status)
    requires NoFresh(dirty) && s != FRESH
    ensures Marked(dirty, ids, s, MarkAll(dirty, ids, s)) && NoFresh(MarkAll(dirty, ids, s))
  {
  }

  lemma MarkOne(dirty: Dirty, ids: set<Id>, s: Status, id: Id)
    requires id !in ids
    ensures MarkAll(dirty, ids + {id}, s)
            == MarkAll(dirty, ids, s)[id := if id in dirty then Raised(dirty[id], s) else s]
  {
  }

  lemma MarkedAlready(dirty: Dirty, ids: set<Id>, s: Status)
    requires forall id :: id in ids ==> id in dirty && Priority(dirty[id]) >= Priority(s)
    ensures ids <= dirty.Keys && MarkAll(dirty, ids, s) == dirty
  {
  }

  /** A direct state may rise: what was entered before is still sound. */
  lemma DirectRaised(g: Edges, direct: Dirty, x: Index, id: Id, s: Status, skip: set<Id>)
    requires IndexOk(g, direct, x, skip)
    requires id in direct ==> Priority(s) >= Priority(direct[id])
    ensures IndexOk(g, direct[id := s], x, skip)
  {
    hide ByRootOk, FrontiersOk, CountsOk, ClosuresOk, Reach;
    forall n, r | n in x.roots && r in x.roots[n]
      ensures EntryOk(g, direct[id := s], x.inactive, n, r, x.roots[n][r])
    {
      assert EntryOk(g, direct, x.inactive, n, r, x.roots[n][r]);
    }
  }

  lemma SeedPending(direct: Dirty, x: Index, pending: set<Id>, id: Id, s: Status)
    requires Seeded(direct, x.roots, x.inactive, pending)
    ensures Seeded(direct[id := s], x.roots, x.inactive, pending + {id})
  {
  }

  /** Compacting one node changes no live entry anywhere. */
  lemma CompactedLive(x: Index, y: Index, n: Id)
    requires Compacted(x, y, n)
    ensures forall m :: Live(y.roots, y.inactive, m) == Live(x.roots, x.inactive, m)
    ensures Live(y.roots, y.inactive, n) == RootsAt(y.roots, n)
    ensures RootsAt(y.roots, n).Keys !! y.inactive
  {
    forall m
      ensures Live(y.roots, y.inactive, m) == Live(x.roots, x.inactive, m)
    {
      if m != n {
        assert RootsAt(y.roots, m) == RootsAt(x.roots - {n}, m) == RootsAt(x.roots, m);
        forall r | r in RootsAt(y.roots, m) && r in x.inactive
          ensures r in y.inactive
        {
          assert m in Holders(y.roots, r);
        }
      }
    }
  }

  lemma CompactedInactive(x: Index, y: Index, n: Id)
    requires Compacted(x, y, n)
    ensures y.inactive <= x.inactive
  {
  }

  lemma SameLive(g: Edges, direct: Dirty, x: Index, y: Index, pending: set<Id>)
    requires forall m :: Live(y.roots, y.inactive, m) == Live(x.roots, x.inactive, m)
    requires Propagated(g, x.roots, x.inactive, {}) && Seeded(direct, x.roots, x.inactive, pending)
    ensures Propagated(g, y.roots, y.inactive, {}) && Seeded(direct, y.roots, y.inactive, pending)
  {
    hide Live, Covers;
  }

  /** What a settled index stores for a node without tombstones is the exact answer. */
  lemma IndexAnswers(g: Edges, direct: Dirty, x: Index, n: Id, status: Status)
    requires IndexOk(g, direct, x, {})
    requires Propagated(g, x.roots, x.inactive, {}) && Seeded(direct, x.roots, x.inactive, {})
    requires RootsAt(x.roots, n).Keys !! x.inactive
    requires IsMaxSeverity(status, RootsAt(x.roots, n))
    ensures Exact(g, direct, n, status, At(x.frontiers, n))
  {
    hide Propagated, Seeded, Reach, Minimal, Causes;
    FrontierOf(g, direct, x, n);
    LiveIsCauses(g, direct, x.roots, x.inactive, n);
    assert RootsAt(x.roots, n) - x.inactive == RootsAt(x.roots, n);
  }

  function Tombstone(x: Index, r: Id): Index {
    x.(inactive := x.inactive + {r},
       tombCounts := x.tombCounts[r := NumAt(x.counts, r)],
       tombs := x.tombs + NumAt(x.counts, r))
  }

  lemma TombstoneSound(g: Edges, direct: Dirty, x: Index, r: Id)
    requires Sound(g, direct, x.roots, x.inactive)
    ensures Sound(g, direct - {r}, x.roots, x.inactive + {r})
  {
    forall n, q | n in x.roots && q in x.roots[n]
      ensures EntryOk(g, direct - {r}, x.inactive + {r}, n, q, x.roots[n][q])
    {
      assert EntryOk(g, direct, x.inactive, n, q, x.roots[n][q]);
    }
  }

  lemma TombstoneFrontiers(g: Edges, x: Index, r: Id)
    requires FrontiersOk(g, x.roots, x.frontiers, x.inactive, {})
    ensures FrontiersOk(g, x.roots, x.frontiers, x.inactive + {r}, {})
  {
    forall n
      ensures FrontierOkAt(g, x.roots, x.frontiers, x.inactive + {r}, n)
    {
      assert FrontierOkAt(g, x.roots, x.frontiers, x.inactive, n);
    }
  }

  lemma TombstoneCounts(x: Index, r: Id)
    requires CountsOk(x.roots, x.inactive, x.counts, x.tombCounts, x.tombs) && r !in x.inactive
    ensures var y := Tombstone(x, r); CountsOk(y.roots, y.inactive, y.counts, y.tombCounts, y.tombs)
  {
    TombstoneRoot(x.roots, x.inactive, r);
  }

  /** Resolving a root of a settled index leaves a settled index for the remaining roots. */
  lemma TombstoneOk(g: Edges, rev: Edges, direct: Dirty, x: Index, r: Id)
    requires GraphOk(g, rev) && direct.Keys <= g.Keys && direct.Keys !! x.inactive && r in direct
    requires IndexOk(g, direct, x, {})
    requires Propagated(g, x.roots, x.inactive, {}) && Seeded(direct, x.roots, x.inactive, {})
    ensures r in x.byRoot && x.byRoot[r] == Descendants(g, r)
    ensures IndexOk(g, direct - {r}, Tombstone(x, r), {})
  {
    hide Propagated, Seeded, Reach, Minimal, Tombs, Live, FrontierOkAt, Acyclic, Inverse, Sound, CountsOk, FrontiersOk,
         ClosuresOk;
    HoldersAreDescendants(g, direct, x.roots, x.inactive, r);
    assert At(x.byRoot, r) == Holders(x.roots, r);
    assert r in Descendants(g, r);
    TombstoneSound(g, direct, x, r);
    TombstoneFrontiers(g, x, r);
    TombstoneCounts(x, r);
  }

  lemma TombstoneSettled(g: Edges, direct: Dirty, x: Index, r: Id)
    requires Propagated(g, x.roots, x.inactive, {}) && Seeded(direct, x.roots, x.inactive, {})
    ensures Propagated(g, x.roots, x.inactive + {r}, {}) && Seeded(direct - {r}, x.roots, x.inactive + {r}, {})
  {
    forall m
      ensures Live(x.roots, x.inactive + {r}, m) == Live(x.roots, x.inactive, m) - {r}
    {
    }
    forall a, b | a in At(g, b)
      ensures Covers(Live(x.roots, x.inactive + {r}, b), Live(x.roots, x.inactive + {r}, a))
    {
      assert Covers(Live(x.roots, x.inactive, b), Live(x.roots, x.inactive, a));
    }
  }

  /** Declaring nodes that nothing is connected to does not disturb the index. */
  lemma IsolatedNodes(g: Edges, h: Edges, direct: Dirty, x: Index)
    requires Closed(g) && Closed(h) && g.Keys <= h.Keys && forall n :: At(h, n) == At(g, n)
    requires IndexOk(g, direct, x, {}) && Propagated(g, x.roots, x.inactive, {})
    ensures IndexOk(h, direct, x, {}) && Propagated(h, x.roots, x.inactive, {})
  {
    hide Reach, CountsOk, ClosuresOk, Covers, Live;
    SameReach(g, h);
    assert forall s :: Minimal(h, s) == Minimal(g, s);
    forall r | r in x.inactive
      ensures Descendants(h, r) == Descendants(g, r)
    {
      forall n | n in Descendants(h, r)
        ensures n in Descendants(g, r)
      {
        if n != r {
          ReachEndpoints(g, r, n);
        }
      }
    }
    forall n
      ensures FrontierOkAt(h, x.roots, x.frontiers, x.inactive, n)
    {
      assert FrontierOkAt(g, x.roots, x.frontiers, x.inactive, n);
    }
    forall n, r | n in x.roots && r in x.roots[n]
      ensures EntryOk(h, direct, x.inactive, n, r, x.roots[n][r])
    {
      assert EntryOk(g, direct, x.inactive, n, r, x.roots[n][r]);
    }
  }

  /** In a settled index the nodes indexed under some roots are exactly what they reach. */
  lemma SettledReach(g: Edges, rev: Edges, direct: Dirty, x: Index, roots: set<Id>)
    requires GraphOk(g, rev) && IndexOk(g, direct, x, {}) && direct.Keys <= g.Keys
    requires roots <= direct.Keys && roots !! x.inactive
    requires Propagated(g, x.roots, x.inactive, {}) && Seeded(direct, x.roots, x.inactive, {})
    ensures IndexedUnder(x.byRoot, roots) == ReachOf(g, roots)
  {
    hide Propagated, Seeded, Reach, Sound, FrontiersOk, CountsOk, ClosuresOk, Acyclic, Inverse;
    forall r | r in roots
      ensures At(x.byRoot, r) == Descendants(g, r)
    {
      HoldersAreDescendants(g, direct, x.roots, x.inactive, r);
    }
    forall n | n in ReachOf(g, roots)
      ensures n in IndexedUnder(x.byRoot, roots)
    {
      var r :| r in roots && Below(g, r, n);
      assert n in At(x.byRoot, r);
    }
    forall n | n in IndexedUnder(x.byRoot, roots)
      ensures n in ReachOf(g, roots)
    {
      if n in roots {
        assert Below(g, n, n);
      } else {
        var r :| r in roots && n in At(x.byRoot, r);
        assert n in Descendants(g, r);
      }
    }
  }

  /** Marking some nodes changes the exact answer only of the nodes they reach. */
  lemma MarkingIsLocal(g: Edges, direct: Dirty, ids: set<Id>, s: Status)
    ensures forall n, t, f :: n in g && n !in ReachOf(g, ids) ==>
              (Exact(g, direct, n, t, f) <==> Exact(g, MarkAll(direct, ids, s), n, t, f))
  {
    hide Reach, Exact;
    forall n | n in g && n !in ReachOf(g, ids)
      ensures forall t, f :: Exact(g, direct, n, t, f) <==> Exact(g, MarkAll(direct, ids, s), n, t, f)
    {
      ExactDependsOnCauses(g, direct, MarkAll(direct, ids, s), n);
    }
  }

  /** Changing one direct state changes the exact answer only of the nodes below it. */
  lemma ReplacingIsLocal(g: Edges, direct: Dirty, direct': Dirty, id: Id)
    requires direct' - {id} == direct - {id} && NoFresh(direct)
    requires id in direct' ==> direct'[id] != FRESH
    ensures forall n, t, f ::
              n in g && n !in Descendants(g, id) ==> (Exact(g, direct, n, t, f) <==> Exact(g, direct', n, t, f))
    ensures NoFresh(direct')
  {
    hide Reach, Exact;
    forall r | r != id
      ensures r in direct <==> r in direct'
      ensures r in direct ==> direct[r] == direct'[r]
    {
      assert r in direct - {id} <==> r in direct' - {id};
    }
    forall n | n in g && n !in Descendants(g, id)
      ensures forall t, f :: Exact(g, direct, n, t, f) <==> Exact(g, direct', n, t, f)
    {
      ExactDependsOnCauses(g, direct, direct', n);
    }
  }

  lemma ForgettingIsLocal(g: Edges, direct: Dirty, id: Id)
    requires NoFresh(direct)
    ensures forall n, t, f ::
              n in g && n !in Descendants(g, id) ==> (Exact(g, direct, n, t, f) <==> Exact(g, direct - {id}, n, t, f))
  {
    hide Reach, Exact;
    assert direct - {id} - {id} == direct - {id};
    ReplacingIsLocal(g, direct, direct - {id}, id);
  }

  lemma DroppedRoot(direct: Dirty, id: Id)
    ensures (direct - {id}).Keys == direct.Keys - {id}
    ensures NoFresh(direct) ==> NoFresh(direct - {id})
  {
  }

  lemma TombstoneFields(x: Index, r: Id)
    ensures Tombstone(x, r).roots == x.roots && Tombstone(x, r).inactive == x.inactive + {r}
  {
  }

  // ---- state snapshots -----------------------------------------------------------------

  ghost function SnapshotIds(states: seq<(Id, Status)>): set<Id> {
    set i | 0 <= i < |states| :: states[i].0
  }

  /** The entries name distinct graph nodes. */
  ghost predicate SnapshotPrefix(g: Edges, states: seq<(Id, Status)>) {
    && (forall i :: 0 <= i < |states| ==> states[i].0 in g)
    && (forall i, j :: 0 <= i < j < |states| ==> states[i].0 != states[j].0)
  }

  /** The snapshot names every graph node exactly once. */
  ghost predicate CompleteSnapshot(g: Edges, states: seq<(Id, Status)>) {
    SnapshotPrefix(g, states) && g.Keys <= SnapshotIds(states)
  }

  /** The dirty part of a snapshot. */
  function SnapshotStates(states: seq<(Id, Status)>): Dirty {
    if states == [] then map[]
    else
      var last := states[|states| - 1];
      var rest := SnapshotStates(states[..|states| - 1]);
      if last.1 == FRESH then rest else rest[last.0 := last.1]
  }

  /** Exactly the listed states that are not FRESH. */
  lemma {:induction false} SnapshotMeaning(states: seq<(Id, Status)>)
    requires forall i, j :: 0 <= i < j < |states| ==> states[i].0 != states[j].0
    ensures var dirty := SnapshotStates(states);
            && (forall i :: 0 <= i < |states| && states[i].1 == FRESH ==> states[i].0 !in dirty)
            && (forall i :: 0 <= i < |states| && states[i].1 != FRESH ==> StateIs(dirty, states[i].0, states[i].1))
            && dirty.Keys <= SnapshotIds(states)
            && NoFresh(dirty)
  {
    if states != [] {
      var n := |states| - 1;
      SnapshotMeaning(states[..n]);
      assert forall i :: 0 <= i < n ==> states[..n][i] == states[i];
      assert forall x :: x in SnapshotIds(states[..n]) ==> exists i :: 0 <= i < n && states[i].0 == x;
      assert states[n].0 !in SnapshotIds(states[..n]);
    }
  }

  lemma SnapshotNext(g: Edges, states: seq<(Id, Status)>, i: nat)
    requires i < |states|
    ensures states[..i + 1][..i] == states[..i]
    ensures SnapshotIds(states[..i + 1]) == SnapshotIds(states[..i]) + {states[i].0}
    ensures SnapshotStates(states[..i + 1])
            == if states[i].1 == FRESH then SnapshotStates(states[..i])
              else SnapshotStates(states[..i])[states[i].0 := states[i].1]
    ensures SnapshotPrefix(g, states[..i]) && states[i].0 in g && states[i].0 !in SnapshotIds(states[..i]) ==>
              SnapshotPrefix(g, states[..i + 1])
    ensures states[i].0 !in g || states[i].0 in SnapshotIds(states[..i]) ==> !SnapshotPrefix(g, states)
  {
    assert states[..i + 1][..i] == states[..i];
    assert states[..i + 1][i] == states[i];
    forall x | x in SnapshotIds(states[..i])
      ensures x in SnapshotIds(states[..i + 1])
    {
      var j :| 0 <= j < i && states[..i][j].0 == x;
      assert states[..i + 1][j].0 == x;
    }
    if states[i].0 in SnapshotIds(states[..i]) {
      var j :| 0 <= j < i && states[..i][j].0 == states[i].0;
      assert states[j].0 == states[i].0;
    } else {
      forall j | 0 <= j < i
        ensures states[j].0 != states[i].0
      {
        assert states[..i][j].0 in SnapshotIds(states[..i]);
      }
    }
  }

  // ---- graph updates ---------------------------------------------------------------------

  /** g with the listed nodes declared. */
  ghost function WithNodes(g: Edges, nodes: set<Id>): Edges {
    map n | n in g.Keys + nodes :: At(g, n)
  }

  /** g with id depending on exactly next, which are declared. */
  ghost function WithDeps(g: Edges, id: Id, next: set<Id>): Edges {
    WithNodes(g, next)[id := next]
  }

  function Elements(q: seq<Id>): (s: set<Id>)
    ensures s == Elems(q)
  {
    set x | x in q
  }

  /** The listed dependencies before the first that names the node itself. */
  ghost function BeforeSelf(dependsOn: seq<Id>, id: Id): set<Id> {
    if dependsOn == [] || dependsOn[0] == id then {} else {dependsOn[0]} + BeforeSelf(dependsOn[1..], id)
  }

  lemma {:induction false} BeforeSelfStops(q: seq<Id>, id: Id, i: nat)
    requires i < |q| && q[i] == id && id !in q[..i]
    ensures BeforeSelf(q[..i], id) == BeforeSelf(q, id)
  {
    if i > 0 {
      assert q[..i][1..] == q[1..][..i - 1] && q[..i][0] == q[0];
      forall x | x in q[1..][..i - 1]
        ensures x in q[..i]
      {
      }
      BeforeSelfStops(q[1..], id, i - 1);
    }
  }

  lemma {:induction false} BeforeSelfGoesOn(q: seq<Id>, id: Id, i: nat)
    requires i < |q| && q[i] != id && id !in q[..i]
    ensures BeforeSelf(q[..i + 1], id) == BeforeSelf(q[..i], id) + {q[i]}
    ensures BeforeSelf(q[..i + 1], id) <= BeforeSelf(q, id)
    ensures id !in q[..i + 1]
  {
    if i == 0 {
      assert q[..1][1..] == [];
    } else {
      assert q[..i][1..] == q[1..][..i - 1] && q[..i][0] == q[0];
      assert q[..i + 1][1..] == q[1..][..i] && q[..i + 1][0] == q[0];
      forall x | x in q[1..][..i - 1]
        ensures x in q[..i]
      {
      }
      BeforeSelfGoesOn(q[1..], id, i - 1);
    }
  }

  lemma {:induction false} BeforeSelfAll(q: seq<Id>, id: Id)
    requires id !in q
    ensures BeforeSelf(q, id) == Elems(q)
  {
    if q != [] {
      BeforeSelfAll(q[1..], id);
      assert Elems(q) == {q[0]} + Elems(q[1..]);
    }
  }

  lemma WithDepsKeys(g: Edges, id: Id, next: set<Id>)
    ensures g.Keys <= WithDeps(g, id, next).Keys
  {
  }

  lemma DeclaredOk(g: Edges, rev: Edges, direct: Dirty, nodes: set<Id>)
    requires GraphOk(g, rev) && direct.Keys <= g.Keys
    ensures var h := WithNodes(g, nodes);
            && GraphOk(h, rev) && direct.Keys <= h.Keys && g.Keys <= h.Keys
            && (forall n :: At(h, n) == At(g, n))
            && (forall n, s, f :: Exact(g, direct, n, s, f) <==> Exact(h, direct, n, s, f))
  {
    hide Reach, IsMaxSeverity;
    var h := WithNodes(g, nodes);
    SameReach(g, h);
    assert forall s :: Minimal(h, s) == Minimal(g, s);
    forall n
      ensures Causes(h, direct, n) == Causes(g, direct, n)
    {
    }
  }

  lemma GraphClosed(g: Edges, rev: Edges)
    requires GraphOk(g, rev)
    ensures Closed(g)
  {
  }

  lemma RewiredOk(g: Edges, rev: Edges, h: Edges, rev': Edges, id: Id, next: set<Id>)
    requires Closed(g) && Inverse(g, rev) && h == WithDeps(g, id, next)
    requires forall a ::
               At(rev', a) == At(rev, a) - (if a in At(g, id) then {id} else {}) + if a in next then {id} else {}
    ensures Closed(h) && Inverse(h, rev') && id in h
    ensures forall n :: n != id ==> At(h, n) == At(g, n)
  {
    forall a, b
      ensures b in At(rev', a) <==> a in At(h, b)
    {
      assert b in At(rev, a) <==> a in At(g, b);
    }
  }

  lemma CyclicHas(g: Edges, cycle: Option<Id>)
    ensures cycle.Some? && Reach(g, cycle.value, cycle.value) ==> !Acyclic(g)
  {
  }

  lemma RemovedOk(g: Edges, rev: Edges, h: Edges, rev': Edges, id: Id)
    requires GraphOk(g, rev) && h == g - {id} && At(rev, id) == {}
    requires exists mid: Edges ::
               rev' == mid - {id} && forall a :: At(mid, a) == At(rev, a) - if a in At(g, id) then {id} else {}
    ensures GraphOk(h, rev')
  {
    hide Reach;
    SubgraphAcyclic(g, h);
    forall n, d | n in h && d in h[n]
      ensures d in h
    {
      assert d in At(g, n) && d in g;
      assert n in At(rev, d);
    }
    forall a, b
      ensures b in At(rev', a) <==> a in At(h, b)
    {
      assert b in At(rev, a) <==> a in At(g, b);
    }
  }

  /** The graph a list of nodes describes; a later entry for the same node replaces the earlier one. */
  ghost function LoadedGraph(nodes: seq<(Id, seq<Id>)>): Edges {
    if nodes == [] then map[]
    else
      var last := nodes[|nodes| - 1];
      WithDeps(LoadedGraph(nodes[..|nodes| - 1]), last.0, Elems(last.1))
  }

  ghost predicate Named(nodes: seq<(Id, seq<Id>)>, n: Id) {
    exists i :: 0 <= i < |nodes| && (nodes[i].0 == n || n in nodes[i].1)
  }

  /** The i-th entry is the last one of its node. */
  ghost predicate IsLast(nodes: seq<(Id, seq<Id>)>, i: int) {
    0 <= i < |nodes| && forall j :: i < j < |nodes| ==> nodes[j].0 != nodes[i].0
  }

  /** The nodes are those that the list names, as a node or as a dependency, and each has the
      dependencies of its last entry. */
  lemma {:induction false} LoadedMeaning(nodes: seq<(Id, seq<Id>)>, n: Id)
    ensures n in LoadedGraph(nodes) <==> Named(nodes, n)
    ensures forall i :: 0 <= i < |nodes| && IsLast(nodes, i) && nodes[i].0 == n ==>
              At(LoadedGraph(nodes), n) == Elems(nodes[i].1)
    ensures (forall i :: 0 <= i < |nodes| ==> nodes[i].0 != n) ==> At(LoadedGraph(nodes), n) == {}
  {
    hide LoadedGraph, Named, IsLast;
    if nodes == [] {
      NothingLoaded(n);
    } else {
      var k := |nodes| - 1;
      LoadedMeaning(nodes[..k], n);
      LoadedMore(nodes);
      NamedMore(nodes, n);
      assert forall i :: 0 <= i < k ==> nodes[..k][i] == nodes[i];
      forall i | 0 <= i < |nodes| && IsLast(nodes, i) && nodes[i].0 == n
        ensures At(LoadedGraph(nodes), n) == Elems(nodes[i].1)
      {
        LastBefore(nodes, i);
      }
    }
  }

  lemma NothingLoaded(n: Id)
    ensures n !in LoadedGraph([]) && !Named([], n) && forall i :: !IsLast([], i)
  {
  }

  lemma LastBefore(nodes: seq<(Id, seq<Id>)>, i: int)
    requires IsLast(nodes, i)
    ensures i == |nodes| - 1 || (IsLast(nodes[..|nodes| - 1], i) && nodes[|nodes| - 1].0 != nodes[i].0)
  {
  }

  lemma NamedMore(nodes: seq<(Id, seq<Id>)>, n: Id)
    requires nodes != []
    ensures var k := |nodes| - 1; Named(nodes, n) <==> Named(nodes[..k], n) || nodes[k].0 == n || n in nodes[k].1
  {
    var k := |nodes| - 1;
    if Named(nodes[..k], n) {
      var i :| 0 <= i < k && (nodes[..k][i].0 == n || n in nodes[..k][i].1);
      assert nodes[i] == nodes[..k][i];
    }
    if i :| 0 <= i < k && (nodes[i].0 == n || n in nodes[i].1) { assert nodes[i] == nodes[..k][i]; }
  }

  lemma LoadedMore(nodes: seq<(Id, seq<Id>)>)
    requires nodes != []
    ensures var k, g := |nodes| - 1, LoadedGraph(nodes[..|nodes| - 1]);
            && LoadedGraph(nodes).Keys == g.Keys + Elems(nodes[k].1) + {nodes[k].0}
            && (forall n :: n in LoadedGraph(nodes) ==>
                  LoadedGraph(nodes)[n] == if n == nodes[k].0 then Elems(nodes[k].1) else At(g, n))
  {
  }

  lemma LoadedClosed(g: Edges, id: Id, next: set<Id>)
    requires Closed(g)
    ensures Closed(WithDeps(g, id, next))
  {
  }
}
