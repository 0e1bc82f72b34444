/** Source invalidation: record indexes, the transitive closure over dependents, and its
    agreement with the incremental frontier engine. */
module SourceInvalidation {
  import opened Dag
  import opened FrontierSpec
  import opened FrontierIndex
  import opened FrontierEngine
  import opened MemoryStatus
  import opened Wrappers

  type Source = string

  datatype Record = Record(
    id: Id, tenantId: string, sources: seq<Source>, dependsOn: seq<Id>, status: Status, content: string)

  type Records = map<Id, Record>

  /** Records are kept under their own ids. */
  ghost predicate ByOwnId(records: Records) { forall id :: id in records ==> records[id].id == id }

  function TenantIds(tenantId: string, records: Records): set<Id> {
    set id | id in records && records[id].tenantId == tenantId
  }

  /** The dependency graph of one tenant's records. */
  function TenantEdges(tenantId: string, records: Records): Edges {
    map id | id in TenantIds(tenantId, records) :: Elements(records[id].dependsOn)
  }

  // ---- indexes --------------------------------------------------------------------------

  function Of<K>(m: map<K, set<Id>>, k: K): set<Id> { if k in m then m[k] else {} }

  datatype Indexes = Indexes(sources: map<Source, set<Id>>, dependents: map<Id, set<Id>>)

  ghost function Citing(tenantId: string, records: Records, s: Source): set<Id> {
    set id | id in TenantIds(tenantId, records) && s in records[id].sources
  }

  ghost function Depending(tenantId: string, records: Records, d: Id): set<Id> {
    set id | id in TenantIds(tenantId, records) && d in records[id].dependsOn
  }

  /** The indexes are exact inverses of the tenant's stored records. */
  ghost predicate Exactly(x: Indexes, tenantId: string, records: Records) {
    && (forall s :: Of(x.sources, s) == Citing(tenantId, records, s))
    && (forall d :: Of(x.dependents, d) == Depending(tenantId, records, d))
  }

  /** The indexes miss no record of the tenant. */
  ghost predicate MissesNothing(x: Indexes, tenantId: string, records: Records) {
    && (forall s :: Citing(tenantId, records, s) <= Of(x.sources, s))
    && (forall d :: Depending(tenantId, records, d) <= Of(x.dependents, d))
  }

  /** The indexes name only records that the store has. */
  ghost predicate Known(x: Indexes, records: Records) {
    && (forall s :: Of(x.sources, s) <= records.Keys)
    && (forall d :: Of(x.dependents, d) <= records.Keys)
  }

  function Added<K>(m: map<K, set<Id>>, keys: seq<K>, id: Id): map<K, set<Id>> {
    if keys == [] then m
    else var rest := Added(m, keys[..|keys| - 1], id); var k := keys[|keys| - 1]; rest[k := Of(rest, k) + {id}]
  }

  function Dropped<K>(m: map<K, set<Id>>, k: K, id: Id): map<K, set<Id>> {
    if k !in m then m else if m[k] - {id} == {} then m - {k} else m[k := m[k] - {id}]
  }

  function Removed<K>(m: map<K, set<Id>>, keys: seq<K>, id: Id): map<K, set<Id>> {
    if keys == [] then m else Dropped(Removed(m, keys[..|keys| - 1], id), keys[|keys| - 1], id)
  }

  lemma {:induction false} AddedAt<K>(m: map<K, set<Id>>, keys: seq<K>, id: Id, k: K)
    ensures Of(Added(m, keys, id), k) == if k in keys then Of(m, k) + {id} else Of(m, k)
  {
    if keys != [] {
      AddedAt(m, keys[..|keys| - 1], id, k);
      assert keys == keys[..|keys| - 1] + [keys[|keys| - 1]];
    }
  }

  lemma {:induction false} RemovedAt<K>(m: map<K, set<Id>>, keys: seq<K>, id: Id, k: K)
    ensures Of(Removed(m, keys, id), k) == if k in keys then Of(m, k) - {id} else Of(m, k)
  {
    if keys != [] {
      RemovedAt(m, keys[..|keys| - 1], id, k);
      assert keys == keys[..|keys| - 1] + [keys[|keys| - 1]];
    }
  }

  function Indexed(x: Indexes, tenantId: string, r: Record): Indexes {
    if r.tenantId != tenantId then x
    else Indexes(Added(x.sources, r.sources, r.id), Added(x.dependents, r.dependsOn, r.id))
  }

  function Deindexed(x: Indexes, tenantId: string, r: Record): Indexes {
    if r.tenantId != tenantId then x
    else Indexes(Removed(x.sources, r.sources, r.id), Removed(x.dependents, r.dependsOn, r.id))
  }

  lemma IndexedAt(x: Indexes, tenantId: string, r: Record)
    ensures forall s :: Of(Indexed(x, tenantId, r).sources, s) ==
                        if r.tenantId == tenantId && s in r.sources then Of(x.sources, s) + {r.id} else Of(x.sources, s)
    ensures forall d :: Of(Indexed(x, tenantId, r).dependents, d) ==
                        if r.tenantId == tenantId && d in r.dependsOn then Of(x.dependents, d) + {r.id}
                        else Of(x.dependents, d)
  {
    forall s { AddedAt(x.sources, r.sources, r.id, s); }
    forall d { AddedAt(x.dependents, r.dependsOn, r.id, d); }
  }

  lemma DeindexedAt(x: Indexes, tenantId: string, r: Record)
    ensures forall s :: Of(Deindexed(x, tenantId, r).sources, s) ==
                        if r.tenantId == tenantId && s in r.sources then Of(x.sources, s) - {r.id} else Of(x.sources, s)
    ensures forall d :: Of(Deindexed(x, tenantId, r).dependents, d) ==
                        if r.tenantId == tenantId && d in r.dependsOn then Of(x.dependents, d) - {r.id}
                        else Of(x.dependents, d)
  {
    forall s { RemovedAt(x.sources, r.sources, r.id, s); }
    forall d { RemovedAt(x.dependents, r.dependsOn, r.id, d); }
  }

  lemma CitingMore(tenantId: string, records: Records, r: Record, s: Source)
    requires r.id !in records
    ensures r.id !in Citing(tenantId, records, s)
    ensures Citing(tenantId, records[r.id := r], s) ==
            Citing(tenantId, records, s) + (if r.tenantId == tenantId && s in r.sources then {r.id} else {})
  {}

  lemma DependingMore(tenantId: string, records: Records, r: Record, d: Id)
    requires r.id !in records
    ensures r.id !in Depending(tenantId, records, d)
    ensures Depending(tenantId, records[r.id := r], d) ==
            Depending(tenantId, records, d) + (if r.tenantId == tenantId && d in r.dependsOn then {r.id} else {})
  {}

  /** Indexing a new record keeps the indexes exact. */
  lemma NewRecordExact(x: Indexes, tenantId: string, records: Records, r: Record)
    requires Exactly(x, tenantId, records) && r.id !in records
    ensures Exactly(Indexed(x, tenantId, r), tenantId, records[r.id := r])
  {
    IndexedAt(x, tenantId, r);
    var now := records[r.id := r];
    hide Indexed, Citing, Depending;
    forall s ensures Of(Indexed(x, tenantId, r).sources, s) == Citing(tenantId, now, s) {
      CitingMore(tenantId, records, r, s);
    }
    forall d ensures Of(Indexed(x, tenantId, r).dependents, d) == Depending(tenantId, now, d) {
      DependingMore(tenantId, records, r, d);
    }
  }

  /** Taking the stored record out of the indexes leaves them exact for the others. */
  lemma OldRecordGone(x: Indexes, tenantId: string, records: Records, id: Id)
    requires ByOwnId(records) && Exactly(x, tenantId, records) && id in records
    ensures Exactly(Deindexed(x, tenantId, records[id]), tenantId, records - {id})
  {
    var r, rest := records[id], records - {id};
    DeindexedAt(x, tenantId, r);
    hide Deindexed;
    forall s ensures Of(Deindexed(x, tenantId, r).sources, s) == Citing(tenantId, rest, s) {
      assert Citing(tenantId, rest, s) == Citing(tenantId, records, s) - {id};
    }
    forall d ensures Of(Deindexed(x, tenantId, r).dependents, d) == Depending(tenantId, rest, d) {
      assert Depending(tenantId, rest, d) == Depending(tenantId, records, d) - {id};
    }
  }

  /** A replaced record is taken out and put in again. */
  lemma ReplacedRecordExact(x: Indexes, tenantId: string, records: Records, r: Record)
    requires ByOwnId(records) && Exactly(x, tenantId, records) && r.id in records
    ensures Exactly(Indexed(Deindexed(x, tenantId, records[r.id]), tenantId, r), tenantId, records[r.id := r])
  {
    OldRecordGone(x, tenantId, records, r.id);
    NewRecordExact(Deindexed(x, tenantId, records[r.id]), tenantId, records - {r.id}, r);
    assert (records - {r.id})[r.id := r] == records[r.id := r];
  }

  /** A status change is invisible to the indexes. */
  lemma SameCitations(x: Indexes, tenantId: string, records: Records, id: Id, status: Status)
    requires ByOwnId(records) && id in records
    ensures var now := records[id := records[id].(status := status)];
            && ByOwnId(now) && (Exactly(x, tenantId, now) <==> Exactly(x, tenantId, records))
            && (Known(x, records) ==> Known(x, now))
  {
    var now := records[id := records[id].(status := status)];
    assert TenantIds(tenantId, now) == TenantIds(tenantId, records);
    forall s ensures Citing(tenantId, now, s) == Citing(tenantId, records, s) {}
    forall d ensures Depending(tenantId, now, d) == Depending(tenantId, records, d) {}
    assert now.Keys == records.Keys;
  }

  /** Registering without looking at the store first misses nothing if and only if nothing had
      been missed before: a record that another writer stored stays missing. */
  lemma RegisterMissesIff(x: Indexes, tenantId: string, records: Records, r: Record)
    requires r.id !in records
    ensures MissesNothing(Indexed(x, tenantId, r), tenantId, records[r.id := r]) <==>
            MissesNothing(x, tenantId, records)
  {
    var y, now := Indexed(x, tenantId, r), records[r.id := r];
    IndexedAt(x, tenantId, r);
    hide Indexed, Citing, Depending;
    forall s
      ensures Citing(tenantId, now, s) <= Of(y.sources, s) <==> Citing(tenantId, records, s) <= Of(x.sources, s)
    {
      CitingMore(tenantId, records, r, s);
    }
    forall d
      ensures Depending(tenantId, now, d) <= Of(y.dependents, d) <==>
              Depending(tenantId, records, d) <= Of(x.dependents, d)
    {
      DependingMore(tenantId, records, r, d);
    }
  }

  // ---- exact conditions for writes behind the runtime's back -------------------------------

  /** The indexes are exact for every record but one. */
  ghost predicate ExactForOthers(x: Indexes, tenantId: string, records: Records, id: Id) {
    && (forall s :: Of(x.sources, s) - {id} == Citing(tenantId, records, s) - {id})
    && (forall d :: Of(x.dependents, d) - {id} == Depending(tenantId, records, d) - {id})
  }

  /** The indexes have the replaced record only where its stored or its new version has it. */
  ghost predicate NoLeftovers(x: Indexes, current: Record, r: Record) {
    && (forall s :: r.id in Of(x.sources, s) ==> s in current.sources || s in r.sources)
    && (forall d :: r.id in Of(x.dependents, d) ==> d in current.dependsOn || d in r.dependsOn)
  }

  /** Indexing a new record makes the indexes exact if and only if they had been exact for all
      the other records and had nothing of this one: what another writer changed since the last
      rebuild stays unnoticed. */
  lemma RegisterExactIff(x: Indexes, tenantId: string, records: Records, r: Record)
    requires r.id !in records && r.tenantId == tenantId
    ensures Exactly(Indexed(x, tenantId, r), tenantId, records[r.id := r]) <==>
            ExactForOthers(x, tenantId, records, r.id) && NoLeftovers(x, r, r)
  {
    var y, now := Indexed(x, tenantId, r), records[r.id := r];
    IndexedAt(x, tenantId, r);
    hide Indexed, Citing, Depending;
    forall s
      ensures Of(y.sources, s) == Citing(tenantId, now, s) <==>
              && Of(x.sources, s) - {r.id} == Citing(tenantId, records, s) - {r.id}
              && (r.id in Of(x.sources, s) ==> s in r.sources)
    {
      CitingAfter(tenantId, records, r, s);
      RewiredIff(Of(x.sources, s), Citing(tenantId, records, s), r.id, false, s in r.sources);
    }
    forall d
      ensures Of(y.dependents, d) == Depending(tenantId, now, d) <==>
              && Of(x.dependents, d) - {r.id} == Depending(tenantId, records, d) - {r.id}
              && (r.id in Of(x.dependents, d) ==> d in r.dependsOn)
    {
      DependingAfter(tenantId, records, r, d);
      RewiredIff(Of(x.dependents, d), Depending(tenantId, records, d), r.id, false, d in r.dependsOn);
    }
  }

  /** Indexes that name only stored records are exact for all but a new one exactly if they are
      exact. */
  lemma NewToIndexes(x: Indexes, tenantId: string, records: Records, r: Record)
    requires Known(x, records) && r.id !in records
    ensures NoLeftovers(x, r, r)
    ensures ExactForOthers(x, tenantId, records, r.id) <==> Exactly(x, tenantId, records)
  {
    forall s ensures Of(x.sources, s) - {r.id} == Of(x.sources, s) { assert Of(x.sources, s) <= records.Keys; }
    forall d ensures Of(x.dependents, d) - {r.id} == Of(x.dependents, d) {
      assert Of(x.dependents, d) <= records.Keys;
    }
    forall s ensures Citing(tenantId, records, s) - {r.id} == Citing(tenantId, records, s) {}
    forall d ensures Depending(tenantId, records, d) - {r.id} == Depending(tenantId, records, d) {}
  }

  function Reindexed(x: Indexes, tenantId: string, current: Record, r: Record): Indexes {
    Indexed(Deindexed(x, tenantId, current), tenantId, r)
  }

  lemma ReindexedAt(x: Indexes, tenantId: string, current: Record, r: Record)
    requires current.id == r.id && current.tenantId == r.tenantId == tenantId
    ensures forall s :: Of(Reindexed(x, tenantId, current, r).sources, s) ==
                        Rewired(Of(x.sources, s), r.id, s in current.sources, s in r.sources)
    ensures forall d :: Of(Reindexed(x, tenantId, current, r).dependents, d) ==
                        Rewired(Of(x.dependents, d), r.id, d in current.dependsOn, d in r.dependsOn)
  {
    DeindexedAt(x, tenantId, current);
    IndexedAt(Deindexed(x, tenantId, current), tenantId, r);
  }

  /** The index entry of one key after a record with this id was taken out and put in again. */
  function Rewired(ids: set<Id>, id: Id, before: bool, after: bool): set<Id> {
    (if before then ids - {id} else ids) + (if after then {id} else {})
  }

  /** Replacing a record makes the indexes exact if and only if they had been exact for all the
      other records and had nothing left over from an older version of this one. */
  lemma ReplaceExactIff(x: Indexes, tenantId: string, records: Records, r: Record)
    requires ByOwnId(records) && r.id in records && records[r.id].tenantId == r.tenantId == tenantId
    ensures Exactly(Reindexed(x, tenantId, records[r.id], r), tenantId, records[r.id := r]) <==>
            ExactForOthers(x, tenantId, records, r.id) && NoLeftovers(x, records[r.id], r)
  {
    var current, y, now := records[r.id], Reindexed(x, tenantId, records[r.id], r), records[r.id := r];
    ReindexedAt(x, tenantId, current, r);
    hide Reindexed;
    forall s
      ensures Of(y.sources, s) == Citing(tenantId, now, s) <==>
              && Of(x.sources, s) - {r.id} == Citing(tenantId, records, s) - {r.id}
              && (r.id in Of(x.sources, s) ==> s in current.sources || s in r.sources)
    {
      CitingAfter(tenantId, records, r, s);
      RewiredIff(Of(x.sources, s), Citing(tenantId, records, s), r.id, s in current.sources, s in r.sources);
    }
    forall d
      ensures Of(y.dependents, d) == Depending(tenantId, now, d) <==>
              && Of(x.dependents, d) - {r.id} == Depending(tenantId, records, d) - {r.id}
              && (r.id in Of(x.dependents, d) ==> d in current.dependsOn || d in r.dependsOn)
    {
      DependingAfter(tenantId, records, r, d);
      RewiredIff(Of(x.dependents, d), Depending(tenantId, records, d), r.id, d in current.dependsOn, d in r.dependsOn);
    }
  }

  lemma CitingAfter(tenantId: string, records: Records, r: Record, s: Source)
    requires r.tenantId == tenantId
    ensures Citing(tenantId, records[r.id := r], s) ==
            (Citing(tenantId, records, s) - {r.id}) + (if s in r.sources then {r.id} else {})
  {}

  lemma DependingAfter(tenantId: string, records: Records, r: Record, d: Id)
    requires r.tenantId == tenantId
    ensures Depending(tenantId, records[r.id := r], d) ==
            (Depending(tenantId, records, d) - {r.id}) + (if d in r.dependsOn then {r.id} else {})
  {}

  lemma RewiredIff(ids: set<Id>, citing: set<Id>, id: Id, before: bool, after: bool)
    ensures Rewired(ids, id, before, after) == (citing - {id}) + (if after then {id} else {}) <==>
            ids - {id} == citing - {id} && (id in ids ==> before || after)
  {
    assert Rewired(ids, id, before, after) - {id} == ids - {id};
    assert ((citing - {id}) + (if after then {id} else {})) - {id} == citing - {id};
    assert id in Rewired(ids, id, before, after) <==> after || (id in ids && !before);
  }

  /** Replacing a record misses nothing if and only if no other record had been missed: a missed
      write of this one is made up for. */
  lemma ReplaceMissesIff(x: Indexes, tenantId: string, records: Records, r: Record)
    requires ByOwnId(records) && r.id in records && records[r.id].tenantId == r.tenantId == tenantId
    ensures MissesNothing(Reindexed(x, tenantId, records[r.id], r), tenantId, records[r.id := r]) <==>
            MissesNothing(x, tenantId, records - {r.id})
  {
    var current, now, rest := records[r.id], records[r.id := r], records - {r.id};
    var y := Reindexed(x, tenantId, current, r);
    ReindexedAt(x, tenantId, current, r);
    hide Reindexed;
    forall s
      ensures Citing(tenantId, now, s) <= Of(y.sources, s) <==> Citing(tenantId, rest, s) <= Of(x.sources, s)
    {
      CitingAfter(tenantId, records, r, s);
      assert Citing(tenantId, rest, s) == Citing(tenantId, records, s) - {r.id};
      RewiredCovers(Of(x.sources, s), Citing(tenantId, records, s), r.id, s in current.sources, s in r.sources);
    }
    forall d
      ensures Depending(tenantId, now, d) <= Of(y.dependents, d) <==>
                Depending(tenantId, rest, d) <= Of(x.dependents, d)
    {
      DependingAfter(tenantId, records, r, d);
      assert Depending(tenantId, rest, d) == Depending(tenantId, records, d) - {r.id};
      RewiredCovers(Of(x.dependents, d), Depending(tenantId, records, d), r.id, d in current.dependsOn,
                    d in r.dependsOn);
    }
  }

  /** Exact indexes name stored records only. */
  lemma ExactKnown(x: Indexes, tenantId: string, records: Records)
    requires Exactly(x, tenantId, records)
    ensures Known(x, records)
  {
    forall s ensures Of(x.sources, s) <= records.Keys { assert Citing(tenantId, records, s) <= records.Keys; }
    forall d ensures Of(x.dependents, d) <= records.Keys { assert Depending(tenantId, records, d) <= records.Keys; }
  }

  lemma KnownKeys(x: Indexes, records: Records, now: Records)
    requires Known(x, records) && now.Keys == records.Keys
    ensures Known(x, now)
  {}

  lemma IndexedKnown(x: Indexes, tenantId: string, records: Records, r: Record)
    requires Known(x, records)
    ensures Known(Indexed(x, tenantId, r), records[r.id := r])
  {
    IndexedAt(x, tenantId, r);
  }

  lemma ReindexedKnown(x: Indexes, tenantId: string, records: Records, current: Record, r: Record)
    requires Known(x, records) && current.id == r.id && current.tenantId == r.tenantId == tenantId
    ensures Known(Reindexed(x, tenantId, current, r), records[r.id := r])
  {
    ReindexedAt(x, tenantId, current, r);
  }

  /** In the reverse index only one record's dependencies change, and to the new ones. */
  ghost predicate Follows(was: map<Id, set<Id>>, now: map<Id, set<Id>>, r: Record) {
    forall a, b :: b in Of(now, a) <==> if b == r.id then a in r.dependsOn else b in Of(was, a)
  }

  lemma RegisterFollows(x: Indexes, tenantId: string, r: Record)
    requires NoLeftovers(x, r, r) && r.tenantId == tenantId
    ensures Follows(x.dependents, Indexed(x, tenantId, r).dependents, r)
  {
    IndexedAt(x, tenantId, r);
    hide Indexed;
    forall a, b
      ensures b in Of(Indexed(x, tenantId, r).dependents, a) <==>
              if b == r.id then a in r.dependsOn else b in Of(x.dependents, a)
    {
      assert r.id in Of(x.dependents, a) ==> a in r.dependsOn;
    }
  }

  lemma ReplaceFollows(x: Indexes, tenantId: string, current: Record, r: Record)
    requires NoLeftovers(x, current, r) && current.id == r.id && current.tenantId == r.tenantId == tenantId
    ensures Follows(x.dependents, Reindexed(x, tenantId, current, r).dependents, r)
  {
    ReindexedAt(x, tenantId, current, r);
    hide Reindexed;
    forall a, b
      ensures b in Of(Reindexed(x, tenantId, current, r).dependents, a) <==>
              if b == r.id then a in r.dependsOn else b in Of(x.dependents, a)
    {
      assert r.id in Of(x.dependents, a) ==> a in current.dependsOn || a in r.dependsOn;
    }
  }

  lemma RewiredCovers(ids: set<Id>, citing: set<Id>, id: Id, before: bool, after: bool)
    ensures (citing - {id}) + (if after then {id} else {}) <= Rewired(ids, id, before, after) <==> citing - {id} <= ids
  {
    var more := (citing - {id}) + (if after then {id} else {});
    if citing - {id} <= ids {
      forall n | n in more ensures n in Rewired(ids, id, before, after) { assert n == id || n in citing - {id}; }
    }
    if more <= Rewired(ids, id, before, after) {
      forall n | n in citing - {id} ensures n in ids { assert n in more; }
    }
  }

  // ---- the closure ----------------------------------------------------------------------

  /** n is a seed or depends on one, directly or through others. */
  ghost predicate Affected(g: Edges, seeds: set<Id>, n: Id) {
    exists s :: s in seeds && Below(g, s, n)
  }

  lemma {:induction false} ClosedPath(g: Edges, closed: set<Id>, p: seq<Id>)
    requires IsPath(g, p) && p[0] in closed
    requires forall a, b :: a in closed && a in At(g, b) ==> b in closed
    ensures p[|p| - 1] in closed
    decreases |p|
  {
    if |p| > 1 {
      ClosedPath(g, closed, p[..|p| - 1]);
      assert p[|p| - 2] in At(g, p[|p| - 1]);
    }
  }

  /** A set that has the seeds and all dependents of its members has everything affected. */
  lemma ClosedHasAffected(g: Edges, seeds: set<Id>, closed: set<Id>, n: Id)
    requires seeds <= closed && Affected(g, seeds, n)
    requires forall a, b :: a in closed && a in At(g, b) ==> b in closed
    ensures n in closed
  {
    var s :| s in seeds && Below(g, s, n);
    if s != n {
      var p :| IsPath(g, p) && |p| >= 2 && p[0] == s && p[|p| - 1] == n;
      ClosedPath(g, closed, p);
    }
  }

  lemma AffectedNext(g: Edges, seeds: set<Id>, a: Id, b: Id)
    requires Affected(g, seeds, a) && a in At(g, b)
    ensures Affected(g, seeds, b)
  {
    var s :| s in seeds && Below(g, s, a);
    EdgeReaches(g, a, b);
    BelowTransitive(g, s, a, b);
  }

  function Everyone(dependents: map<Id, set<Id>>): set<Id> {
    set a, b | a in dependents && b in dependents[a] :: b
  }

  /** The queue lists exactly the seen memories, once each, all of them affected. */
  ghost predicate QueueOk(g: Edges, seeds: set<Id>, bound: set<Id>, queue: seq<Id>, seen: set<Id>) {
    && seeds <= seen <= bound && |queue| == |seen| && NoRepeats(queue)
    && (forall n :: n in queue <==> n in seen)
    && (forall n :: n in seen ==> Affected(g, seeds, n))
  }

  lemma PushSeen(g: Edges, seeds: set<Id>, bound: set<Id>, queue: seq<Id>, seen: set<Id>, n: Id)
    requires QueueOk(g, seeds, bound, queue, seen) && n !in seen && n in bound && Affected(g, seeds, n)
    ensures QueueOk(g, seeds, bound, queue + [n], seen + {n})
  {
    PushNew(queue, n);
  }

  lemma QueueFits(g: Edges, seeds: set<Id>, bound: set<Id>, queue: seq<Id>, seen: set<Id>)
    requires QueueOk(g, seeds, bound, queue, seen)
    ensures |queue| <= |bound|
  {
    SizeWithin(seen, bound);
  }

  /** Queues the dependents of one memory that have not been seen. */
  method QueueDependents(dependents: map<Id, set<Id>>, ghost g: Edges, ghost seeds: set<Id>, ghost bound: set<Id>,
                         memoryId: Id, queue0: seq<Id>, seen0: set<Id>)
    returns (queue: seq<Id>, seen: set<Id>)
    requires QueueOk(g, seeds, bound, queue0, seen0) && Affected(g, seeds, memoryId) && Everyone(dependents) <= bound
    requires forall a, b :: b in Of(dependents, a) <==> a in At(g, b)
    ensures QueueOk(g, seeds, bound, queue, seen) && queue0 <= queue && seen0 <= seen
    ensures Of(dependents, memoryId) <= seen
  {
    hide QueueOk, Affected;
    queue, seen := queue0, seen0;
    var left := Of(dependents, memoryId);
    while left != {}
      invariant left <= Of(dependents, memoryId)
      invariant QueueOk(g, seeds, bound, queue, seen) && queue0 <= queue && seen0 <= seen
      invariant Of(dependents, memoryId) - left <= seen
      decreases |left|
    {
      var dependentId :| dependentId in left;
      left := left - {dependentId};
      if dependentId in seen { continue; }
      AffectedNext(g, seeds, memoryId, dependentId);
      assert dependentId in Everyone(dependents);
      PushSeen(g, seeds, bound, queue, seen, dependentId);
      seen := seen + {dependentId};
      queue := queue + [dependentId];
    }
  }

  /** The breadth-first closure over the reverse index, each memory listed once. */
  method DependentClosure(dependents: map<Id, set<Id>>, seeds: set<Id>, ghost g: Edges) returns (result: seq<Id>)
    requires forall a, b :: b in Of(dependents, a) <==> a in At(g, b)
    ensures forall n :: n in result <==> Affected(g, seeds, n)
    ensures NoRepeats(result)
  {
    hide Affected, QueueOk, NoRepeats, Processed, Of;
    var queue, seen := Listed(seeds);
    ghost var bound := seeds + Everyone(dependents);
    QueueStart(g, seeds, bound, queue);
    NothingProcessed(dependents, queue, seen);
    var cursor := 0;
    result := [];
    while cursor < |queue|
      invariant 0 <= cursor <= |queue| && result == queue[..cursor]
      invariant QueueOk(g, seeds, bound, queue, seen)
      invariant Processed(dependents, queue, cursor, seen)
      decreases |bound| - cursor
    {
      QueueFits(g, seeds, bound, queue, seen);
      var memoryId := queue[cursor];
      QueuedAffected(g, seeds, bound, queue, seen, cursor);
      result := result + [memoryId];
      ghost var before, known := queue, seen;
      queue, seen := QueueDependents(dependents, g, seeds, bound, memoryId, queue, seen);
      ProcessedOne(dependents, before, queue, cursor, known, seen);
      cursor := cursor + 1;
    }
    assert queue[..cursor] == queue;
    QueueComplete(dependents, g, seeds, bound, queue, seen);
  }

  ghost predicate Processed(dependents: map<Id, set<Id>>, queue: seq<Id>, cursor: nat, seen: set<Id>) {
    cursor <= |queue| && forall i :: 0 <= i < cursor ==> Of(dependents, queue[i]) <= seen
  }

  lemma NothingProcessed(dependents: map<Id, set<Id>>, queue: seq<Id>, seen: set<Id>)
    ensures Processed(dependents, queue, 0, seen) && queue[..0] == []
  {}

  lemma ProcessedOne(dependents: map<Id, set<Id>>, before: seq<Id>, queue: seq<Id>, cursor: nat, known: set<Id>,
                     seen: set<Id>)
    requires before <= queue && known <= seen && cursor < |before|
    requires Processed(dependents, before, cursor, known) && Of(dependents, before[cursor]) <= seen
    ensures Processed(dependents, queue, cursor + 1, seen)
    ensures queue[..cursor + 1] == before[..cursor] + [before[cursor]]
  {
    hide Of;
    assert forall i :: 0 <= i < |before| ==> queue[i] == before[i];
  }

  lemma QueueStart(g: Edges, seeds: set<Id>, bound: set<Id>, queue: seq<Id>)
    requires seeds <= bound && |queue| == |seeds| && NoRepeats(queue) && forall n :: n in queue <==> n in seeds
    ensures QueueOk(g, seeds, bound, queue, seeds)
  {
    forall n | n in seeds ensures Affected(g, seeds, n) { SeedAffected(g, seeds, n); }
  }

  lemma QueuedAffected(g: Edges, seeds: set<Id>, bound: set<Id>, queue: seq<Id>, seen: set<Id>, i: nat)
    requires QueueOk(g, seeds, bound, queue, seen) && i < |queue|
    ensures Affected(g, seeds, queue[i])
  {
    assert queue[i] in queue;
  }

  lemma QueueComplete(dependents: map<Id, set<Id>>, g: Edges, seeds: set<Id>, bound: set<Id>, queue: seq<Id>,
                      seen: set<Id>)
    requires forall a, b :: b in Of(dependents, a) <==> a in At(g, b)
    requires QueueOk(g, seeds, bound, queue, seen)
    requires Processed(dependents, queue, |queue|, seen)
    ensures NoRepeats(queue) && forall n :: n in queue <==> Affected(g, seeds, n)
  {
    ClosedSeen(dependents, g, queue, seen);
    hide Affected;
    forall n | Affected(g, seeds, n) ensures n in queue { ClosedHasAffected(g, seeds, seen, n); }
  }

  ghost predicate NoRepeats(q: seq<Id>) { forall i, j :: 0 <= i < j < |q| ==> q[i] != q[j] }

  lemma PushNew(q: seq<Id>, n: Id)
    requires NoRepeats(q) && n !in q
    ensures NoRepeats(q + [n]) && forall m :: m in q + [n] <==> m in q || m == n
  {}

  lemma SeedAffected(g: Edges, seeds: set<Id>, n: Id)
    requires n in seeds
    ensures Affected(g, seeds, n)
  {
    assert Below(g, n, n);
  }

  lemma ClosedSeen(dependents: map<Id, set<Id>>, g: Edges, queue: seq<Id>, seen: set<Id>)
    requires forall a, b :: b in Of(dependents, a) <==> a in At(g, b)
    requires forall n :: n in queue <==> n in seen
    requires forall i :: 0 <= i < |queue| ==> Of(dependents, queue[i]) <= seen
    ensures forall a, b :: a in seen && a in At(g, b) ==> b in seen
  {
    forall a, b | a in seen && a in At(g, b) ensures b in seen {
      assert a in queue;
      var i :| 0 <= i < |queue| && queue[i] == a;
      assert b in Of(dependents, a);
    }
  }

  method Listed(seeds: set<Id>) returns (queue: seq<Id>, seen: set<Id>)
    ensures seen == seeds && |queue| == |seen| && NoRepeats(queue)
    ensures forall n :: n in queue <==> n in seen
  {
    queue, seen := [], {};
    var left := seeds;
    while left != {}
      invariant left !! seen && left + seen == seeds && |queue| == |seen| && NoRepeats(queue)
      invariant forall n :: n in queue <==> n in seen
      decreases |left|
    {
      var seed :| seed in left;
      PushNew(queue, seed);
      left, seen, queue := left - {seed}, seen + {seed}, queue + [seed];
    }
  }

  // ---- the two ways to the affected set --------------------------------------------------

  /** The dependency graph that a reverse index describes. */
  ghost function Inverted(dependents: map<Id, set<Id>>): Edges {
    map b | b in Everyone(dependents) :: set a | a in dependents && b in dependents[a]
  }

  lemma InvertedEdges(dependents: map<Id, set<Id>>)
    ensures forall a, b :: b in Of(dependents, a) <==> a in At(Inverted(dependents), b)
  {
    forall a, b ensures b in Of(dependents, a) <==> a in At(Inverted(dependents), b) {
      if b in Of(dependents, a) { assert b in Everyone(dependents); }
    }
  }

  ghost predicate SameEdges(g: Edges, h: Edges) { forall a, b :: a in At(g, b) <==> a in At(h, b) }

  lemma SameEdgesReach(g: Edges, h: Edges, a: Id, b: Id)
    requires SameEdges(g, h) && Reach(g, a, b)
    ensures Reach(h, a, b)
  {
    var p :| IsPath(g, p) && |p| >= 2 && p[0] == a && p[|p| - 1] == b;
    assert IsPath(h, p);
  }

  lemma SameEdgesAffected(g: Edges, h: Edges, seeds: set<Id>)
    requires SameEdges(g, h)
    ensures forall n :: Affected(g, seeds, n) <==> Affected(h, seeds, n)
  {
    forall n ensures Affected(g, seeds, n) <==> Affected(h, seeds, n) {
      if s :| s in seeds && Below(g, s, n) { if s != n { SameEdgesReach(g, h, s, n); } assert Below(h, s, n); }
      if s :| s in seeds && Below(h, s, n) { if s != n { SameEdgesReach(h, g, s, n); } assert Below(g, s, n); }
    }
  }

  /** What the engine reports for known seeds is everything affected. */
  lemma ReachOfIsAffected(g: Edges, seeds: set<Id>)
    requires seeds <= g.Keys
    ensures forall n :: n in ReachOf(g, seeds) <==> Affected(g, seeds, n)
  {
    forall n | Affected(g, seeds, n) ensures n in ReachOf(g, seeds) {
      var s :| s in seeds && Below(g, s, n);
      if s != n { var c := ReachLast(g, s, n); }
    }
  }

  /** Exact indexes describe the graph of the tenant's records. */
  lemma ExactEdges(x: Indexes, tenantId: string, records: Records)
    requires Exactly(x, tenantId, records)
    ensures SameEdges(Inverted(x.dependents), TenantEdges(tenantId, records))
  {
    InvertedEdges(x.dependents);
    forall a, b ensures a in At(Inverted(x.dependents), b) <==> a in At(TenantEdges(tenantId, records), b) {
      assert b in Of(x.dependents, a) <==> b in Depending(tenantId, records, a);
    }
  }

  ghost function DirectlyAffected(tenantId: string, records: Records, changed: set<Source>): set<Id> {
    set id | id in TenantIds(tenantId, records) && exists s :: s in changed && s in records[id].sources
  }

  predicate Usable(r: Record) { r.status != STALE && r.status != INVALID }

  /** Every record of the tenant that cites a changed source, or depends on one that does, is
      no longer usable. */
  ghost predicate NoneUsable(tenantId: string, records: Records, changed: set<Source>) {
    forall id :: id in TenantIds(tenantId, records)
                 && Affected(TenantEdges(tenantId, records), DirectlyAffected(tenantId, records, changed), id) ==>
      !Usable(records[id])
  }

  /** The indexes name n as citing a changed source, or as depending on such a memory in g. */
  ghost predicate Reported(x: Indexes, g: Edges, changed: set<Source>, n: Id) {
    exists s :: s in changed && Affected(g, Of(x.sources, s), n)
  }

  /** Every usable record that a change of these sources affects is reported. */
  ghost predicate LeavesNone(x: Indexes, g: Edges, tenantId: string, records: Records, changed: set<Source>) {
    forall id :: id in TenantIds(tenantId, records) && Usable(records[id])
                 && Affected(TenantEdges(tenantId, records), DirectlyAffected(tenantId, records, changed), id) ==>
      Reported(x, g, changed, id)
  }

  /** The indexes miss no usable record: whoever a source affects is found from that source. */
  ghost predicate MissesNoUsable(x: Indexes, g: Edges, tenantId: string, records: Records) {
    forall s, id {:trigger Affected(g, Of(x.sources, s), id)} ::
      s != "" && id in TenantIds(tenantId, records) && Usable(records[id])
      && Affected(TenantEdges(tenantId, records), Citing(tenantId, records, s), id) ==>
        Affected(g, Of(x.sources, s), id)
  }

  /** No change of sources leaves an affected record usable if and only if the indexes miss no
      usable record. */
  lemma NoneLeftIff(x: Indexes, g: Edges, tenantId: string, records: Records)
    ensures (forall changed :: "" !in changed ==> LeavesNone(x, g, tenantId, records, changed)) <==>
            MissesNoUsable(x, g, tenantId, records)
  {
    hide Affected, TenantEdges, Usable;
    if forall changed :: "" !in changed ==> LeavesNone(x, g, tenantId, records, changed) {
      forall s, id | s != "" && id in TenantIds(tenantId, records) && Usable(records[id])
                     && Affected(TenantEdges(tenantId, records), Citing(tenantId, records, s), id)
        ensures Affected(g, Of(x.sources, s), id)
      {
        assert LeavesNone(x, g, tenantId, records, {s});
        assert DirectlyAffected(tenantId, records, {s}) == Citing(tenantId, records, s);
        var t :| t in {s} && Affected(g, Of(x.sources, t), id);
        assert t == s;
      }
    }
    if MissesNoUsable(x, g, tenantId, records) {
      forall changed | "" !in changed ensures LeavesNone(x, g, tenantId, records, changed) {
        forall id | id in TenantIds(tenantId, records) && Usable(records[id])
                    && Affected(TenantEdges(tenantId, records), DirectlyAffected(tenantId, records, changed), id)
          ensures Reported(x, g, changed, id)
        {
          var s := AffectedByOne(tenantId, records, changed, id);
          assert Affected(g, Of(x.sources, s), id);
        }
      }
    }
  }

  /** Indexes that miss no record miss no usable one. */
  lemma NothingMissedIsEnough(x: Indexes, tenantId: string, records: Records)
    requires MissesNothing(x, tenantId, records)
    ensures MissesNoUsable(x, Inverted(x.dependents), tenantId, records)
  {
    var g, h := Inverted(x.dependents), TenantEdges(tenantId, records);
    InvertedEdges(x.dependents);
    forall n, a | a in At(h, n) ensures a in At(g, n) {
      assert n in Depending(tenantId, records, a);
    }
    hide Inverted, TenantEdges, Reach, At;
    forall s, id | Affected(h, Citing(tenantId, records, s), id) ensures Affected(g, Of(x.sources, s), id) {
      var m :| m in Citing(tenantId, records, s) && Below(h, m, id);
      if m != id { SubgraphReach(g, h, m, id); }
      assert m in Of(x.sources, s) && Below(g, m, id);
    }
  }

  /** Graphs with the same edges report the same. */
  lemma SameEdgesLeave(x: Indexes, g: Edges, h: Edges, tenantId: string, records: Records, changed: set<Source>)
    requires SameEdges(g, h)
    ensures LeavesNone(x, g, tenantId, records, changed) <==> LeavesNone(x, h, tenantId, records, changed)
  {
    forall s ensures forall n :: Affected(g, Of(x.sources, s), n) <==> Affected(h, Of(x.sources, s), n) {
      SameEdgesAffected(g, h, Of(x.sources, s));
    }
    hide Affected, SameEdges, TenantEdges, Usable;
    assert forall n :: Reported(x, g, changed, n) <==> Reported(x, h, changed, n);
  }

  lemma AffectedByOne(tenantId: string, records: Records, changed: set<Source>, id: Id) returns (s: Source)
    requires Affected(TenantEdges(tenantId, records), DirectlyAffected(tenantId, records, changed), id)
    ensures s in changed && Affected(TenantEdges(tenantId, records), Citing(tenantId, records, s), id)
  {
    hide Below, TenantEdges;
    var m :| m in DirectlyAffected(tenantId, records, changed) && Below(TenantEdges(tenantId, records), m, id);
    s :| s in changed && s in records[m].sources;
    assert m in Citing(tenantId, records, s);
  }

  /** What the closure finds from the directly citing memories is what is reported. */
  lemma ReportedIff(x: Indexes, g: Edges, changed: set<Source>, direct: set<Id>)
    requires forall id :: id in direct <==> exists s :: s in changed && id in Of(x.sources, s)
    ensures forall n :: Affected(g, direct, n) <==> Reported(x, g, changed, n)
  {
    hide Below;
    forall n ensures Affected(g, direct, n) <==> Reported(x, g, changed, n) {
      if Affected(g, direct, n) {
        var m :| m in direct && Below(g, m, n);
        var s :| s in changed && m in Of(x.sources, s);
        assert Affected(g, Of(x.sources, s), n);
      }
      if Reported(x, g, changed, n) {
        var s :| s in changed && Affected(g, Of(x.sources, s), n);
        var m :| m in Of(x.sources, s) && Below(g, m, n);
        assert m in direct;
      }
    }
  }

  /** The records are the same but for statuses, which may have become STALE. */
  ghost predicate OnlyStaled(was: Records, now: Records, affected: set<Id>) {
    && now.Keys == was.Keys
    && (forall id :: id in was && id !in affected ==> now[id] == was[id])
    && (forall id :: id in was ==> now[id] == was[id] || (Usable(was[id]) && now[id] == was[id].(status := STALE)))
  }

  // ---- what the engine knows of the statuses -------------------------------------------------

  /** The engine's direct states are of the tenant's records. It knows exactly the INVALID ones and
      all that are UNKNOWN; one that it has as STALE is stored so, and one that it has as UNKNOWN may
      have become STALE in the store. Other STALE records depend on a changed source only
      indirectly. */
  ghost predicate StatesAgree(dirty: Dirty, tenantId: string, records: Records) {
    && (forall id :: id in dirty ==>
          && id in TenantIds(tenantId, records)
          && (dirty[id] == INVALID <==> records[id].status == INVALID)
          && (dirty[id] == STALE ==> records[id].status == STALE)
          && (dirty[id] == Status.UNKNOWN ==> records[id].status == STALE || records[id].status == Status.UNKNOWN))
    && (forall id :: id in TenantIds(tenantId, records) && records[id].status == INVALID ==>
          StateIs(dirty, id, INVALID))
    && (forall id :: id in TenantIds(tenantId, records) && records[id].status == Status.UNKNOWN ==>
          StateIs(dirty, id, Status.UNKNOWN))
  }

  function WithState(dirty: Dirty, id: Id, status: Status): Dirty {
    if status == FRESH then dirty - {id} else dirty[id := status]
  }

  lemma RecordStates(dirty: Dirty, tenantId: string, records: Records, r: Record)
    requires StatesAgree(dirty, tenantId, records) && r.tenantId == tenantId
    ensures StatesAgree(WithState(dirty, r.id, r.status), tenantId, records[r.id := r])
  {
    var now := records[r.id := r];
    assert forall id :: id != r.id ==> (id in TenantIds(tenantId, now) <==> id in TenantIds(tenantId, records));
    assert r.id in TenantIds(tenantId, now);
  }

  lemma MarkInvalid(dirty: Dirty, id: Id)
    ensures MarkAll(dirty, {id}, INVALID) == WithState(dirty, id, INVALID)
  {}

  lemma SignalStates(dirty: Dirty, tenantId: string, was: Records, now: Records, direct: set<Id>, affected: set<Id>)
    requires StatesAgree(dirty, tenantId, was) && NoFresh(dirty)
    requires direct <= affected && direct <= TenantIds(tenantId, was)
    requires OnlyStaled(was, now, affected) && NoTenantUsable(tenantId, now, affected)
    ensures StatesAgree(MarkAll(dirty, direct, STALE), tenantId, now)
  {
    assert TenantIds(tenantId, now) == TenantIds(tenantId, was);
    var marked := MarkAll(dirty, direct, STALE);
    hide TenantIds, MarkAll;
    forall id | id in TenantIds(tenantId, was)
      ensures id in marked ==>
                && (marked[id] == INVALID <==> now[id].status == INVALID)
                && (marked[id] == STALE ==> now[id].status == STALE)
                && (marked[id] == Status.UNKNOWN ==> now[id].status == STALE || now[id].status == Status.UNKNOWN)
      ensures now[id].status == INVALID ==> StateIs(marked, id, INVALID)
      ensures now[id].status == Status.UNKNOWN ==> StateIs(marked, id, Status.UNKNOWN)
    {
      SignalState(dirty, was[id], now[id], id, direct, id in affected);
    }
    MarkedKeys(dirty, direct);
  }

  lemma MarkedKeys(dirty: Dirty, direct: set<Id>)
    ensures MarkAll(dirty, direct, STALE).Keys == dirty.Keys + direct
  {}

  /** What a signal does to one record and to the engine's state of it. */
  lemma SignalState(dirty: Dirty, was: Record, now: Record, id: Id, direct: set<Id>, affected: bool)
    requires id in dirty ==>
               && dirty[id] != FRESH && (dirty[id] == INVALID <==> was.status == INVALID)
               && (dirty[id] == STALE ==> was.status == STALE)
               && (dirty[id] == Status.UNKNOWN ==> was.status == STALE || was.status == Status.UNKNOWN)
    requires was.status == INVALID || was.status == Status.UNKNOWN ==> StateIs(dirty, id, was.status)
    requires now.status == was.status || (Usable(was) && now.status == STALE)
    requires if affected then !Usable(now) else now.status == was.status
    requires id in direct ==> affected
    ensures var marked := MarkAll(dirty, direct, STALE);
            && (id in marked ==>
                  && (marked[id] == INVALID <==> now.status == INVALID)
                  && (marked[id] == STALE ==> now.status == STALE)
                  && (marked[id] == Status.UNKNOWN ==> now.status == STALE || now.status == Status.UNKNOWN))
            && (now.status == INVALID ==> StateIs(marked, id, INVALID))
            && (now.status == Status.UNKNOWN ==> StateIs(marked, id, Status.UNKNOWN))
  {}

  lemma SnapshotAgrees(tenantId: string, records: Records, nodes: seq<(Id, seq<Id>)>, states: seq<(Id, Status)>)
    requires NodesOf(tenantId, records, nodes) && |states| == |nodes|
    requires forall i :: 0 <= i < |nodes| ==> states[i] == (nodes[i].0, records[nodes[i].0].status)
    ensures forall id, s: Status ::
              StateIs(SnapshotStates(states), id, s) <==>
                id in TenantIds(tenantId, records) && records[id].status == s && s != FRESH
    ensures StatesAgree(SnapshotStates(states), tenantId, records)
  {
    SnapshotMeaning(states);
    var dirty := SnapshotStates(states);
    hide SnapshotStates;
    forall id, s: Status
      ensures StateIs(dirty, id, s) <==> id in TenantIds(tenantId, records) && records[id].status == s && s != FRESH
    {
      if id in TenantIds(tenantId, records) {
        assert HasNode(nodes, id);
        var i :| 0 <= i < |nodes| && nodes[i].0 == id;
        assert states[i] == (id, records[id].status);
      }
      if id in dirty {
        assert id in SnapshotIds(states);
        var i :| 0 <= i < |states| && states[i].0 == id;
        assert nodes[i].0 == id;
      }
    }
    hide TenantIds;
    forall id | id in dirty ensures StateIs(dirty, id, dirty[id]) {}
  }

  /** What a complete answer of the engine says of the stored records at or above one. */
  ghost predicate FrontierTells(tenantId: string, records: Records, n: Id, answer: FrontierResult) {
    var g := TenantEdges(tenantId, records);
    && (answer.status == INVALID <==>
          exists id :: id in TenantIds(tenantId, records) && Below(g, id, n) && records[id].status == INVALID)
    && (answer.status == FRESH || answer.status == STALE ==>
          forall id :: id in TenantIds(tenantId, records) && Below(g, id, n) ==>
            records[id].status == FRESH || records[id].status == STALE)
    && (forall id :: id in answer.frontier ==>
          id in TenantIds(tenantId, records) && Below(g, id, n) && records[id].status != FRESH)
    && (answer.status == FRESH <==> answer.frontier == {})
  }

  lemma AnswerTells(g: Edges, dirty: Dirty, tenantId: string, records: Records, n: Id, answer: FrontierResult)
    requires StatesAgree(dirty, tenantId, records) && SameEdges(g, TenantEdges(tenantId, records))
    requires Acyclic(g) && NoFresh(dirty) && Exact(g, dirty, n, answer.status, answer.frontier)
    ensures FrontierTells(tenantId, records, n, answer)
  {
    hide SameEdges, Below, Acyclic, Exact, TenantEdges, NoFresh, Reach;
    var h := TenantEdges(tenantId, records);
    BelowAlike(g, h, n);
    StatusMeaning(g, dirty, n, answer.status, answer.frontier);
    FrontierTold(g, dirty, n, answer.status, answer.frontier);
    if answer.status == INVALID {
      var id :| id in dirty && Below(g, id, n) && dirty[id] == INVALID;
      assert id in TenantIds(tenantId, records) && Below(h, id, n) && records[id].status == INVALID;
    }
    if id :| id in TenantIds(tenantId, records) && Below(h, id, n) && records[id].status == INVALID {
      assert StateIs(dirty, id, INVALID) && Below(g, id, n);
    }
    forall id | id in TenantIds(tenantId, records) && Below(h, id, n) && records[id].status == Status.UNKNOWN
      ensures answer.status == INVALID || answer.status == Status.UNKNOWN
    {
      assert StateIs(dirty, id, Status.UNKNOWN) && Below(g, id, n);
    }
    forall id | id in answer.frontier
      ensures id in TenantIds(tenantId, records) && Below(h, id, n) && records[id].status != FRESH
    {
      assert id in dirty && Below(g, id, n) && dirty[id] != FRESH;
    }
  }

  lemma BelowAlike(g: Edges, h: Edges, n: Id)
    requires SameEdges(g, h)
    ensures forall a :: Below(g, a, n) <==> Below(h, a, n)
  {
    SameEdgesBack(g, h);
    hide SameEdges;
    forall a ensures Below(g, a, n) <==> Below(h, a, n) {
      if Reach(g, a, n) { SameEdgesReach(g, h, a, n); }
      if Reach(h, a, n) { SameEdgesReach(h, g, a, n); }
    }
  }

  lemma FrontierTold(g: Edges, dirty: Dirty, n: Id, status: Status, frontier: set<Id>)
    requires Acyclic(g) && NoFresh(dirty) && Exact(g, dirty, n, status, frontier)
    ensures forall id :: id in frontier ==> id in dirty && Below(g, id, n) && dirty[id] != FRESH
    ensures status == FRESH <==> frontier == {}
  {
    FrontierMeaning(g, dirty, n, status, frontier);
  }

  lemma SameEdgesBack(g: Edges, h: Edges)
    requires SameEdges(g, h)
    ensures SameEdges(h, g)
  {}

  // ---- the store and the runtime --------------------------------------------------------

  /** The shared store; any writer may put or replace records, and a store need not report a revision. */
  class RecordStore {
    const reportsRevision: bool
    var records: Records
    var revision: nat

    constructor (reportsRevision: bool)
      ensures this.reportsRevision == reportsRevision && records == map[] && revision == 0
    {
      this.reportsRevision := reportsRevision;
      records, revision := map[], 0;
    }

    function Revision(): Option<nat>
      reads this
    {
      if reportsRevision then Some(revision) else None
    }

    method Put(r: Record)
      modifies this
      ensures records == old(records)[r.id := r] && revision == old(revision) + 1
    {
      records := records[r.id := r];
      revision := revision + 1;
    }

    /** A restored snapshot or a compaction. */
    method ReplaceAll(replacement: Records)
      modifies this
      ensures records == replacement && revision == old(revision) + |replacement|
    {
      records := replacement;
      revision := revision + |records|;
    }
  }

  class PremiseRuntime {
    const tenantId: string
    const store: RecordStore
    const budget: nat
    const closureCacheLimit: nat
    var sourceMemoryIds: map<Source, set<Id>>
    var dependentsByDependency: map<Id, set<Id>>
    var indexedStoreRevision: Option<nat>
    var frontierEngine: IncrementalFrontierEngine?

    ghost function Maintained(): Indexes
      reads this
    {
      Indexes(sourceMemoryIds, dependentsByDependency)
    }

    ghost predicate Valid()
      reads this, store, frontierEngine
    {
      && ByOwnId(store.records)
      && (indexedStoreRevision.Some? ==> indexedStoreRevision.value <= store.revision)
      && (frontierEngine != null ==> frontierEngine.Valid())
    }

    /** The indexes name only records that the store has. */
    ghost predicate NamesStored()
      reads this, store
    {
      Known(Maintained(), store.records)
    }

    /** As long as it is trusted the engine has the graph that the reverse index describes. */
    ghost predicate EngineAgrees()
      reads this, frontierEngine
    {
      frontierEngine != null && frontierEngine.trusted ==>
        SameEdges(frontierEngine.dependencies, Inverted(dependentsByDependency))
    }

    /** As long as it is trusted the engine's direct states agree with the stored statuses. */
    ghost predicate StatesInStep()
      reads this, store, frontierEngine
    {
      frontierEngine != null && frontierEngine.trusted ==>
        StatesAgree(frontierEngine.directDirty, tenantId, store.records)
    }

    /** They agree, or the next refresh will make them. */
    ghost predicate StatesOk()
      reads this, store, frontierEngine
    {
      WillRebuild() || StatesInStep()
    }

    ghost predicate Synced()
      reads this, store, frontierEngine
    {
      Exactly(Maintained(), tenantId, store.records) && EngineAgrees()
    }

    /** A refresh will find that the store has changed, or cannot tell. */
    ghost predicate WillRebuild()
      reads this, store
    {
      store.Revision() == None || store.Revision() != indexedStoreRevision
    }

    /** The indexes are in step with the store, or the next refresh will make them so. */
    ghost predicate InStep()
      reads this, store, frontierEngine
    {
      WillRebuild() || Synced()
    }

    constructor (tenantId: string, store: RecordStore, incremental: bool, budget: nat, closureCacheLimit: nat)
      requires ByOwnId(store.records)
      ensures Valid() && Synced() && StatesInStep() && this.tenantId == tenantId && this.store == store
      ensures indexedStoreRevision == store.Revision()
      ensures (frontierEngine != null <==> incremental) && (frontierEngine != null ==> fresh(frontierEngine))
    {
      this.tenantId, this.store, this.budget, this.closureCacheLimit := tenantId, store, budget, closureCacheLimit;
      sourceMemoryIds, dependentsByDependency, indexedStoreRevision := map[], map[], None;
      frontierEngine := null;
      new;
      if incremental { frontierEngine := new IncrementalFrontierEngine(budget, closureCacheLimit); }
      RebuildIndexes();
    }

    /** Rebuilds both indexes, and the engine from the same records; a graph the engine does
        not accept leaves it empty and distrusted. */
    method RebuildIndexes()
      requires ByOwnId(store.records)
      modifies this
      ensures Valid() && Synced() && StatesInStep() && NamesStored() && indexedStoreRevision == store.Revision()
      ensures frontierEngine == null <==> old(frontierEngine) == null
      ensures frontierEngine != null ==> fresh(frontierEngine)
    {
      hide Exactly, SameEdges, Inverted, TenantEdges, Known, StatesAgree;
      IndexAll();
      ExactKnown(Maintained(), tenantId, store.records);
      ExactEdges(Maintained(), tenantId, store.records);
      if frontierEngine != null { frontierEngine := BuildEngine(dependentsByDependency); }
      indexedStoreRevision := store.Revision();
    }

    method BuildEngine(ghost dependents: map<Id, set<Id>>) returns (engine: IncrementalFrontierEngine)
      requires ByOwnId(store.records) && SameEdges(Inverted(dependents), TenantEdges(tenantId, store.records))
      ensures fresh(engine) && engine.Valid()
      ensures engine.trusted ==> SameEdges(engine.dependencies, Inverted(dependents))
      ensures engine.trusted ==> StatesAgree(engine.directDirty, tenantId, store.records)
      ensures engine.trusted ==> forall id, s: Status ::
                StateIs(engine.directDirty, id, s) <==>
                  id in TenantIds(tenantId, store.records) && store.records[id].status == s && s != FRESH
    {
      hide Acyclic, CompleteSnapshot, SnapshotStates, LoadedGraph, SameEdges, Inverted, TenantEdges, StatesAgree;
      var nodes, states := TenantNodes(tenantId, store.records);
      var created := IncrementalFrontierEngine.Create(nodes, budget, closureCacheLimit);
      if created.Done? {
        engine := created.value;
        var restored := engine.RestoreStates(states);
        if restored.Done? {
          LoadedEdges(tenantId, store.records, nodes);
          SnapshotAgrees(tenantId, store.records, nodes, states);
          EdgesTwice(Inverted(dependents), TenantEdges(tenantId, store.records), engine.dependencies);
          if id :| id in TenantIds(tenantId, store.records) &&
                   !(Elements(store.records[id].dependsOn) <= TenantIds(tenantId, store.records)) {
            engine.MarkUnknown();
          }
          return;
        }
      }
      engine := new IncrementalFrontierEngine(budget, closureCacheLimit);
      engine.MarkUnknown();
    }

    method RefreshIndexesIfStoreChanged()
      requires Valid()
      modifies this
      ensures Valid() && (old(InStep()) ==> Synced()) && (old(EngineAgrees()) ==> EngineAgrees())
      ensures (old(NamesStored()) ==> NamesStored()) && (old(StatesOk()) ==> StatesInStep())
      ensures !old(WillRebuild()) ==> Maintained() == old(Maintained()) && frontierEngine == old(frontierEngine)
      ensures frontierEngine == old(frontierEngine) || (frontierEngine != null && fresh(frontierEngine))
      ensures frontierEngine == null <==> old(frontierEngine) == null
    {
      hide Exactly, SameEdges, Inverted;
      var currentRevision := store.Revision();
      if currentRevision == None || currentRevision != indexedStoreRevision { RebuildIndexes(); }
    }

    method IndexRecord(r: Record)
      modifies this`sourceMemoryIds, this`dependentsByDependency
      ensures Maintained() == Indexed(old(Maintained()), tenantId, r)
    {
      if r.tenantId != tenantId { return; }
      sourceMemoryIds := AddKeys(sourceMemoryIds, r.sources, r.id);
      dependentsByDependency := AddKeys(dependentsByDependency, r.dependsOn, r.id);
    }

    method DeindexRecord(r: Record)
      modifies this`sourceMemoryIds, this`dependentsByDependency
      ensures Maintained() == Deindexed(old(Maintained()), tenantId, r)
    {
      if r.tenantId != tenantId { return; }
      sourceMemoryIds := RemoveKeys(sourceMemoryIds, r.sources, r.id);
      dependentsByDependency := RemoveKeys(dependentsByDependency, r.dependsOn, r.id);
    }

    /** Another writer puts a record behind this runtime's back: a store that reports its
        revision now reports one that differs from the indexed one. */
    method OtherWriterPuts(r: Record)
      requires Valid()
      modifies store
      ensures Valid() && WillRebuild() && store.records == old(store.records)[r.id := r]
    {
      store.Put(r);
    }

    /** Another writer restores a snapshot into the store, or compacts it. The revision rises by
        the number of new records, so that replacing everything by nothing goes unnoticed. */
    method OtherWriterReplacesAll(records: Records)
      requires Valid() && ByOwnId(records)
      modifies store
      ensures Valid() && store.records == records
      ensures WillRebuild() <==> old(WillRebuild()) || records != map[]
    {
      store.ReplaceAll(records);
    }

    /** Stores a new record of the tenant. The store is not looked at first, and its revision is
        recorded afterwards: the indexes are in step with it if the recorded revision was the
        store's just before, and otherwise exactly if they had been exact for all other records
        and had nothing of this one. */
    method Register(r: Record) returns (ok: bool)
      requires Valid()
      modifies this, store, frontierEngine
      ensures Valid() && frontierEngine == old(frontierEngine)
      ensures ok <==> r.tenantId == tenantId && r.id !in old(store.records)
      ensures store.records == if ok then old(store.records)[r.id := r] else old(store.records)
      ensures ok ==> indexedStoreRevision == store.Revision()
      ensures Maintained() == if ok then Indexed(old(Maintained()), tenantId, r) else old(Maintained())
      ensures MissesNothing(Maintained(), tenantId, store.records) <==>
              old(MissesNothing(Maintained(), tenantId, store.records))
      ensures ok ==> (Exactly(Maintained(), tenantId, store.records) <==>
                      old(ExactForOthers(Maintained(), tenantId, store.records, r.id)) &&
                      old(NoLeftovers(Maintained(), r, r)))
      ensures old(NamesStored()) ==>
                NamesStored() &&
                  (Exactly(Maintained(), tenantId, store.records) <==>
                   old(Exactly(Maintained(), tenantId, store.records)))
      ensures old(EngineAgrees()) && (ok ==> old(NoLeftovers(Maintained(), r, r))) ==> EngineAgrees()
      ensures old(InStep()) && old(indexedStoreRevision == store.Revision()) ==> InStep()
      ensures ok && store.reportsRevision && old(EngineAgrees()) ==>
                (InStep() <==> old(ExactForOthers(Maintained(), tenantId, store.records, r.id)) &&
                               old(NoLeftovers(Maintained(), r, r)))
      ensures old(StatesInStep()) ==> StatesInStep()
    {
      hide Exactly, SameEdges, Inverted, MissesNothing, Indexed, Known, Follows, ExactForOthers, NoLeftovers,
           StatesAgree, WithState;
      hide IncrementalFrontierEngine.Valid;
      if r.tenantId != tenantId || r.id in store.records { return false; }
      ghost var records, x := store.records, Maintained();
      ghost var agrees := EngineAgrees() && NoLeftovers(x, r, r);
      RegisterMissesIff(x, tenantId, records, r);
      RegisterExactIff(x, tenantId, records, r);
      if agrees { RegisterFollows(x, tenantId, r); }
      if Exactly(x, tenantId, records) { ExactKnown(x, tenantId, records); }
      if Known(x, records) {
        NewToIndexes(x, tenantId, records, r);
        IndexedKnown(x, tenantId, records, r);
      }
      AgreeAfter(r);
      store.Put(r);
      IndexRecord(r);
      UpdateEngine(r, agrees, x.dependents);
      indexedStoreRevision := store.Revision();
      ok := true;
    }

    /** Stores a new version of a record of the tenant, again without looking at the store: the
        indexes are in step with it if the recorded revision was the store's just before, and
        otherwise exactly if they had been exact for all other records and have nothing left
        over from an older version of this one. */
    method Replace(r: Record) returns (ok: bool)
      requires Valid()
      modifies this, store, frontierEngine
      ensures Valid() && frontierEngine == old(frontierEngine)
      ensures ok <==> r.tenantId == tenantId && r.id in old(store.records) &&
                      old(store.records)[r.id].tenantId == tenantId
      ensures store.records == if ok then old(store.records)[r.id := r] else old(store.records)
      ensures ok ==> indexedStoreRevision == store.Revision()
      ensures Maintained() == if ok then Reindexed(old(Maintained()), tenantId, old(store.records)[r.id], r)
                              else old(Maintained())
      ensures ok ==> (MissesNothing(Maintained(), tenantId, store.records) <==>
                      old(MissesNothing(Maintained(), tenantId, store.records - {r.id})))
      ensures ok ==> (Exactly(Maintained(), tenantId, store.records) <==>
                      old(ExactForOthers(Maintained(), tenantId, store.records, r.id)) &&
                      old(NoLeftovers(Maintained(), store.records[r.id], r)))
      ensures old(NamesStored()) ==> NamesStored()
      ensures ok && old(EngineAgrees()) && old(NoLeftovers(Maintained(), store.records[r.id], r)) ==> EngineAgrees()
      ensures old(InStep()) && old(indexedStoreRevision == store.Revision()) ==> InStep()
      ensures ok && store.reportsRevision && old(EngineAgrees()) ==>
                (InStep() <==> old(ExactForOthers(Maintained(), tenantId, store.records, r.id)) &&
                               old(NoLeftovers(Maintained(), store.records[r.id], r)))
      ensures old(StatesInStep()) ==> StatesInStep()
    {
      hide Exactly, SameEdges, Inverted, MissesNothing, Indexed, Deindexed, Reindexed, Known, Follows, NoLeftovers,
           ExactForOthers, StatesAgree, WithState;
      hide IncrementalFrontierEngine.Valid;
      if r.tenantId != tenantId || r.id !in store.records || store.records[r.id].tenantId != tenantId { return false; }
      var current := store.records[r.id];
      ghost var records, x := store.records, Maintained();
      ghost var agrees := EngineAgrees() && NoLeftovers(x, current, r);
      ReplaceMissesIff(x, tenantId, records, r);
      ReplaceExactIff(x, tenantId, records, r);
      if agrees { ReplaceFollows(x, tenantId, current, r); }
      if Exactly(x, tenantId, records) { ReplacedRecordExact(x, tenantId, records, r); }
      if Known(x, records) { ReindexedKnown(x, tenantId, records, current, r); }
      ReindexedTwice(x, tenantId, current, r);
      AgreeAfter(r);
      store.Put(r);
      DeindexRecord(current);
      IndexRecord(r);
      UpdateEngine(r, agrees, x.dependents);
      indexedStoreRevision := store.Revision();
      ok := true;
    }

    /** The engine's states agree when it has the record's. */
    lemma AgreeAfter(r: Record)
      requires r.tenantId == tenantId
      ensures frontierEngine != null && frontierEngine.trusted && StatesInStep() ==>
                StatesAgree(WithState(frontierEngine.directDirty, r.id, r.status), tenantId, store.records[r.id := r])
    {
      if frontierEngine != null && frontierEngine.trusted && StatesInStep() {
        RecordStates(frontierEngine.directDirty, tenantId, store.records, r);
      }
    }

    /** Answers from the engine, if there is one and it knows the node. As long as the indexes and the
        engine are in step with the store, and no read-out has overrun its budget, a complete answer
        tells what is stored at or above the record. */
    method Frontier(memoryId: Id) returns (r: Option<FrontierResult>)
      requires Valid()
      modifies frontierEngine
      ensures Valid() && (old(EngineAgrees()) ==> EngineAgrees()) && (old(StatesInStep()) ==> StatesInStep())
      ensures r.None? <==> frontierEngine == null || memoryId !in frontierEngine.dependencies
      ensures frontierEngine != null && old(frontierEngine.NoOverrun() && Synced() && StatesInStep())
              && r.Some? && r.value.complete ==>
                FrontierTells(tenantId, store.records, memoryId, r.value)
    {
      hide Exactly, SameEdges, Inverted, StatesAgree, FrontierTells, Acyclic, Exact, TenantEdges;
      if frontierEngine == null { return None; }
      ghost var g, dirty := frontierEngine.dependencies, frontierEngine.directDirty;
      ghost var known := frontierEngine.NoOverrun() && Synced() && StatesInStep();
      var answer, _ := frontierEngine.Frontier(memoryId);
      if answer.Thrown? { return None; }
      if known && answer.value.complete {
        ExactEdges(Maintained(), tenantId, store.records);
        EdgesTwice(g, Inverted(dependentsByDependency), TenantEdges(tenantId, store.records));
        SameEdgesBack(TenantEdges(tenantId, store.records), g);
        AnswerTells(g, dirty, tenantId, store.records, memoryId, answer.value);
      }
      r := Some(answer.value);
    }

    /** Records what a validation found, if the record is still the one that was validated. */
    method ApplyValidation(expected: Record, result: ValidationResult) returns (ok: bool)
      requires Valid()
      modifies this, store, frontierEngine
      ensures Valid() && frontierEngine == old(frontierEngine) && Maintained() == old(Maintained())
      ensures ok <==> expected.id in old(store.records) && old(store.records)[expected.id] == expected
      ensures store.records == if ok then old(store.records)[expected.id := expected.(status := Judged(result))]
                               else old(store.records)
      ensures ok ==>
                && (store.records[expected.id].status == FRESH <==> result == Unchanged)
                && (store.records[expected.id].status == Status.UNKNOWN <==> result == Undecided)
                && (store.records[expected.id].status == INVALID <==> result == Changed || result == Missing)
      ensures ok && frontierEngine != null && frontierEngine.trusted ==>
                && old(frontierEngine.trusted) && result != Undecided
                && (result == Unchanged ==>
                      frontierEngine.directDirty == old(frontierEngine.directDirty) - {expected.id})
                && (result == Changed || result == Missing ==>
                      frontierEngine.directDirty == old(frontierEngine.directDirty)[expected.id := INVALID])
      ensures old(StatesInStep()) && expected.tenantId == tenantId ==> StatesInStep()
      ensures ok ==> indexedStoreRevision == store.Revision()
      ensures Exactly(Maintained(), tenantId, store.records) <==> old(Exactly(Maintained(), tenantId, store.records))
      ensures (old(NamesStored()) ==> NamesStored()) && (old(EngineAgrees()) ==> EngineAgrees())
      ensures old(InStep()) && old(indexedStoreRevision == store.Revision()) ==> InStep()
      ensures ok && store.reportsRevision && old(EngineAgrees()) ==>
                (InStep() <==> old(Exactly(Maintained(), tenantId, store.records)))
    {
      hide Exactly, SameEdges, Inverted, Known, StatesAgree;
      hide IncrementalFrontierEngine.Valid;
      if expected.id !in store.records || store.records[expected.id] != expected { return false; }
      SameCitations(Maintained(), tenantId, store.records, expected.id, Judged(result));
      if expected.tenantId == tenantId { AgreeAfter(expected.(status := Judged(result))); }
      store.Put(expected.(status := Judged(result)));
      if frontierEngine != null { JudgeInEngine(frontierEngine, expected.id, result); }
      indexedStoreRevision := store.Revision();
      ok := true;
    }

    /** Tells the engine of a record's dependencies and status; any error costs its trust. */
    method UpdateEngine(r: Record, ghost agrees: bool, ghost was: map<Id, set<Id>>)
      requires frontierEngine != null ==> frontierEngine.Valid()
      requires agrees ==> Follows(was, dependentsByDependency, r)
      requires agrees && frontierEngine != null && frontierEngine.trusted ==>
                 SameEdges(frontierEngine.dependencies, Inverted(was))
      modifies frontierEngine
      ensures frontierEngine != null ==> frontierEngine.Valid()
      ensures agrees ==> EngineAgrees()
      ensures frontierEngine != null && frontierEngine.trusted ==>
                old(frontierEngine.trusted) &&
                  frontierEngine.directDirty == WithState(old(frontierEngine.directDirty), r.id, r.status)
    {
      hide Follows, SameEdges, Inverted, WithDeps, Acyclic, Reach;
      if frontierEngine != null {
        ghost var g := frontierEngine.dependencies;
        var rewired := frontierEngine.SetDependencies(r.id, r.dependsOn);
        if rewired.Thrown? {
          frontierEngine.MarkUnknown();
          return;
        }
        var replaced := frontierEngine.ReplaceStatus(r.id, r.status);
        if replaced.Thrown? {
          frontierEngine.MarkUnknown();
          return;
        }
        if agrees && frontierEngine.trusted { EngineFollows(g, was, dependentsByDependency, r); }
      }
    }

    /** The engine's answer when it can be trusted, and otherwise the traversal: either way the
        affected set of one graph, the engine's own or the one that the reverse index describes,
        and these agree if the engine did. */
    method AffectedBySourceChange(direct: set<Id>) returns (affected: set<Id>, ghost g: Edges)
      requires Valid()
      modifies frontierEngine
      ensures Valid() && (old(EngineAgrees()) ==> EngineAgrees())
      ensures g == Inverted(dependentsByDependency) ||
              old(frontierEngine != null && frontierEngine.trusted && g == frontierEngine.dependencies)
      ensures old(EngineAgrees()) ==> SameEdges(g, Inverted(dependentsByDependency))
      ensures forall n :: n in affected <==> Affected(g, direct, n)
      ensures frontierEngine != null && frontierEngine.trusted ==>
                old(frontierEngine.trusted) &&
                  frontierEngine.directDirty == MarkAll(old(frontierEngine.directDirty), direct, STALE)
    {
      hide Inverted, Affected, ReachOf, Known, MarkAll, Marked;
      InvertedEdges(dependentsByDependency);
      if frontierEngine != null {
        g := frontierEngine.dependencies;
        var impact := frontierEngine.MarkDirty(direct, STALE);
        if impact.Done? && impact.value.complete {
          ReachOfIsAffected(g, direct);
          return impact.value.affected, g;
        }
        frontierEngine.MarkUnknown();
      }
      g := Inverted(dependentsByDependency);
      var closure := DependentClosure(dependentsByDependency, direct, g);
      affected := Elements(closure);
    }

    /** The memories that cite one of the sources, as far as the index knows. */
    method DirectlyCiting(changed: set<Source>) returns (direct: set<Id>)
      ensures forall id :: id in direct <==> exists s :: s in changed && id in Of(sourceMemoryIds, s)
    {
      direct := set s, id | s in changed && s in sourceMemoryIds && id in sourceMemoryIds[s] :: id;
    }

    /** Marks a usable record of the tenant stale. */
    method StaleAll(affected: set<Id>)
      requires Valid()
      modifies store
      ensures Valid() && OnlyStaled(old(store.records), store.records, affected)
      ensures NoTenantUsable(tenantId, store.records, affected)
      ensures forall id :: id in store.records && old(store.records)[id].tenantId != tenantId ==>
                store.records[id] == old(store.records)[id]
    {
      hide OnlyStaled, NoneFresh, Known;
      ghost var was := store.records;
      StaledNothing(was);
      StartStaling(tenantId, was);
      var left := affected;
      ghost var done: set<Id> := {};
      while left != {}
        invariant done + left == affected && Valid()
        invariant OnlyStaled(was, store.records, done) && NoneFresh(tenantId, was, store.records, done)
        decreases |left|
      {
        var id :| id in left;
        StaleOne(tenantId, was, store.records, done, id);
        left, done := left - {id}, done + {id};
        if id !in store.records || store.records[id].tenantId != tenantId
           || store.records[id].status == INVALID || store.records[id].status == STALE { continue; }
        store.Put(store.records[id].(status := STALE));
      }
      assert done == affected;
      Staled(tenantId, was, store.records, affected);
    }

    /** A burst of source changes: one traversal, one stale mark for each affected memory. When
        the indexes were in step with the store, or the refresh noticed that they were not,
        no record of the tenant that cites a changed source, or transitively depends on one
        that does, stays usable, and exactly those memories are reported. Without a rebuild the
        report is what the indexes and g, the graph that was traversed, name: none of those
        records stays usable exactly if every usable one is named. */
    method SignalSourcesChanged(changed: set<Source>) returns (ok: bool, affected: set<Id>, ghost g: Edges)
      requires Valid()
      modifies this, store, frontierEngine
      ensures Valid() && (ok <==> "" !in changed) && (frontierEngine == null <==> old(frontierEngine) == null)
      ensures !ok || changed == {} ==> store.records == old(store.records) && affected == {}
      ensures OnlyStaled(old(store.records), store.records, affected)
      ensures ok && changed != {} && old(InStep()) ==>
                && NoneUsable(tenantId, store.records, changed)
                && ReportsAffected(tenantId, old(store.records), changed, affected)
      ensures ok && changed != {} && !old(WillRebuild()) ==>
                && (forall n :: n in affected <==> Reported(old(Maintained()), g, changed, n))
                && (NoneUsable(tenantId, store.records, changed) <==>
                    LeavesNone(old(Maintained()), g, tenantId, old(store.records), changed))
      ensures !old(WillRebuild()) ==>
                g == Inverted(old(dependentsByDependency)) ||
                old(frontierEngine != null && frontierEngine.trusted && g == frontierEngine.dependencies)
      ensures ok && changed != {} && !old(WillRebuild()) && old(EngineAgrees()) ==>
                && SameEdges(g, Inverted(old(dependentsByDependency)))
                && (NoneUsable(tenantId, store.records, changed) <==>
                    LeavesNone(old(Maintained()), Inverted(old(dependentsByDependency)), tenantId, old(store.records),
                               changed))
      ensures (old(InStep()) ==> InStep()) && (old(EngineAgrees()) ==> EngineAgrees())
      ensures old(NamesStored()) ==> NamesStored()
      ensures old(InStep() && StatesOk()) ==> StatesOk()
      ensures ok && changed != {} && old(InStep() && StatesOk()) ==> StatesInStep()
      ensures !old(WillRebuild()) ==> Maintained() == old(Maintained())
      ensures ok && changed != {} ==> indexedStoreRevision == store.Revision()
    {
      hide Exactly, SameEdges, Inverted, Affected, TenantEdges, OnlyStaled, NoneUsable, LeavesNone, Reported, Known,
           ReportsAffected, StatesAgree, NoTenantUsable, MarkAll, DirectlyAffected, NoFresh;
      hide IncrementalFrontierEngine.Valid;
      affected, g := {}, Inverted(dependentsByDependency);
      SameEdgesSelf(g);
      StaledNothing(store.records);
      if changed == {} { return true, {}, g; }
      if "" in changed { return false, {}, g; }
      ghost var was, synced, agrees, known := store.records, InStep(), EngineAgrees(), StatesOk();
      RefreshIndexesIfStoreChanged();
      var direct := DirectlyCiting(changed);
      ghost var x := Maintained();
      ghost var dirty: Dirty := if frontierEngine == null then map[] else frontierEngine.directDirty;
      if frontierEngine != null { StatesNotFresh(frontierEngine); }
      affected, g := AffectedBySourceChange(direct);
      StaleAll(affected);
      StaledKeys(was, store.records, affected);
      if Known(x, was) { KnownKeys(x, was, store.records); }
      ReportedIff(x, g, changed, direct);
      LeavesNoneIff(x, g, tenantId, was, store.records, changed, affected);
      if synced { SignalComplete(x, g, tenantId, was, store.records, changed, direct, affected); }
      if synced && known && frontierEngine != null && frontierEngine.trusted {
        SignalledStates(x, g, dirty, tenantId, was, store.records, changed, direct, affected);
      }
      if agrees { SameEdgesLeave(x, g, Inverted(dependentsByDependency), tenantId, was, changed); }
      indexedStoreRevision := store.Revision();
      ok := true;
    }

    method IndexAll()
      requires ByOwnId(store.records)
      modifies this`sourceMemoryIds, this`dependentsByDependency
      ensures Exactly(Maintained(), tenantId, store.records)
    {
      hide Exactly, Indexed, Known;
      var records := store.records;
      sourceMemoryIds, dependentsByDependency := map[], map[];
      var left := records.Keys;
      ghost var done: Records := map[];
      EmptyExact(tenantId);
      while left != {}
        invariant left <= records.Keys && done == records - left && store.records == records
        invariant Exactly(Maintained(), tenantId, done)
        decreases |left|
      {
        var id :| id in left;
        left := left - {id};
        NewRecordExact(Maintained(), tenantId, done, records[id]);
        IndexRecord(records[id]);
        assert done[id := records[id]] == records - left;
        done := records - left;
      }
      assert done == records;
    }
  }

  lemma EmptyExact(tenantId: string)
    ensures Exactly(Indexes(map[], map[]), tenantId, map[])
  {
    assert forall s: Source :: Of(map[], s) == Citing(tenantId, map[], s);
    assert forall d: Id :: Of(map[], d) == Depending(tenantId, map[], d);
  }

  method AddKeys<K(==)>(m: map<K, set<Id>>, keys: seq<K>, id: Id) returns (r: map<K, set<Id>>)
    ensures r == Added(m, keys, id)
  {
    r := m;
    for i := 0 to |keys|
      invariant r == Added(m, keys[..i], id)
    {
      assert keys[..i + 1][..i] == keys[..i];
      r := r[keys[i] := Of(r, keys[i]) + {id}];
    }
    assert keys[..|keys|] == keys;
  }

  method RemoveKeys<K(==)>(m: map<K, set<Id>>, keys: seq<K>, id: Id) returns (r: map<K, set<Id>>)
    ensures r == Removed(m, keys, id)
  {
    r := m;
    for i := 0 to |keys|
      invariant r == Removed(m, keys[..i], id)
    {
      assert keys[..i + 1][..i] == keys[..i];
      if keys[i] in r {
        var rest := r[keys[i]] - {id};
        if rest == {} { r := r - {keys[i]}; } else { r := r[keys[i] := rest]; }
      }
    }
    assert keys[..|keys|] == keys;
  }

  /** The node list of a tenant's records: each once, with its dependencies. */
  ghost predicate NodesOf(tenantId: string, records: Records, nodes: seq<(Id, seq<Id>)>) {
    && (forall i ::
          0 <= i < |nodes| ==>
            nodes[i].0 in TenantIds(tenantId, records) && nodes[i].1 == records[nodes[i].0].dependsOn)
    && (forall i, j :: 0 <= i < j < |nodes| ==> nodes[i].0 != nodes[j].0)
    && (forall id :: id in TenantIds(tenantId, records) ==> HasNode(nodes, id))
  }

  ghost predicate HasNode(nodes: seq<(Id, seq<Id>)>, id: Id) { exists i :: 0 <= i < |nodes| && nodes[i].0 == id }

  lemma HasNodeMore(nodes: seq<(Id, seq<Id>)>, node: (Id, seq<Id>))
    ensures forall id :: HasNode(nodes, id) || id == node.0 ==> HasNode(nodes + [node], id)
  {
    var more := nodes + [node];
    assert more[|nodes|] == node;
    forall id | HasNode(nodes, id) ensures HasNode(more, id) {
      var i :| 0 <= i < |nodes| && nodes[i].0 == id;
      assert more[i] == nodes[i];
    }
  }

  method TenantNodes(tenantId: string, records: Records) returns (nodes: seq<(Id, seq<Id>)>, states: seq<(Id, Status)>)
    ensures NodesOf(tenantId, records, nodes)
    ensures |states| == |nodes| && forall i :: 0 <= i < |nodes| ==>
              states[i] == (nodes[i].0, records[nodes[i].0].status)
  {
    nodes, states := [], [];
    var ids := TenantIds(tenantId, records);
    var left := ids;
    while left != {}
      invariant left <= ids
      invariant forall i :: 0 <= i < |nodes| ==> nodes[i].0 in ids - left && nodes[i].1 == records[nodes[i].0].dependsOn
      invariant forall i, j :: 0 <= i < j < |nodes| ==> nodes[i].0 != nodes[j].0
      invariant forall id :: id in ids - left ==> HasNode(nodes, id)
      invariant |states| == |nodes| && forall i :: 0 <= i < |nodes| ==>
                  states[i] == (nodes[i].0, records[nodes[i].0].status)
      decreases |left|
    {
      var id :| id in left;
      ghost var before := nodes;
      HasNodeMore(nodes, (id, records[id].dependsOn));
      left := left - {id};
      nodes := nodes + [(id, records[id].dependsOn)];
      states := states + [(id, records[id].status)];
      assert nodes[|before|].0 == id && forall i :: 0 <= i < |before| ==> nodes[i] == before[i];
    }
  }

  lemma {:induction false} LoadedAt(nodes: seq<(Id, seq<Id>)>, n: Id)
    requires forall i, j :: 0 <= i < j < |nodes| ==> nodes[i].0 != nodes[j].0
    ensures forall i :: 0 <= i < |nodes| && nodes[i].0 == n ==> At(LoadedGraph(nodes), n) == Elems(nodes[i].1)
    ensures (forall i :: 0 <= i < |nodes| ==> nodes[i].0 != n) ==> At(LoadedGraph(nodes), n) == {}
  {
    if nodes != [] {
      var rest := nodes[..|nodes| - 1];
      LoadedAt(rest, n);
      assert forall i :: 0 <= i < |rest| ==> rest[i] == nodes[i];
    }
  }

  lemma LoadedEdges(tenantId: string, records: Records, nodes: seq<(Id, seq<Id>)>)
    requires NodesOf(tenantId, records, nodes)
    ensures SameEdges(TenantEdges(tenantId, records), LoadedGraph(nodes))
  {
    forall a, b ensures a in At(TenantEdges(tenantId, records), b) <==> a in At(LoadedGraph(nodes), b) {
      LoadedAt(nodes, b);
      if b in TenantIds(tenantId, records) {
        var i :| 0 <= i < |nodes| && nodes[i].0 == b;
        assert At(LoadedGraph(nodes), b) == Elems(nodes[i].1);
      }
    }
  }

  lemma EdgesTwice(f: Edges, g: Edges, h: Edges)
    requires SameEdges(f, g) && SameEdges(g, h)
    ensures SameEdges(h, f)
  {}

  /** Replacing one record's dependencies in the engine follows the reverse index. */
  lemma EngineFollows(g: Edges, was: map<Id, set<Id>>, now: map<Id, set<Id>>, r: Record)
    requires Follows(was, now, r) && SameEdges(g, Inverted(was))
    ensures SameEdges(WithDeps(g, r.id, Elems(r.dependsOn)), Inverted(now))
  {
    InvertedEdges(was);
    InvertedEdges(now);
    hide Inverted;
    var h := WithDeps(g, r.id, Elems(r.dependsOn));
    forall a, b ensures a in At(h, b) <==> a in At(Inverted(now), b) {
      assert a in At(Inverted(now), b) <==> b in Of(now, a);
      if b == r.id {
        assert At(h, b) == Elems(r.dependsOn);
      } else {
        assert a in At(h, b) <==> a in At(g, b);
        assert a in At(g, b) <==> a in At(Inverted(was), b);
      }
    }
  }

  lemma SameEdgesSelf(g: Edges)
    ensures SameEdges(g, g)
  {}

  lemma ReindexedTwice(x: Indexes, tenantId: string, current: Record, r: Record)
    ensures Indexed(Deindexed(x, tenantId, current), tenantId, r) == Reindexed(x, tenantId, current, r)
  {}

  /** What a validation of a record can find. */
  datatype ValidationResult = Unchanged | Changed | Missing | Undecided

  function Judged(result: ValidationResult): Status {
    match result
    case Unchanged => FRESH
    case Undecided => Status.UNKNOWN
    case _ => INVALID
  }

  lemma StatesNotFresh(engine: IncrementalFrontierEngine)
    requires engine.Valid()
    ensures NoFresh(engine.directDirty)
  {}

  lemma SignalledStates(x: Indexes, g: Edges, dirty: Dirty, tenantId: string, was: Records, now: Records,
                        changed: set<Source>, direct: set<Id>, affected: set<Id>)
    requires Exactly(x, tenantId, was) && StatesAgree(dirty, tenantId, was) && NoFresh(dirty)
    requires forall id :: id in direct <==> exists s :: s in changed && id in Of(x.sources, s)
    requires forall n :: n in affected <==> Affected(g, direct, n)
    requires OnlyStaled(was, now, affected) && NoTenantUsable(tenantId, now, affected)
    ensures StatesAgree(MarkAll(dirty, direct, STALE), tenantId, now)
  {
    DirectIsCiting(x, tenantId, was, changed, direct);
    forall n | n in direct ensures n in affected { SeedAffected(g, direct, n); }
    hide Exactly, StatesAgree, OnlyStaled, NoTenantUsable, Affected;
    SignalStates(dirty, tenantId, was, now, direct, affected);
  }

  /** Tells the engine what a validation found; its graph stays the same. */
  method JudgeInEngine(engine: IncrementalFrontierEngine, id: Id, result: ValidationResult)
    requires engine.Valid()
    modifies engine
    ensures engine.Valid() && (engine.trusted ==> old(engine.trusted))
    ensures engine.dependencies == old(engine.dependencies)
    ensures engine.trusted ==> engine.directDirty == WithState(old(engine.directDirty), id, Judged(result))
    ensures engine.trusted ==> result != Undecided
  {
    hide MarkAll, Marked;
    hide IncrementalFrontierEngine.Valid;
    MarkInvalid(engine.directDirty, id);
    var impact: Outcome<Impact>;
    match result
    case Unchanged => impact := engine.Resolve(id);
    case Undecided => engine.MarkUnknown(); return;
    case _ => impact := engine.MarkDirty({id}, INVALID);
    if impact.Thrown? { engine.MarkUnknown(); }
  }

  /** The tenant's records among the affected are stale or invalid; others are as they were. */
  ghost predicate NoneFresh(tenantId: string, was: Records, now: Records, affected: set<Id>) {
    && now.Keys == was.Keys
    && (forall id :: id in now && was[id].tenantId != tenantId ==> now[id] == was[id])
    && (forall id :: id in now && id in affected && now[id].tenantId == tenantId ==> !Usable(now[id]))
  }

  lemma StartStaling(tenantId: string, was: Records)
    ensures NoneFresh(tenantId, was, was, {})
  {}

  lemma StaleOne(tenantId: string, was: Records, now: Records, affected: set<Id>, id: Id)
    requires OnlyStaled(was, now, affected) && NoneFresh(tenantId, was, now, affected)
    ensures var skip := id !in now || now[id].tenantId != tenantId || !Usable(now[id]);
            var next := if skip then now else now[id := now[id].(status := STALE)];
            OnlyStaled(was, next, affected + {id}) && NoneFresh(tenantId, was, next, affected + {id})
  {}

  lemma Staled(tenantId: string, was: Records, now: Records, affected: set<Id>)
    requires NoneFresh(tenantId, was, now, affected)
    ensures NoTenantUsable(tenantId, now, affected)
    ensures forall id :: id in now && was[id].tenantId != tenantId ==> now[id] == was[id]
    ensures now.Keys == was.Keys
  {}

  lemma StaledNothing(records: Records)
    ensures OnlyStaled(records, records, {})
  {}

  /** Statuses do not touch what the indexes describe. */
  lemma StaledSame(x: Indexes, tenantId: string, was: Records, now: Records, affected: set<Id>, changed: set<Source>)
    requires OnlyStaled(was, now, affected)
    ensures TenantEdges(tenantId, now) == TenantEdges(tenantId, was)
    ensures TenantIds(tenantId, now) == TenantIds(tenantId, was)
    ensures DirectlyAffected(tenantId, now, changed) == DirectlyAffected(tenantId, was, changed)
    ensures Exactly(x, tenantId, was) ==> Exactly(x, tenantId, now)
  {
    assert forall id :: id in was ==>
      now[id].tenantId == was[id].tenantId && now[id].sources == was[id].sources &&
        now[id].dependsOn == was[id].dependsOn;
    assert TenantIds(tenantId, now) == TenantIds(tenantId, was);
    forall s ensures Citing(tenantId, now, s) == Citing(tenantId, was, s) {}
    forall d ensures Depending(tenantId, now, d) == Depending(tenantId, was, d) {}
  }

  ghost predicate ReportsAffected(tenantId: string, records: Records, changed: set<Source>, affected: set<Id>) {
    forall n :: n in affected <==>
                Affected(TenantEdges(tenantId, records), DirectlyAffected(tenantId, records, changed), n)
  }

  lemma SignalComplete(x: Indexes, g: Edges, tenantId: string, was: Records, now: Records, changed: set<Source>,
                       direct: set<Id>, affected: set<Id>)
    requires Exactly(x, tenantId, was) && SameEdges(g, Inverted(x.dependents)) && OnlyStaled(was, now, affected)
    requires forall id :: id in direct <==> exists s :: s in changed && id in Of(x.sources, s)
    requires forall n :: n in affected <==> Affected(g, direct, n)
    requires NoTenantUsable(tenantId, now, affected)
    ensures Exactly(x, tenantId, now) && NoneUsable(tenantId, now, changed)
    ensures ReportsAffected(tenantId, was, changed, affected)
  {
    ExactEdges(x, tenantId, was);
    SameEdgesAffected(g, Inverted(x.dependents), direct);
    SameEdgesAffected(Inverted(x.dependents), TenantEdges(tenantId, was), direct);
    StaledSame(x, tenantId, was, now, affected, changed);
    DirectIsCiting(x, tenantId, was, changed, direct);
  }

  ghost predicate NoTenantUsable(tenantId: string, records: Records, affected: set<Id>) {
    forall id :: id in affected && id in TenantIds(tenantId, records) ==> !Usable(records[id])
  }

  /** Marking exactly the reported records leaves no affected one usable if and only if every
      affected usable one was reported. */
  lemma LeavesNoneIff(x: Indexes, g: Edges, tenantId: string, was: Records, now: Records, changed: set<Source>,
                      affected: set<Id>)
    requires OnlyStaled(was, now, affected) && NoTenantUsable(tenantId, now, affected)
    requires forall n :: n in affected <==> Reported(x, g, changed, n)
    ensures NoneUsable(tenantId, now, changed) <==> LeavesNone(x, g, tenantId, was, changed)
  {
    StaledSame(x, tenantId, was, now, affected, changed);
    hide Affected, Reported, TenantEdges, DirectlyAffected;
    if NoneUsable(tenantId, now, changed) {
      forall id | id in TenantIds(tenantId, was) && Usable(was[id])
                  && Affected(TenantEdges(tenantId, was), DirectlyAffected(tenantId, was, changed), id)
        ensures Reported(x, g, changed, id)
      {
        assert id in TenantIds(tenantId, now);
        assert now[id] != was[id];
      }
    }
  }

  lemma StaledKeys(was: Records, now: Records, affected: set<Id>)
    requires OnlyStaled(was, now, affected)
    ensures now.Keys == was.Keys
  {}

  lemma DirectIsCiting(x: Indexes, tenantId: string, records: Records, changed: set<Source>, direct: set<Id>)
    requires Exactly(x, tenantId, records)
    requires forall id :: id in direct <==> exists s :: s in changed && id in Of(x.sources, s)
    ensures direct == DirectlyAffected(tenantId, records, changed)
  {
    forall id ensures id in direct <==> id in DirectlyAffected(tenantId, records, changed) {
      if s :| s in changed && id in Of(x.sources, s) { assert id in Citing(tenantId, records, s); }
      if id in DirectlyAffected(tenantId, records, changed) {
        var s :| s in changed && s in records[id].sources;
        assert id in Citing(tenantId, records, s);
      }
    }
  }

  /** A record that another writer stores just before this runtime registers one of its own is
      never indexed: the revisions agree again, so that no refresh will rebuild the indexes, and
      a change of its source leaves the record usable. */
  method MissedWriteWitness() returns (runtime: PremiseRuntime, missed: Record, changed: set<Source>, ok: bool)
    ensures fresh(runtime) && fresh(runtime.store) && runtime.Valid() && !runtime.WillRebuild() && !runtime.InStep()
    ensures ok && 1 in runtime.store.records && runtime.store.records[1] == missed && missed.status == FRESH
    ensures !NoneUsable(runtime.tenantId, runtime.store.records, changed)
  {
    hide Exactly, Inverted, Below, Affected, Indexed, NoneUsable, DirectlyAffected, TenantEdges, Known, Reported,
         LeavesNone;
    changed := {"s"};
    var store := new RecordStore(true);
    runtime := new PremiseRuntime("t", store, false, 0, 0);
    ghost var x := runtime.Maintained();
    NothingIndexed(x, "t");
    var external := Record(1, "t", ["s"], [], FRESH, "");
    runtime.OtherWriterPuts(external);
    var registered := runtime.Register(Record(2, "t", [], [], FRESH, ""));
    IndexedNothing(x, "t", Record(2, "t", [], [], FRESH, ""));
    assert runtime.Maintained() == x && !runtime.WillRebuild();
    var affected; ghost var g;
    ok, affected, g := runtime.SignalSourcesChanged(changed);
    NothingReported(x, g, changed);
    missed := store.records[1];
    assert missed == external && "s" in changed && external.sources[0] == "s";
    MissedStaysUsable("t", store.records, changed, 1, "s");
    NotIndexedNotExact(x, "t", store.records, 1, "s");
  }

  lemma MissedStaysUsable(tenantId: string, records: Records, changed: set<Source>, id: Id, s: Source)
    requires id in records && records[id].tenantId == tenantId && Usable(records[id])
    requires s in changed && s in records[id].sources
    ensures !NoneUsable(tenantId, records, changed)
  {
    assert id in DirectlyAffected(tenantId, records, changed);
    SeedAffected(TenantEdges(tenantId, records), DirectlyAffected(tenantId, records, changed), id);
  }

  lemma NotIndexedNotExact(x: Indexes, tenantId: string, records: Records, id: Id, s: Source)
    requires id in records && records[id].tenantId == tenantId && s in records[id].sources && Of(x.sources, s) == {}
    ensures !Exactly(x, tenantId, records)
  {
    assert id in Citing(tenantId, records, s);
  }

  lemma NothingReported(x: Indexes, g: Edges, changed: set<Source>)
    requires forall s :: Of(x.sources, s) == {}
    ensures forall n :: !Reported(x, g, changed, n)
  {
    hide Below;
  }

  lemma IndexedNothing(x: Indexes, tenantId: string, r: Record)
    requires r.sources == [] && r.dependsOn == []
    ensures Indexed(x, tenantId, r) == x
  {}

  lemma NothingIndexed(x: Indexes, tenantId: string)
    requires Exactly(x, tenantId, map[])
    ensures forall s :: Of(x.sources, s) == {}
  {
    forall s ensures Of(x.sources, s) == {} { assert Citing(tenantId, map[], s) == {}; }
  }

  /** Another writer empties the store, and a change of the source of a record that is gone still
      reports it: nothing tells this runtime that its indexes are out of date. */
  method EmptiedStoreWitness() returns (runtime: PremiseRuntime, ok: bool, affected: set<Id>)
    ensures fresh(runtime) && fresh(runtime.store) && runtime.Valid() && !runtime.WillRebuild() && !runtime.InStep()
    ensures ok && runtime.store.records == map[] && 1 in affected
  {
    hide Exactly, Inverted, Below, Affected, Indexed, NoneUsable, DirectlyAffected, TenantEdges, Known, Reported,
         LeavesNone, ReportsAffected, ExactForOthers, NoLeftovers, SameEdges, OnlyStaled, MissesNothing;
    var store := new RecordStore(true);
    runtime := new PremiseRuntime("t", store, false, 0, 0);
    var r := Record(1, "t", ["s"], [], FRESH, "");
    ghost var x := runtime.Maintained();
    var registered := runtime.Register(r);
    CitesItsSource(x, "t", r, "s");
    runtime.OtherWriterReplacesAll(map[]);
    ghost var y := runtime.Maintained();
    ghost var g;
    ok, affected, g := runtime.SignalSourcesChanged({"s"});
    StaledKeys(map[], store.records, affected);
    CitingReported(y, g, {"s"}, 1, "s");
    EmptyNotExact(y, "t", 1, "s");
  }

  lemma CitesItsSource(x: Indexes, tenantId: string, r: Record, s: Source)
    requires r.tenantId == tenantId && s in r.sources
    ensures r.id in Of(Indexed(x, tenantId, r).sources, s)
  {
    IndexedAt(x, tenantId, r);
  }

  lemma CitingReported(x: Indexes, g: Edges, changed: set<Source>, id: Id, s: Source)
    requires s in changed && id in Of(x.sources, s)
    ensures Reported(x, g, changed, id)
  {}

  lemma EmptyNotExact(x: Indexes, tenantId: string, id: Id, s: Source)
    requires id in Of(x.sources, s)
    ensures !Exactly(x, tenantId, map[])
  {
    assert Citing(tenantId, map[], s) == {};
  }
}
