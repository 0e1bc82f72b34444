/** The ordered event stream: apply, fence, repair from a snapshot, and coalesced bursts. */
module EventStream {
  import opened RuntimeStore
  import opened Wrappers

  datatype Kind = SNAPSHOT | DELTA

  datatype StreamEvent = StreamEvent(
    event: Event, streamId: Text, sequence: nat, kind: Kind, cursor: Option<Text>, sourceVersion: Option<Text>)

  /** What the digest of a stream event covers; two digests are equal when these are. */
  datatype Fingerprint = Fingerprint(
    eventId: Text, requestDigest: Text, eventType: Text, occurredAt: Text, memoryId: Option<Text>,
    payload: Text, sourceVersion: Option<Text>, cursor: Option<Text>, kind: Kind)

  function FingerprintOf(e: StreamEvent): Fingerprint {
    var m := e.event.metadata;
    Fingerprint(m.eventId, m.requestDigest, m.eventType, m.occurredAt, m.memoryId, e.event.payload, e.sourceVersion,
                e.cursor, e.kind)
  }

  /** The digests of two stream events are equal: they agree but for operation, tenant, key, stream and
      sequence. */
  ghost predicate SameDigest(e: StreamEvent, f: StreamEvent) {
    var m, n := e.event.metadata, f.event.metadata;
    && m.eventId == n.eventId && m.requestDigest == n.requestDigest && m.eventType == n.eventType
    && m.occurredAt == n.occurredAt && m.memoryId == n.memoryId && e.event.payload == f.event.payload
    && e.sourceVersion == f.sourceVersion && e.cursor == f.cursor && e.kind == f.kind
  }

  lemma FingerprintTells(e: StreamEvent, f: StreamEvent)
    ensures FingerprintOf(e) == FingerprintOf(f) <==> SameDigest(e, f)
  {}

  datatype StreamState = StreamState(nextSequence: nat, seen: map<nat, Fingerprint>, hasSnapshot: bool)

  const UNSEEN := StreamState(0, map[], false)

  /** Nothing is known of the stream but where it is expected to go on. */
  function Fenced(sequence: nat): StreamState { StreamState(sequence, map[], false) }

  datatype Reason = CONFLICT | REORDERED | GAP | DELTA_BEFORE_SNAPSHOT

  datatype Outcome = APPLIED | DUPLICATE | REPAIR_REQUIRED(reason: Reason) | TENANT_VIOLATION

  /** One stream's state together with the store it writes to. */
  datatype Position = Position(store: Events, state: StreamState)

  /** The event is new to the store, or exactly what the store has under its key. */
  predicate Agrees(s: Events, e: Event) {
    KeyOf(e) !in s.idempotency || Stored(s, KeyOf(e)) == Some(e)
  }

  /** The stream would accept the event if the store does. */
  predicate InTurn(s: StreamState, e: StreamEvent) {
    e.sequence !in s.seen && e.sequence == s.nextSequence && (s.hasSnapshot || e.kind == SNAPSHOT)
  }

  function Check(p: Position, e: StreamEvent): Outcome {
    var s := p.state;
    if e.sequence in s.seen then
      (if s.seen[e.sequence] == FingerprintOf(e) then DUPLICATE else REPAIR_REQUIRED(CONFLICT))
    else if e.sequence < s.nextSequence then REPAIR_REQUIRED(REORDERED)
    else if e.sequence > s.nextSequence then REPAIR_REQUIRED(GAP)
    else if !s.hasSnapshot && e.kind != SNAPSHOT then REPAIR_REQUIRED(DELTA_BEFORE_SNAPSHOT)
    else if !Agrees(p.store, e.event) then REPAIR_REQUIRED(CONFLICT)
    else if KeyOf(e.event) in p.store.idempotency then DUPLICATE
    else APPLIED
  }

  function Recorded(s: StreamState, e: StreamEvent): StreamState {
    StreamState(e.sequence + 1, s.seen[e.sequence := FingerprintOf(e)], s.hasSnapshot || e.kind == SNAPSHOT)
  }

  function Advance(p: Position, e: StreamEvent): Position {
    if Check(p, e).REPAIR_REQUIRED? then Position(p.store, Fenced(e.sequence))
    else if e.sequence in p.state.seen then p
    else Position(Append(p.store, e.event), Recorded(p.state, e))
  }

  // ---- what every step keeps ------------------------------------------------------------

  /** The recorded sequences are all those from first up to the next one, and begin with a snapshot. */
  ghost predicate RecordedFrom(s: StreamState, first: nat) {
    && first <= s.nextSequence
    && (forall n :: n in s.seen <==> first <= n < s.nextSequence)
    && (s.hasSnapshot <==> first < s.nextSequence)
    && (first < s.nextSequence ==> s.seen[first].kind == SNAPSHOT)
  }

  ghost predicate StateOk(s: StreamState) { exists first :: RecordedFrom(s, first) }

  ghost predicate PositionOk(p: Position) { EventsOk(p.store) && StateOk(p.state) }

  lemma FencedOk(n: nat)
    ensures StateOk(Fenced(n))
  {
    assert RecordedFrom(Fenced(n), n);
  }

  lemma AdvanceKeepsOk(p: Position, e: StreamEvent)
    requires PositionOk(p)
    ensures PositionOk(Advance(p, e))
  {
    AppendKeepsOk(p.store, e.event);
    if Check(p, e).REPAIR_REQUIRED? {
      FencedOk(e.sequence);
    } else if e.sequence !in p.state.seen {
      var first :| RecordedFrom(p.state, first);
      assert RecordedFrom(Recorded(p.state, e), first);
    }
  }

  /** The store only grows: what it has under a key stays. */
  ghost predicate StoreGrows(s: Events, t: Events) {
    forall k {:trigger k in t.idempotency} {:trigger Stored(t, k)} :: k in s.idempotency ==>
      k in t.idempotency && Stored(t, k) == Stored(s, k)
  }

  lemma AppendGrows(s: Events, e: Event)
    requires EventsOk(s)
    ensures StoreGrows(s, Append(s, e))
    ensures Agrees(s, e) ==> Stored(Append(s, e), KeyOf(e)) == Some(e) && KeyOf(e) in Append(s, e).idempotency
  {}

  lemma GrowsTwice(s: Events, t: Events, u: Events)
    requires StoreGrows(s, t) && StoreGrows(t, u)
    ensures StoreGrows(s, u)
  {}

  function After(p: Position, es: seq<StreamEvent>): Position
    decreases |es|
  {
    if es == [] then p else After(Advance(p, es[0]), es[1..])
  }

  /** None of the events, applied in order, needs a repair. */
  predicate Clean(p: Position, es: seq<StreamEvent>)
    decreases |es|
  {
    es == [] || (!Check(p, es[0]).REPAIR_REQUIRED? && Clean(Advance(p, es[0]), es[1..]))
  }

  /** Over any run the invariant holds, and the store keeps what it has. */
  lemma {:induction false} RunKeepsOk(p: Position, es: seq<StreamEvent>)
    requires PositionOk(p)
    ensures PositionOk(After(p, es)) && StoreGrows(p.store, After(p, es).store)
    decreases |es|
  {
    if es != [] {
      AdvanceKeepsOk(p, es[0]);
      AppendGrows(p.store, es[0].event);
      RunKeepsOk(Advance(p, es[0]), es[1..]);
      GrowsTwice(p.store, Advance(p, es[0]).store, After(p, es).store);
    }
  }

  lemma {:induction false} CleanKeepsSeen(p: Position, es: seq<StreamEvent>)
    requires PositionOk(p) && Clean(p, es)
    ensures forall n ::
              n in p.state.seen ==> n in After(p, es).state.seen && After(p, es).state.seen[n] == p.state.seen[n]
    ensures p.state.nextSequence <= After(p, es).state.nextSequence
    decreases |es|
  {
    if es != [] {
      AdvanceKeepsOk(p, es[0]);
      CleanKeepsSeen(Advance(p, es[0]), es[1..]);
    }
  }

  /** Redelivery, at once or after any events that need no repair, of an event with the same digest
      changes nothing. */
  lemma RedeliveryChangesNothing(p: Position, e: StreamEvent, f: StreamEvent, es: seq<StreamEvent>)
    requires PositionOk(p) && !Check(p, e).REPAIR_REQUIRED? && Clean(Advance(p, e), es)
    requires f.sequence == e.sequence && SameDigest(e, f)
    ensures var q := After(Advance(p, e), es); Check(q, f) == DUPLICATE && Advance(q, f) == q
  {
    FingerprintTells(e, f);
    AdvanceKeepsOk(p, e);
    CleanKeepsSeen(Advance(p, e), es);
    assert e.sequence in Advance(p, e).state.seen && Advance(p, e).state.seen[e.sequence] == FingerprintOf(e);
  }

  /** Another event under a sequence that is recorded is always refused. */
  lemma ConflictingRedeliveryFences(p: Position, e: StreamEvent, f: StreamEvent, es: seq<StreamEvent>)
    requires PositionOk(p) && !Check(p, e).REPAIR_REQUIRED? && Clean(Advance(p, e), es)
    requires f.sequence == e.sequence && !SameDigest(e, f)
    ensures var q := After(Advance(p, e), es);
            Check(q, f) == REPAIR_REQUIRED(CONFLICT) && Advance(q, f) == Position(q.store, Fenced(f.sequence))
  {
    FingerprintTells(e, f);
    AdvanceKeepsOk(p, e);
    CleanKeepsSeen(Advance(p, e), es);
    assert e.sequence in Advance(p, e).state.seen && Advance(p, e).state.seen[e.sequence] == FingerprintOf(e);
  }

  // ---- compaction -----------------------------------------------------------------------

  /** A compacted store remembers the same events and retains some of them. */
  ghost predicate CompactedTo(s: Events, t: Events) {
    && EventsOk(s) && EventsOk(t) && s.idempotency == t.idempotency
    && (forall k :: k in t.retained ==> k in s.retained && t.retained[k] == s.retained[k])
  }

  /** Compaction changes what the stream does with an event exactly when the event's turn has
      come, the store had its payload and lost it, and the event is the one that was stored, or
      the same identity without a payload: the former was a duplicate and is now a conflict. */
  lemma CompactionChangesStreamIff(s: Events, t: Events, state: StreamState, e: StreamEvent)
    requires CompactedTo(s, t)
    ensures var k := KeyOf(e.event);
            Check(Position(s, state), e) != Check(Position(t, state), e) <==>
              && InTurn(state, e) && k in s.retained && k !in t.retained
              && s.retained[k].payload != NO_PAYLOAD
              && (e.event == s.retained[k] || e.event == Event(s.idempotency[k], NO_PAYLOAD))
  {
    var k := KeyOf(e.event);
    if k in s.retained && k !in t.retained {
      assert Stored(s, k) == Some(s.retained[k]);
      assert Stored(t, k) == Some(Event(s.idempotency[k], NO_PAYLOAD));
      assert s.retained[k] == Event(s.idempotency[k], s.retained[k].payload);
    } else if k in s.idempotency {
      assert Stored(s, k) == Stored(t, k);
    }
  }

  // ---- repair ---------------------------------------------------------------------------

  datatype Page = Page(tenantId: Text, streamId: Text, events: seq<StreamEvent>, headSequence: nat, terminal: bool)

  /** Each event's sequence is one more than the one before. */
  predicate ContiguousSequences(es: seq<StreamEvent>) {
    forall i {:trigger es[i]} :: 0 <= i < |es| ==> es[i].sequence == es[0].sequence + i
  }

  /** Every event belongs to the page's stream and tenant, and none is beyond its head. */
  ghost predicate WellFormed(page: Page) {
    forall i :: 0 <= i < |page.events| ==>
      && page.events[i].streamId == page.streamId && page.events[i].event.metadata.tenantId == page.tenantId
      && page.events[i].sequence <= page.headSequence
  }

  ghost predicate Authoritative(page: Page) {
    var es := page.events;
    es != [] && page.terminal && es[0].kind == SNAPSHOT && es[|es| - 1].sequence == page.headSequence &&
      ContiguousSequences(es)
  }

  /** No event of the list contradicts the store or another event of the list. */
  ghost predicate Consistent(s: Events, es: seq<StreamEvent>) {
    && (forall i :: 0 <= i < |es| ==> Agrees(s, es[i].event))
    && (forall i, j :: 0 <= i < j < |es| && KeyOf(es[i].event) == KeyOf(es[j].event) ==> es[i].event == es[j].event)
  }

  lemma ConsistentTail(s: Events, es: seq<StreamEvent>)
    requires EventsOk(s) && es != [] && Agrees(s, es[0].event)
    ensures Consistent(s, es) <==> Consistent(Append(s, es[0].event), es[1..])
  {
    var e, t, rest := es[0].event, Append(s, es[0].event), es[1..];
    AppendGrows(s, e);
    if Consistent(s, es) {
      forall i | 0 <= i < |rest| ensures Agrees(t, rest[i].event) {
        assert rest[i] == es[i + 1];
        assert Agrees(s, es[i + 1].event);
        if KeyOf(rest[i].event) == KeyOf(e) { assert es[0].event == es[i + 1].event; }
      }
      forall i, j | 0 <= i < j < |rest| && KeyOf(rest[i].event) == KeyOf(rest[j].event)
        ensures rest[i].event == rest[j].event
      {
        assert rest[i] == es[i + 1] && rest[j] == es[j + 1];
      }
    }
    if Consistent(t, rest) {
      forall i | 0 <= i < |es| ensures Agrees(s, es[i].event) {
        if i > 0 { assert Agrees(t, rest[i - 1].event); }
      }
      forall i, j | 0 <= i < j < |es| && KeyOf(es[i].event) == KeyOf(es[j].event) ensures es[i].event == es[j].event {
        assert Agrees(t, rest[j - 1].event);
        if i > 0 { assert rest[i - 1] == es[i] && rest[j - 1] == es[j]; }
      }
    }
  }

  /** Events whose turn comes one after the other go through exactly when they are consistent. */
  lemma {:induction false} CleanIffConsistent(p: Position, es: seq<StreamEvent>)
    requires PositionOk(p) && ContiguousSequences(es)
    requires es != [] ==> es[0].sequence == p.state.nextSequence && (p.state.hasSnapshot || es[0].kind == SNAPSHOT)
    ensures Clean(p, es) <==> Consistent(p.store, es)
    ensures Clean(p, es) ==> After(p, es).state.nextSequence == p.state.nextSequence + |es|
    ensures Clean(p, es) && es != [] ==> After(p, es).state.hasSnapshot
    decreases |es|
  {
    if es != [] {
      var e := es[0];
      assert e.sequence !in p.state.seen by { var first :| RecordedFrom(p.state, first); }
      AdvanceKeepsOk(p, e);
      if Agrees(p.store, e.event) {
        ConsistentTail(p.store, es);
        assert |es| > 1 ==> es[1..][0] == es[1];
        CleanIffConsistent(Advance(p, e), es[1..]);
      } else {
        assert Check(p, e).REPAIR_REQUIRED?;
      }
    }
  }

  /** A repair from an authoritative page goes through exactly when nothing in it contradicts
      the store or itself, and then the stream stands behind the page's last event. */
  lemma RepairSucceedsIff(s: Events, page: Page)
    requires EventsOk(s) && Authoritative(page)
    ensures var p := Position(s, Fenced(page.events[0].sequence));
            && (Clean(p, page.events) <==> Consistent(s, page.events))
            && (Clean(p, page.events) ==>
                  After(p, page.events).state.nextSequence == page.headSequence + 1 &&
                    After(p, page.events).state.hasSnapshot)
  {
    var es := page.events;
    var p := Position(s, Fenced(es[0].sequence));
    FencedOk(es[0].sequence);
    CleanIffConsistent(p, es);
  }

  /** What consistent events leave in the store is what they say. */
  lemma {:induction false} AllStored(p: Position, es: seq<StreamEvent>)
    requires PositionOk(p) && ContiguousSequences(es) && Consistent(p.store, es)
    requires es != [] ==> es[0].sequence == p.state.nextSequence && (p.state.hasSnapshot || es[0].kind == SNAPSHOT)
    ensures forall i :: 0 <= i < |es| ==> Stored(After(p, es).store, KeyOf(es[i].event)) == Some(es[i].event)
    decreases |es|
  {
    if es != [] {
      var e := es[0];
      CleanIffConsistent(p, es);
      assert e.sequence !in p.state.seen by { var first :| RecordedFrom(p.state, first); }
      AdvanceKeepsOk(p, e);
      AppendGrows(p.store, e.event);
      ConsistentTail(p.store, es);
      assert |es| > 1 ==> es[1..][0] == es[1];
      AllStored(Advance(p, e), es[1..]);
      RunKeepsOk(Advance(p, e), es[1..]);
      forall i | 0 <= i < |es| ensures Stored(After(p, es).store, KeyOf(es[i].event)) == Some(es[i].event) {
        if i == 0 {
          assert KeyOf(e.event) in Advance(p, e).store.idempotency;
        } else {
          assert es[1..][i - 1] == es[i];
        }
      }
    }
  }

  /** Repairing twice from the same page changes nothing the second time: no event is applied
      again and the stream ends where it stood. */
  lemma RepairTwice(s: Events, page: Page)
    requires EventsOk(s) && Authoritative(page) && Consistent(s, page.events)
    ensures var start := Fenced(page.events[0].sequence);
            var once := After(Position(s, start), page.events);
            Clean(Position(once.store, start), page.events) && After(Position(once.store, start), page.events) == once
  {
    var es, start := page.events, Fenced(page.events[0].sequence);
    FencedOk(es[0].sequence);
    var once := After(Position(s, start), es);
    RunKeepsOk(Position(s, start), es);
    AllStored(Position(s, start), es);
    SameStateAgain(Position(s, start), once.store, es);
  }

  lemma {:induction false} SameStateAgain(p: Position, full: Events, es: seq<StreamEvent>)
    requires PositionOk(p) && EventsOk(full) && ContiguousSequences(es) && Consistent(p.store, es)
    requires es != [] ==> es[0].sequence == p.state.nextSequence && (p.state.hasSnapshot || es[0].kind == SNAPSHOT)
    requires forall i :: 0 <= i < |es| ==> Stored(full, KeyOf(es[i].event)) == Some(es[i].event)
    ensures Clean(Position(full, p.state), es)
    ensures After(Position(full, p.state), es) == Position(full, After(p, es).state)
    decreases |es|
  {
    if es != [] {
      var e := es[0];
      var q := Position(full, p.state);
      assert Stored(full, KeyOf(e.event)) == Some(e.event);
      assert Agrees(full, e.event) && KeyOf(e.event) in full.idempotency;
      assert full.idempotency[KeyOf(e.event)] == e.event.metadata;
      assert e.sequence !in p.state.seen by { var first :| RecordedFrom(p.state, first); }
      assert Check(q, e) == DUPLICATE && Advance(q, e) == Position(full, Recorded(p.state, e));
      ConsistentTail(p.store, es);
      AdvanceKeepsOk(p, e);
      assert |es| > 1 ==> es[1..][0] == es[1];
      SameStateAgain(Advance(p, e), full, es[1..]);
    }
  }

  // ---- bursts ---------------------------------------------------------------------------

  datatype Capability = ORDERED_EVENTS | AUTHORITATIVE_SNAPSHOT | DELTA_EVENTS

  datatype PlanReason =
    EMPTY | CAPABILITY_MISSING | NO_SNAPSHOT | NON_CONTIGUOUS | DELTA_CAPABILITY_MISSING | NOTHING_TO_SKIP

  datatype Plan =
    | Coalesced(streamId: Text, tenantId: Text, kept: seq<StreamEvent>, skipped: seq<nat>)
    | Preserved(why: PlanReason, kept: seq<StreamEvent>)

  ghost predicate OneStream(es: seq<StreamEvent>) {
    forall i {:trigger es[i]} :: 0 <= i < |es| ==>
      es[i].streamId == es[0].streamId && es[i].event.metadata.tenantId == es[0].event.metadata.tenantId
  }

  ghost predicate LatestSnapshot(es: seq<StreamEvent>, k: int) {
    && -1 <= k < |es|
    && (k >= 0 ==> es[k].kind == SNAPSHOT)
    && (forall j {:trigger es[j]} :: k < j < |es| ==> es[j].kind == DELTA)
  }

  function Sequences(es: seq<StreamEvent>): seq<nat> {
    seq(|es|, i requires 0 <= i < |es| => es[i].sequence)
  }

  /** Why a burst is kept as it is, in the order of the checks; None when it is coalesced. */
  ghost predicate PlanIs(es: seq<StreamEvent>, capabilities: set<Capability>, k: int, why: Option<PlanReason>) {
    why == (if es == [] then Some(EMPTY)
            else if !OneStream(es) || !ContiguousSequences(es) then Some(NON_CONTIGUOUS)
            else if !({ORDERED_EVENTS, AUTHORITATIVE_SNAPSHOT} <= capabilities) then Some(CAPABILITY_MISSING)
            else if k < 0 then Some(NO_SNAPSHOT)
            else if k == 0 then Some(NOTHING_TO_SKIP)
            else if DELTA_EVENTS !in capabilities && k < |es| - 1 then Some(DELTA_CAPABILITY_MISSING)
            else None)
  }

  method FindLatestSnapshot(es: seq<StreamEvent>) returns (k: int)
    ensures LatestSnapshot(es, k)
  {
    k := -1;
    for i := 0 to |es|
      invariant -1 <= k < i
      invariant (k >= 0 ==> es[k].kind == SNAPSHOT) && forall j {:trigger es[j]} :: k < j < i ==> es[j].kind == DELTA
    {
      if es[i].kind == SNAPSHOT { k := i; }
    }
  }

  method AreContiguous(es: seq<StreamEvent>) returns (ok: bool)
    requires es != []
    ensures ok <==> ContiguousSequences(es)
  {
    for i := 1 to |es|
      invariant forall j {:trigger es[j]} :: 0 <= j < i ==> es[j].sequence == es[0].sequence + j
    {
      if es[i].sequence != es[i - 1].sequence + 1 { return false; }
    }
    ok := true;
  }

  method IsOneContiguousStream(es: seq<StreamEvent>) returns (ok: bool)
    requires es != []
    ensures ok <==> OneStream(es) && ContiguousSequences(es)
  {
    for i := 0 to |es|
      invariant forall j {:trigger es[j]} :: 0 <= j < i ==>
                  es[j].streamId == es[0].streamId && es[j].event.metadata.tenantId == es[0].event.metadata.tenantId
    {
      if es[i].streamId != es[0].streamId || es[i].event.metadata.tenantId != es[0].event.metadata.tenantId {
        return false;
      }
    }
    ok := AreContiguous(es);
  }

  lemma SplitSequences(es: seq<StreamEvent>, k: nat)
    requires k <= |es|
    ensures Sequences(es[..k]) + Sequences(es[k..]) == Sequences(es)
  {}

  /** Splits a burst into events that may be skipped and events that are kept, if at all. */
  method PlanStreamBurst(es: seq<StreamEvent>, capabilities: set<Capability>) returns (plan: Plan, ghost k: int)
    ensures LatestSnapshot(es, k)
    ensures PlanIs(es, capabilities, k, if plan.Preserved? then Some(plan.why) else None)
    ensures plan.Preserved? ==> plan.kept == es
    ensures plan.Coalesced? ==>
              && 0 < k < |es| && plan.kept == es[k..] && plan.skipped == Sequences(es[..k])
              && plan.kept[0].kind == SNAPSHOT
                                && plan.skipped + Sequences(plan.kept) == Sequences(es)
                                && plan.streamId == es[0].streamId && plan.tenantId == es[0].event.metadata.tenantId
  {
    hide OneStream, ContiguousSequences, Sequences;
    var latest := FindLatestSnapshot(es);
    k := latest;
    if |es| == 0 { return Preserved(EMPTY, []), k; }
    var ordered := IsOneContiguousStream(es);
    if !ordered { return Preserved(NON_CONTIGUOUS, es), k; }
    if ORDERED_EVENTS !in capabilities || AUTHORITATIVE_SNAPSHOT !in capabilities {
      return Preserved(CAPABILITY_MISSING, es), k;
    }
    if latest < 0 { return Preserved(NO_SNAPSHOT, es), k; }
    if latest == 0 { return Preserved(NOTHING_TO_SKIP, es), k; }
    if DELTA_EVENTS !in capabilities && latest < |es| - 1 { return Preserved(DELTA_CAPABILITY_MISSING, es), k; }
    SplitSequences(es, latest);
    plan := Coalesced(es[0].streamId, es[0].event.metadata.tenantId, es[latest..], Sequences(es[..latest]));
  }

  function Max(a: nat, b: nat): nat { if a >= b then a else b }

  /** Applied in order without a repair, contiguous events leave the stream behind the last of
      them, or where it was if it was already further. */
  lemma {:induction false} CleanEnds(p: Position, es: seq<StreamEvent>)
    requires PositionOk(p) && es != [] && ContiguousSequences(es) && Clean(p, es)
    ensures After(p, es).state.nextSequence == Max(p.state.nextSequence, es[0].sequence + |es|)
    decreases |es|
  {
    var first :| RecordedFrom(p.state, first);
    if es[0].sequence in p.state.seen {
      if |es| > 1 {
        assert es[1..][0] == es[1];
        CleanEnds(p, es[1..]);
      } else {
        assert es[1..] == [];
      }
    } else {
      CleanIffConsistent(p, es);
    }
  }

  lemma {:induction false} AfterSplit(p: Position, es: seq<StreamEvent>, k: nat)
    requires k <= |es|
    ensures After(p, es) == After(After(p, es[..k]), es[k..])
    ensures Clean(p, es) <==> Clean(p, es[..k]) && Clean(After(p, es[..k]), es[k..])
    decreases |es|
  {
    if k == 0 {
      assert es[k..] == es;
    } else {
      assert es[..k][1..] == es[1..][..k - 1];
      AfterSplit(Advance(p, es[0]), es[1..], k - 1);
      assert es[1..][k - 1..] == es[k..];
    }
  }

  /** A coalesced burst ends where applying it in order does, when both go through, if and only
      if the stream had not already gone beyond the burst: otherwise coalescing rewinds it. */
  lemma CoalescedAgreesIff(p: Position, es: seq<StreamEvent>, k: nat)
    requires PositionOk(p) && ContiguousSequences(es) && k < |es| && es[k].kind == SNAPSHOT && Clean(p, es)
    requires Clean(Position(p.store, Fenced(es[k].sequence)), es[k..])
    ensures After(Position(p.store, Fenced(es[k].sequence)), es[k..]).state.nextSequence ==
              After(p, es).state.nextSequence
            <==> p.state.nextSequence <= es[|es| - 1].sequence + 1
  {
    var kept, q := es[k..], Position(p.store, Fenced(es[k].sequence));
    FencedOk(es[k].sequence);
    SuffixContiguous(es, k);
    hide StateOk, EventsOk, ContiguousSequences, Clean, After, Consistent;
    assert kept[0] == es[k];
    CleanEnds(p, es);
    CleanIffConsistent(q, kept);
  }

  lemma ConsistentBefore(s: Events, t: Events, es: seq<StreamEvent>)
    requires StoreGrows(s, t) && Consistent(t, es)
    ensures Consistent(s, es)
  {
    forall i | 0 <= i < |es| ensures Agrees(s, es[i].event) {
      assert Agrees(t, es[i].event);
    }
  }

  /** When no kept event has been recorded before, a burst that can be applied in order can
      also be coalesced, and ends at the same sequence. */
  lemma CoalescedSucceeds(p: Position, es: seq<StreamEvent>, k: nat)
    requires PositionOk(p) && ContiguousSequences(es) && k < |es| && es[k].kind == SNAPSHOT && Clean(p, es)
    requires p.state.nextSequence <= es[k].sequence
    ensures var q := Position(p.store, Fenced(es[k].sequence));
            Clean(q, es[k..]) && After(q, es[k..]).state.nextSequence == After(p, es).state.nextSequence
  {
    var kept, q := es[k..], Position(p.store, Fenced(es[k].sequence));
    AfterSplit(p, es, k);
    var r := After(p, es[..k]);
    RunKeepsOk(p, es[..k]);
    if k > 0 {
      CleanEnds(p, es[..k]);
    } else {
      assert es[..k] == [];
      NextNotSkipped(p, es);
    }
    assert kept[0] == es[k];
    CleanIffConsistent(r, kept);
    ConsistentBefore(p.store, r.store, kept);
    FencedOk(es[k].sequence);
    CleanIffConsistent(q, kept);
    CoalescedAgreesIff(p, es, k);
  }

  lemma NextNotSkipped(p: Position, es: seq<StreamEvent>)
    requires PositionOk(p) && es != [] && Clean(p, es) && p.state.nextSequence <= es[0].sequence
    ensures p.state.nextSequence == es[0].sequence
  {
    var first :| RecordedFrom(p.state, first);
  }

  function SampleEvent(key: Text, operationId: Text, sequence: nat): StreamEvent {
    StreamEvent(Event(Metadata(key, "t", key, operationId, key, "SourceChanged", "now", None), NO_PAYLOAD), "s",
                sequence, SNAPSHOT, None, None)
  }

  /** A stream that has recorded two snapshots. */
  function SamplePosition(): Position {
    Advance(Advance(Position(Events(map[], map[]), Fenced(0)), SampleEvent("a", "p", 0)), SampleEvent("b", "p", 1))
  }

  lemma SampleFacts()
    ensures var p, a, c := SamplePosition(), SampleEvent("a", "p", 0), SampleEvent("b", "other", 1);
            && PositionOk(p)
            && Check(p, a) == DUPLICATE && Advance(p, a) == p
            && Check(p, c) == DUPLICATE
            && Check(Position(p.store, Fenced(1)), c).REPAIR_REQUIRED?
  {
    var start, a, b := Position(Events(map[], map[]), Fenced(0)), SampleEvent("a", "p", 0), SampleEvent("b", "p", 1);
    FencedOk(0);
    AdvanceKeepsOk(start, a);
    AdvanceKeepsOk(Advance(start, a), b);
    var p := SamplePosition();
    var q := Advance(start, a);
    assert q == Position(Append(start.store, a.event), Recorded(start.state, a));
    assert p == Position(Append(q.store, b.event), Recorded(q.state, b));
    assert FingerprintOf(SampleEvent("b", "other", 1)) == FingerprintOf(b);
    assert p.store.idempotency["b"] == b.event.metadata;
  }

  /** Where a burst repeats recorded sequences the two ways can differ: the digest of a stream
      event leaves out its operation, so in order the burst is all duplicates, while coalesced
      it contradicts the store. */
  lemma CoalescedConflictWitness()
    ensures var p, es := SamplePosition(), [SampleEvent("a", "p", 0), SampleEvent("b", "other", 1)];
            && PositionOk(p) && ContiguousSequences(es) && es[1].kind == SNAPSHOT
            && Clean(p, es) && !Clean(Position(p.store, Fenced(es[1].sequence)), es[1..])
  {
    SampleFacts();
    var p, es := SamplePosition(), [SampleEvent("a", "p", 0), SampleEvent("b", "other", 1)];
    var q := Position(p.store, Fenced(1));
    hide Check, Advance, SamplePosition, PositionOk;
    assert es[1..] == [es[1]] && es[1..][1..] == [];
    assert Clean(p, es[1..]) && Clean(p, es);
    assert !Clean(q, es[1..]);
  }

  /** A burst of recorded sequences goes through both ways, but coalescing it sets a stream that
      stands at sequence 3 back to 2. */
  lemma CoalescedRewindsWitness()
    ensures var p := Advance(SamplePosition(), SampleEvent("c", "p", 2));
            var es := [SampleEvent("a", "p", 0), SampleEvent("b", "p", 1)];
            var q := Position(p.store, Fenced(es[1].sequence));
            && PositionOk(p) && ContiguousSequences(es) && es[1].kind == SNAPSHOT && Clean(p, es) && Clean(q, es[1..])
            && After(p, es).state.nextSequence == 3 && After(q, es[1..]).state.nextSequence == 2
  {
    RewindFacts();
    var a, b := SampleEvent("a", "p", 0), SampleEvent("b", "p", 1);
    var p, es := Advance(SamplePosition(), SampleEvent("c", "p", 2)), [a, b];
    var q := Position(p.store, Fenced(1));
    hide Check, Advance, SamplePosition, PositionOk, SampleEvent;
    assert es[1..] == [b];
    RepeatedTwo(p, a, b);
    AfterOne(q, b);
  }

  lemma AfterOne(p: Position, e: StreamEvent)
    requires !Check(p, e).REPAIR_REQUIRED?
    ensures Clean(p, [e]) && After(p, [e]) == Advance(p, e)
  {
    hide Check, Advance;
    assert [e][1..] == [];
  }

  lemma RepeatedTwo(p: Position, a: StreamEvent, b: StreamEvent)
    requires Check(p, a) == Check(p, b) == DUPLICATE && Advance(p, a) == Advance(p, b) == p
    ensures Clean(p, [a, b]) && After(p, [a, b]) == p
  {
    hide Check, Advance;
    assert [a, b][1..] == [b];
    AfterOne(p, b);
  }

  lemma RewindFacts()
    ensures var p, a, b := Advance(SamplePosition(), SampleEvent("c", "p", 2)), SampleEvent("a", "p", 0),
                           SampleEvent("b", "p", 1);
            var q := Position(p.store, Fenced(1));
            && PositionOk(p) && p.state.nextSequence == 3
            && Check(p, a) == DUPLICATE && Advance(p, a) == p
            && Check(p, b) == DUPLICATE && Advance(p, b) == p
            && !Check(q, b).REPAIR_REQUIRED? && Advance(q, b).state.nextSequence == 2
  {
    SampleFacts();
    var start, a, b := Position(Events(map[], map[]), Fenced(0)), SampleEvent("a", "p", 0), SampleEvent("b", "p", 1);
    var c, o := SampleEvent("c", "p", 2), Advance(start, a);
    AdvanceKeepsOk(SamplePosition(), c);
    assert o == Position(Append(start.store, a.event), Recorded(start.state, a));
    var m := SamplePosition();
    assert m == Position(Append(o.store, b.event), Recorded(o.state, b));
    assert Advance(m, c) == Position(Append(m.store, c.event), Recorded(m.state, c));
  }

  // ---- the runtime's streams ------------------------------------------------------------

  datatype View = View(store: Events, states: map<Text, StreamState>, distrusts: nat)

  function PositionIn(v: View, streamId: Text): Position {
    Position(v.store, if streamId in v.states then v.states[streamId] else UNSEEN)
  }

  ghost predicate ViewOk(v: View) {
    EventsOk(v.store) && forall id :: id in v.states ==> StateOk(v.states[id])
  }

  function Judge(v: View, tenantId: Text, e: StreamEvent): Outcome {
    if e.event.metadata.tenantId != tenantId then TENANT_VIOLATION else Check(PositionIn(v, e.streamId), e)
  }

  /** One event: only its own stream moves; a repair drops cached trust. */
  function Applied(v: View, tenantId: Text, e: StreamEvent): View {
    var p := PositionIn(v, e.streamId);
    match Judge(v, tenantId, e)
    case TENANT_VIOLATION => v
    case REPAIR_REQUIRED(_) => View(v.store, v.states[e.streamId := Fenced(e.sequence)], v.distrusts + 1)
    case _ =>
      if e.sequence in p.state.seen then v
      else View(Append(v.store, e.event), v.states[e.streamId := Recorded(p.state, e)], v.distrusts)
  }

  predicate Passes(o: Outcome) { o == APPLIED || o == DUPLICATE }

  /** The verdict on an event of this tenant's stream s, by what the stream has recorded and what the
      store has under the event's key. */
  ghost predicate OutcomeTells(store: Events, s: StreamState, e: StreamEvent, o: Outcome) {
    var known, turn := e.sequence in s.seen, e.sequence == s.nextSequence && (s.hasSnapshot || e.kind == SNAPSHOT);
    var stored := Stored(store, e.event.metadata.idempotencyKey);
    && (o == REPAIR_REQUIRED(REORDERED) <==> !known && e.sequence < s.nextSequence)
    && (o == REPAIR_REQUIRED(GAP) <==> !known && e.sequence > s.nextSequence)
    && (o == REPAIR_REQUIRED(DELTA_BEFORE_SNAPSHOT) <==>
          !known && e.sequence == s.nextSequence && !s.hasSnapshot && e.kind == DELTA)
    && (o == REPAIR_REQUIRED(CONFLICT) <==>
          if known then s.seen[e.sequence] != FingerprintOf(e) else turn && stored.Some? && stored != Some(e.event))
    && (o == DUPLICATE <==>
          if known then s.seen[e.sequence] == FingerprintOf(e) else turn && stored == Some(e.event))
    && (o == APPLIED <==> !known && turn && stored == None)
  }

  /** What becomes of the stream: nothing when the event is recorded already, a fence when it needs a
      repair, and otherwise it is recorded. */
  ghost predicate StateTells(s: StreamState, e: StreamEvent, o: Outcome, now: StreamState) {
    if o.REPAIR_REQUIRED? then now == StreamState(e.sequence, map[], false)
    else if e.sequence in s.seen then now == s
    else
      && now.nextSequence == e.sequence + 1 && now.seen == s.seen[e.sequence := FingerprintOf(e)]
      && (now.hasSnapshot <==> s.hasSnapshot || e.kind == SNAPSHOT)
  }

  lemma JudgeTells(v: View, tenantId: Text, e: StreamEvent)
    requires ViewOk(v)
    ensures var p, o, now := PositionIn(v, e.streamId), Judge(v, tenantId, e), Applied(v, tenantId, e);
            if e.event.metadata.tenantId != tenantId then o == TENANT_VIOLATION && now == v
            else
              && OutcomeTells(v.store, p.state, e, o) && StateTells(p.state, e, o, PositionIn(now, e.streamId).state)
              && (now.distrusts == if o.REPAIR_REQUIRED? then v.distrusts + 1 else v.distrusts)
  {}

  /** The sequences of the events with this verdict, when events are applied in order. */
  function JudgedSo(v: View, tenantId: Text, es: seq<StreamEvent>, o: Outcome): seq<nat>
    decreases |es|
  {
    if es == [] then []
    else (if Judge(v, tenantId, es[0]) == o then [es[0].sequence] else [])
         + JudgedSo(Applied(v, tenantId, es[0]), tenantId, es[1..], o)
  }

  /** Applying events in order until one does not pass. */
  function InOrder(v: View, tenantId: Text, es: seq<StreamEvent>): View
    decreases |es|
  {
    if es == [] then v
    else if Passes(Judge(v, tenantId, es[0])) then InOrder(Applied(v, tenantId, es[0]), tenantId, es[1..])
    else Applied(v, tenantId, es[0])
  }

  function Verdict(v: View, tenantId: Text, es: seq<StreamEvent>): Outcome
    decreases |es|
  {
    if es == [] then APPLIED
    else if Passes(Judge(v, tenantId, es[0])) then Verdict(Applied(v, tenantId, es[0]), tenantId, es[1..])
    else Judge(v, tenantId, es[0])
  }

  lemma AppliedKeepsOk(v: View, tenantId: Text, e: StreamEvent)
    requires ViewOk(v)
    ensures ViewOk(Applied(v, tenantId, e))
    ensures Judge(v, tenantId, e) != TENANT_VIOLATION ==>
              PositionIn(Applied(v, tenantId, e), e.streamId) == Advance(PositionIn(v, e.streamId), e)
    ensures forall id :: id != e.streamId ==> PositionIn(Applied(v, tenantId, e), id).state == PositionIn(v, id).state
  {
    assert UNSEEN == Fenced(0);
    FencedOk(0);
    AdvanceKeepsOk(PositionIn(v, e.streamId), e);
  }

  /** On one stream, applying in order is the stream's own run. */
  lemma {:induction false} InOrderIsRun(v: View, tenantId: Text, es: seq<StreamEvent>, streamId: Text)
    requires ViewOk(v) && forall i :: 0 <= i < |es| ==>
               es[i].streamId == streamId && es[i].event.metadata.tenantId == tenantId
    ensures Verdict(v, tenantId, es) == APPLIED <==> Clean(PositionIn(v, streamId), es)
    ensures Clean(PositionIn(v, streamId), es) ==>
              PositionIn(InOrder(v, tenantId, es), streamId) == After(PositionIn(v, streamId), es)
              && InOrder(v, tenantId, es).distrusts == v.distrusts
    decreases |es|
  {
    if es != [] {
      AppliedKeepsOk(v, tenantId, es[0]);
      if Passes(Judge(v, tenantId, es[0])) { InOrderIsRun(Applied(v, tenantId, es[0]), tenantId, es[1..], streamId); }
    }
  }

  datatype RepairResult =
    | Repaired(applied: seq<nat>, duplicates: seq<nat>)
    | PageRefused
    | TenantRefused
    | RepairFailed(reason: Reason)

  datatype BurstResult =
    | BurstApplied(applied: seq<nat>, duplicates: seq<nat>)
    | BurstRepair(reason: Reason)
    | BurstRefused
    | BurstCoalesced(repair: RepairResult, skipped: seq<nat>)

  /** How a burst applied in order is reported. */
  predicate Reports(r: BurstResult, o: Outcome) {
    match o
    case REPAIR_REQUIRED(reason) => r == BurstRepair(reason)
    case TENANT_VIOLATION => r == BurstRefused
    case _ => r.BurstApplied?
  }

  class PremiseStreams {
    const tenantId: Text
    const store: InMemoryRuntimeStore
    var streamStates: map<Text, StreamState>
    var distrusts: nat

    ghost function Now(): View
      reads this, store
    {
      View(store.State(), streamStates, distrusts)
    }

    ghost predicate Valid()
      reads this, store
    {
      store.Valid() && ViewOk(Now())
    }

    constructor (tenantId: Text, store: InMemoryRuntimeStore)
      requires store.Valid()
      ensures Valid() && this.store == store && this.tenantId == tenantId && Now() == View(store.State(), map[], 0)
    {
      this.tenantId, this.store := tenantId, store;
      streamStates, distrusts := map[], 0;
    }

    method StateOf(streamId: Text) returns (s: StreamState)
      ensures s == PositionIn(Now(), streamId).state
    {
      s := if streamId in streamStates then streamStates[streamId] else UNSEEN;
    }

    /** The stream is fenced at the event and everything cached is distrusted. */
    method StreamRepairRequired(e: StreamEvent, reason: Reason) returns (o: Outcome)
      modifies this`streamStates, this`distrusts
      ensures o == REPAIR_REQUIRED(reason)
      ensures streamStates == old(streamStates)[e.streamId := Fenced(e.sequence)] && distrusts == old(distrusts) + 1
    {
      streamStates := streamStates[e.streamId := StreamState(e.sequence, map[], false)];
      distrusts := distrusts + 1;
      o := REPAIR_REQUIRED(reason);
    }

    method ApplyEvent(e: Event) returns (accepted: bool)
      requires store.Valid() && e.metadata.tenantId == tenantId
      modifies store`events, store`idempotency
      ensures store.Valid() && store.State() == Append(old(store.State()), e)
      ensures accepted <==> KeyOf(e) !in old(store.idempotency)
    {
      if store.HasEvent(KeyOf(e)) {
        KnownUnchanged(store.State(), e);
        return false;
      }
      var d := store.AppendEvent(e);
      accepted := true;
    }

    method ApplyStreamEvent(e: StreamEvent) returns (o: Outcome)
      requires Valid()
      modifies this`streamStates, this`distrusts, store`events, store`idempotency
      ensures o == Judge(old(Now()), tenantId, e) && Now() == Applied(old(Now()), tenantId, e)
      ensures o == TENANT_VIOLATION <==> e.event.metadata.tenantId != tenantId
      ensures o != TENANT_VIOLATION ==>
                && OutcomeTells(old(store.State()), old(PositionIn(Now(), e.streamId).state), e, o)
                && StateTells(old(PositionIn(Now(), e.streamId).state), e, o, PositionIn(Now(), e.streamId).state)
      ensures Valid()
    {
      hide EventsOk, StateOk, Stored, OutcomeTells, StateTells;
      ghost var was := Now();
      JudgeTells(was, tenantId, e);
      AppliedKeepsOk(was, tenantId, e);
      if e.event.metadata.tenantId != tenantId { return TENANT_VIOLATION; }
      var state := StateOf(e.streamId);
      var fingerprint := FingerprintOf(e);
      if e.sequence in state.seen {
        if state.seen[e.sequence] == fingerprint { return DUPLICATE; }
        o := StreamRepairRequired(e, CONFLICT);
        return;
      }
      if e.sequence < state.nextSequence { o := StreamRepairRequired(e, REORDERED); return; }
      if e.sequence > state.nextSequence { o := StreamRepairRequired(e, GAP); return; }
      if !state.hasSnapshot && e.kind != SNAPSHOT { o := StreamRepairRequired(e, DELTA_BEFORE_SNAPSHOT); return; }
      var accepted := ApplyEvent(e.event);
      if !accepted {
        var existing := store.GetEvent(KeyOf(e.event));
        KnownCompared(was.store, e.event);
        if existing == None || existing.value != e.event {
          o := StreamRepairRequired(e, CONFLICT);
          return;
        }
      }
      var seen := state.seen[e.sequence := fingerprint];
      streamStates :=
        streamStates[e.streamId := StreamState(e.sequence + 1, seen, state.hasSnapshot || e.kind == SNAPSHOT)];
      o := if accepted then APPLIED else DUPLICATE;
    }

    /** Replaces an unknown stream by an authoritative page, or leaves it fenced at the page's
        first event. */
    method RepairStreamFromSnapshot(page: Page) returns (r: RepairResult)
      requires Valid()
      modifies this`streamStates, this`distrusts, store`events, store`idempotency
      ensures Valid()
      ensures r.PageRefused? || r.TenantRefused? <==>
                !WellFormed(page) || !Authoritative(page) || page.tenantId != tenantId
      ensures r.TenantRefused? <==> WellFormed(page) && page.tenantId != tenantId
      ensures r.PageRefused? || r.TenantRefused? ==> Now() == old(Now())
      ensures !r.PageRefused? && !r.TenantRefused? ==> (r.Repaired? <==> Consistent(old(store.State()), page.events))
      ensures r.Repaired? ==>
                && PositionIn(Now(), page.streamId) ==
                     After(Position(old(store.State()), Fenced(page.events[0].sequence)), page.events)
                && PositionIn(Now(), page.streamId).state.nextSequence == page.headSequence + 1
                && multiset(r.applied) + multiset(r.duplicates) == multiset(Sequences(page.events))
                && r.applied == Picked(old(store.State()), page.events, |page.events|, true)
                && r.duplicates == Picked(old(store.State()), page.events, |page.events|, false)
      ensures r.RepairFailed? ==> streamStates == old(streamStates)[page.streamId := Fenced(page.events[0].sequence)]
                                  && distrusts > old(distrusts) && StoreGrows(old(store.State()), store.State())
      ensures forall id :: id != page.streamId ==> PositionIn(Now(), id).state == old(PositionIn(Now(), id).state)
    {
      var formed := IsWellFormed(page);
      if !formed { return PageRefused; }
      if page.tenantId != tenantId { return TenantRefused; }
      var authoritative := IsAuthoritative(page);
      if !authoritative { return PageRefused; }
      RepairSucceedsIff(store.State(), page);
      r := ReplacePage(page);
    }

    /** Forgets what was recorded of a stream and what was cached. */
    method Fence(streamId: Text, sequence: nat)
      requires Valid()
      modifies this`streamStates, this`distrusts
      ensures Valid() && streamStates == old(streamStates)[streamId := Fenced(sequence)]
      ensures distrusts == old(distrusts) + 1
    {
      PageStart(Now(), streamId, sequence);
      streamStates := streamStates[streamId := StreamState(sequence, map[], false)];
      distrusts := distrusts + 1;
    }

    method ReplacePage(page: Page) returns (r: RepairResult)
      requires Valid() && WellFormed(page) && Authoritative(page) && page.tenantId == tenantId
      modifies this`streamStates, this`distrusts, store`events, store`idempotency
      ensures Valid() && (r.Repaired? || r.RepairFailed?)
      ensures r.Repaired? <==> Clean(Position(old(store.State()), Fenced(page.events[0].sequence)), page.events)
      ensures r.Repaired? ==>
                && PositionIn(Now(), page.streamId) ==
                     After(Position(old(store.State()), Fenced(page.events[0].sequence)), page.events)
                && multiset(r.applied) + multiset(r.duplicates) == multiset(Sequences(page.events))
                && r.applied == Picked(old(store.State()), page.events, |page.events|, true)
                && r.duplicates == Picked(old(store.State()), page.events, |page.events|, false)
      ensures r.RepairFailed? ==> streamStates == old(streamStates)[page.streamId := Fenced(page.events[0].sequence)]
                                  && distrusts > old(distrusts) && StoreGrows(old(store.State()), store.State())
      ensures forall id :: id != page.streamId ==> PositionIn(Now(), id).state == old(PositionIn(Now(), id).state)
    {
      hide EventsOk, StateOk, ViewOk, Consistent, WellFormed, Judge, Applied, Clean, After, StoreGrows, Sequences,
           OutcomeTells, StateTells, ContiguousSequences, Picked, Authoritative, PageSoFar;
      AuthoritativeStarts(page);
      var es := page.events;
      var first := es[0].sequence;
      ghost var was := Now();
      PageBegins(was, page);
      Fence(page.streamId, first);
      var applied: seq<nat>, duplicates: seq<nat> := [], [];
      var i := 0;
      while i < |es|
        invariant 0 <= i <= |es| && Valid() && PageSoFar(was, page, i, Now(), applied, duplicates)
      {
        PageGoesOn(was, page, i, Now(), applied, duplicates);
        var o := ApplyStreamEvent(es[i]);
        if o.REPAIR_REQUIRED? {
          Fence(page.streamId, first);
          return RepairFailed(o.reason);
        }
        if o == APPLIED { applied := applied + [es[i].sequence]; } else { duplicates := duplicates + [es[i].sequence]; }
        i := i + 1;
      }
      PageEnds(was, page, Now(), applied, duplicates);
      r := Repaired(applied, duplicates);
    }

    /** A burst, coalesced where its capabilities allow it, and otherwise in order. */
    method ApplyStreamBurst(es: seq<StreamEvent>, capabilities: set<Capability>) returns (r: BurstResult, ghost k: int)
      requires Valid()
      modifies this`streamStates, this`distrusts, store`events, store`idempotency
      ensures Valid() && LatestSnapshot(es, k)
      ensures r.BurstCoalesced? <==> PlanIs(es, capabilities, k, None)
      ensures r.BurstCoalesced? ==>
                && k > 0 && r.skipped == Sequences(es[..k]) && !r.repair.PageRefused?
                && (r.repair.TenantRefused? <==> es[0].event.metadata.tenantId != tenantId)
                && (r.repair.TenantRefused? ==> Now() == old(Now()))
      ensures r.BurstCoalesced? && es[0].event.metadata.tenantId == tenantId ==>
                (r.repair.Repaired? <==> Consistent(old(store.State()), es[k..]))
      ensures r.BurstCoalesced? && r.repair.Repaired? ==>
                PositionIn(Now(), es[0].streamId) ==
                  After(Position(old(store.State()), Fenced(es[k].sequence)), es[k..])
      ensures r.BurstCoalesced? && r.repair.RepairFailed? ==>
                streamStates == old(streamStates)[es[0].streamId := Fenced(es[k].sequence)] &&
                  distrusts > old(distrusts) && StoreGrows(old(store.State()), store.State())
      ensures !r.BurstCoalesced? ==> Now() == InOrder(old(Now()), tenantId, es)
      ensures !r.BurstCoalesced? ==> Reports(r, Verdict(old(Now()), tenantId, es))
      ensures r.BurstApplied? ==>
                && r.applied == JudgedSo(old(Now()), tenantId, es, APPLIED)
                && r.duplicates == JudgedSo(old(Now()), tenantId, es, DUPLICATE)
    {
      hide EventsOk, StateOk, ViewOk, PlanIs, LatestSnapshot, OutcomeTells, StateTells;
      var plan;
      plan, k := PlanStreamBurst(es, capabilities);
      if plan.Coalesced? {
        var page := Page(plan.tenantId, plan.streamId, plan.kept, plan.kept[|plan.kept| - 1].sequence, true);
        CoalescedIsAuthoritative(es, capabilities, k, page);
        var repaired := RepairStreamFromSnapshot(page);
        return BurstCoalesced(repaired, plan.skipped), k;
      }
      PlanDecided(es, capabilities, k, Some(plan.why));
      r := ApplyInOrder(es);
    }

    method ApplyInOrder(es: seq<StreamEvent>) returns (r: BurstResult)
      requires Valid()
      modifies this`streamStates, this`distrusts, store`events, store`idempotency
      ensures Valid() && !r.BurstCoalesced?
      ensures Now() == InOrder(old(Now()), tenantId, es) && Reports(r, Verdict(old(Now()), tenantId, es))
      ensures r.BurstApplied? ==>
                && r.applied == JudgedSo(old(Now()), tenantId, es, APPLIED)
                && r.duplicates == JudgedSo(old(Now()), tenantId, es, DUPLICATE)
    {
      hide EventsOk, StateOk, ViewOk, OutcomeTells, StateTells, Judge, Applied, JudgedSo, InOrder, Verdict;
      ghost var was := Now();
      var applied: seq<nat>, duplicates: seq<nat> := [], [];
      var i := 0;
      assert es[0..] == es;
      while i < |es|
        invariant 0 <= i <= |es| && Valid()
        invariant InOrder(was, tenantId, es) == InOrder(Now(), tenantId, es[i..])
        invariant Verdict(was, tenantId, es) == Verdict(Now(), tenantId, es[i..])
        invariant JudgedSo(was, tenantId, es, APPLIED) == applied + JudgedSo(Now(), tenantId, es[i..], APPLIED)
        invariant JudgedSo(was, tenantId, es, DUPLICATE) == duplicates + JudgedSo(Now(), tenantId, es[i..], DUPLICATE)
      {
        NextJudged(Now(), tenantId, es, i, applied, duplicates);
        var o := ApplyStreamEvent(es[i]);
        if o.REPAIR_REQUIRED? { return BurstRepair(o.reason); }
        if o == TENANT_VIOLATION { return BurstRefused; }
        if o == APPLIED { applied := applied + [es[i].sequence]; } else { duplicates := duplicates + [es[i].sequence]; }
        i := i + 1;
      }
      NoneLeft(Now(), tenantId, es, applied, duplicates);
      r := BurstApplied(applied, duplicates);
    }
  }

  lemma NoneLeft(v: View, tenantId: Text, es: seq<StreamEvent>, applied: seq<nat>, duplicates: seq<nat>)
    ensures es[|es|..] == [] && InOrder(v, tenantId, []) == v && Verdict(v, tenantId, []) == APPLIED
    ensures applied + JudgedSo(v, tenantId, [], APPLIED) == applied
    ensures duplicates + JudgedSo(v, tenantId, [], DUPLICATE) == duplicates
  {}

  lemma NextJudged(v: View, tenantId: Text, es: seq<StreamEvent>, i: nat, applied: seq<nat>, duplicates: seq<nat>)
    requires i < |es|
    ensures var e, o, u := es[i], Judge(v, tenantId, es[i]), Applied(v, tenantId, es[i]);
            var here, next := es[i..], es[i + 1..];
            && (if Passes(o) then
                  InOrder(v, tenantId, here) == InOrder(u, tenantId, next) &&
                    Verdict(v, tenantId, here) == Verdict(u, tenantId, next)
                else InOrder(v, tenantId, here) == u && Verdict(v, tenantId, here) == o)
            && applied + JudgedSo(v, tenantId, here, APPLIED) ==
                 (if o == APPLIED then applied + [e.sequence] else applied) + JudgedSo(u, tenantId, next, APPLIED)
            && duplicates + JudgedSo(v, tenantId, here, DUPLICATE) ==
                 (if o == DUPLICATE then duplicates + [e.sequence] else duplicates)
                 + JudgedSo(u, tenantId, next, DUPLICATE)
  {
    hide Judge, Applied;
    assert es[i..][0] == es[i] && es[i..][1..] == es[i + 1..];
  }

  method IsWellFormed(page: Page) returns (ok: bool)
    ensures ok <==> WellFormed(page)
  {
    for i := 0 to |page.events|
      invariant forall j :: 0 <= j < i ==>
                  && page.events[j].streamId == page.streamId && page.events[j].event.metadata.tenantId == page.tenantId
                  && page.events[j].sequence <= page.headSequence
    {
      var e := page.events[i];
      if e.streamId != page.streamId || e.event.metadata.tenantId != page.tenantId || e.sequence > page.headSequence {
        return false;
      }
    }
    ok := true;
  }

  method IsAuthoritative(page: Page) returns (ok: bool)
    ensures ok <==> Authoritative(page)
  {
    var es := page.events;
    if |es| == 0 || !page.terminal || es[0].kind != SNAPSHOT || es[|es| - 1].sequence != page.headSequence {
      return false;
    }
    ok := AreContiguous(es);
  }

  lemma PageStart(v: View, streamId: Text, first: nat)
    requires ViewOk(v)
    ensures ViewOk(View(v.store, v.states[streamId := Fenced(first)], v.distrusts + 1))
    ensures StoreGrows(v.store, v.store)
    ensures multiset(Sequences([])) == multiset{}
    ensures forall p :: Clean(p, [])
    ensures forall p :: After(p, []) == p
  {
    FencedOk(first);
  }

  lemma PageEvent(page: Page, i: nat)
    requires WellFormed(page) && i < |page.events|
    ensures page.events[i].streamId == page.streamId && page.events[i].event.metadata.tenantId == page.tenantId
    ensures page.events[i..][0] == page.events[i] && page.events[i..][1..] == page.events[i + 1..]
  {}

  lemma SequencesPush(es: seq<StreamEvent>, i: nat)
    requires i < |es|
    ensures multiset(Sequences(es[..i + 1])) == multiset(Sequences(es[..i])) + multiset{es[i].sequence}
  {
    assert Sequences(es[..i + 1]) == Sequences(es[..i]) + [es[i].sequence];
  }

  lemma AppliedGrows(v: View, tenantId: Text, e: StreamEvent)
    requires ViewOk(v)
    ensures StoreGrows(v.store, Applied(v, tenantId, e).store)
  {
    AppendGrows(v.store, e.event);
  }

  lemma CoalescedIsAuthoritative(es: seq<StreamEvent>, capabilities: set<Capability>, k: int, page: Page)
    requires LatestSnapshot(es, k) && PlanIs(es, capabilities, k, None)
    requires 0 < k < |es|
    requires page == Page(es[0].event.metadata.tenantId, es[0].streamId, es[k..], es[|es| - 1].sequence, true)
    ensures WellFormed(page) && Authoritative(page)
  {
    PlanDecided(es, capabilities, k, None);
    assert es[k].kind == SNAPSHOT;
    hide PlanIs, LatestSnapshot, OneStream, ContiguousSequences, WellFormed;
    SuffixContiguous(es, k);
    SuffixFormed(es, k, page);
    assert page.events[0] == es[k] && page.events[|es| - k - 1] == es[|es| - 1];
  }

  lemma SuffixFormed(es: seq<StreamEvent>, k: nat, page: Page)
    requires OneStream(es) && ContiguousSequences(es) && k < |es|
    requires page == Page(es[0].event.metadata.tenantId, es[0].streamId, es[k..], es[|es| - 1].sequence, true)
    ensures WellFormed(page)
  {
    forall i | 0 <= i < |page.events|
      ensures page.events[i].streamId == page.streamId && page.events[i].event.metadata.tenantId == page.tenantId
      ensures page.events[i].sequence <= page.headSequence
    {
      assert page.events[i] == es[k + i];
    }
  }

  lemma PlanDecided(es: seq<StreamEvent>, capabilities: set<Capability>, k: int, why: Option<PlanReason>)
    requires PlanIs(es, capabilities, k, why)
    ensures why == None ==> es != [] && OneStream(es) && ContiguousSequences(es) && k > 0
    ensures why != None ==> !PlanIs(es, capabilities, k, None)
  {}

  lemma SuffixContiguous(es: seq<StreamEvent>, k: nat)
    requires ContiguousSequences(es) && k <= |es|
    ensures ContiguousSequences(es[k..])
  {
    assert forall i :: 0 <= i < |es| - k ==> es[k..][i] == es[k + i];
  }

  /** One step of a run over a page, seen from the runtime. */
  /** The event's key is not in the store, and none of the events before it has it. */
  ghost predicate NewAt(s: Events, es: seq<StreamEvent>, i: nat)
    requires i < |es|
  {
    var key := es[i].event.metadata.idempotencyKey;
    key !in s.idempotency && forall j :: 0 <= j < i ==> es[j].event.metadata.idempotencyKey != key
  }

  /** The sequences of those of the first n events that are new to the store, or are not. */
  ghost function Picked(s: Events, es: seq<StreamEvent>, n: nat, isNew: bool): seq<nat>
    requires n <= |es|
  {
    if n == 0 then []
    else Picked(s, es, n - 1, isNew) + if NewAt(s, es, n - 1) == isNew then [es[n - 1].sequence] else []
  }

  /** The keys in the store now are those of s and of the first n events. */
  ghost predicate HasKeys(s: Events, es: seq<StreamEvent>, n: nat, now: Events)
    requires n <= |es|
  {
    forall k :: k in now.idempotency <==>
                k in s.idempotency || exists j {:trigger es[j]} :: 0 <= j < n && KeyOf(es[j].event) == k
  }

  lemma PickedNone(s: Events, es: seq<StreamEvent>)
    ensures HasKeys(s, es, 0, s) && forall isNew :: Picked(s, es, 0, isNew) == []
  {}

  lemma PickedNext(s: Events, es: seq<StreamEvent>, i: nat)
    requires i < |es|
    ensures forall isNew :: Picked(s, es, i + 1, isNew) ==
                            Picked(s, es, i, isNew) + if NewAt(s, es, i) == isNew then [es[i].sequence] else []
  {
    hide NewAt;
  }

  lemma AuthoritativeStarts(page: Page)
    requires Authoritative(page)
    ensures page.events != []
  {}

  lemma KeysNext(s: Events, es: seq<StreamEvent>, i: nat, v: Events, u: Events)
    requires i < |es| && HasKeys(s, es, i, v)
    requires forall k :: k in u.idempotency <==> k in v.idempotency || k == KeyOf(es[i].event)
    ensures HasKeys(s, es, i + 1, u)
    ensures KeyOf(es[i].event) in v.idempotency <==> !NewAt(s, es, i)
  {}

  /** An event of a page is applied exactly if it is new. */
  lemma PageVerdict(s: Events, v: View, page: Page, i: nat)
    requires ViewOk(v) && WellFormed(page) && Authoritative(page) && i < |page.events|
    requires HasKeys(s, page.events, i, v.store) && page.streamId in v.states
    requires v.states[page.streamId].nextSequence == page.events[0].sequence + i
    ensures var es := page.events;
            var o, u := Judge(v, page.tenantId, es[i]), Applied(v, page.tenantId, es[i]);
            !o.REPAIR_REQUIRED? ==>
              && (o == APPLIED <==> NewAt(s, es, i))
              && HasKeys(s, es, i + 1, u.store)
              && PositionIn(u, page.streamId).state.nextSequence == es[0].sequence + i + 1
  {
    var e := page.events[i];
    PageEvent(page, i);
    var state := v.states[page.streamId];
    var first :| RecordedFrom(state, first);
    assert e.sequence == state.nextSequence && e.sequence !in state.seen;
    hide WellFormed, HasKeys, NewAt, RecordedFrom, EventsOk, Stored;
    if !Judge(v, page.tenantId, e).REPAIR_REQUIRED? {
      KeysNext(s, page.events, i, v.store, Append(v.store, e.event));
    }
  }

  lemma PageStep(v: View, page: Page, i: nat)
    requires ViewOk(v) && WellFormed(page) && i < |page.events|
    ensures var e, u := page.events[i], Applied(v, page.tenantId, page.events[i]);
            var o := Judge(v, page.tenantId, e);
            && ViewOk(u) && StoreGrows(v.store, u.store) && o != TENANT_VIOLATION && e.streamId == page.streamId
            && (Clean(PositionIn(v, page.streamId), page.events[i..]) <==>
                  !o.REPAIR_REQUIRED? && Clean(PositionIn(u, page.streamId), page.events[i + 1..]))
            && After(PositionIn(v, page.streamId), page.events[i..]) ==
                 After(PositionIn(u, page.streamId), page.events[i + 1..])
            && (if o.REPAIR_REQUIRED? then u.distrusts == v.distrusts + 1 else u.distrusts == v.distrusts)
            && (page.streamId in v.states ==>
                  page.streamId in u.states && u.states == v.states[page.streamId := u.states[page.streamId]])
  {
    PageEvent(page, i);
    AppliedKeepsOk(v, page.tenantId, page.events[i]);
    AppliedGrows(v, page.tenantId, page.events[i]);
    hide Check, Advance, EventsOk, WellFormed;
  }

  /** The state of a repair after the first i events of the page, none of which needed one. */
  ghost predicate PageSoFar(was: View, page: Page, i: nat, now: View, applied: seq<nat>, duplicates: seq<nat>) {
    var es := page.events;
    && es != [] && i <= |es| && page.streamId in now.states
    && now.states == was.states[page.streamId := now.states[page.streamId]]
    && now.states[page.streamId].nextSequence == es[0].sequence + i
    && now.distrusts == was.distrusts + 1 && StoreGrows(was.store, now.store) && HasKeys(was.store, es, i, now.store)
    && var start := Position(was.store, Fenced(es[0].sequence));
    && (Clean(start, es) <==> Clean(PositionIn(now, page.streamId), es[i..]))
    && After(start, es) == After(PositionIn(now, page.streamId), es[i..])
    && applied == Picked(was.store, es, i, true) && duplicates == Picked(was.store, es, i, false)
    && multiset(applied) + multiset(duplicates) == multiset(Sequences(es[..i]))
  }

  lemma PageBegins(was: View, page: Page)
    requires page.events != []
    ensures PageSoFar(was, page, 0, View(was.store, was.states[page.streamId := Fenced(page.events[0].sequence)],
                                         was.distrusts + 1), [], [])
  {
    assert page.events[0..] == page.events;
    PickedNone(was.store, page.events);
  }

  lemma PageGoesOn(was: View, page: Page, i: nat, v: View, applied: seq<nat>, duplicates: seq<nat>)
    requires ViewOk(v) && WellFormed(page) && Authoritative(page) && i < |page.events|
    requires PageSoFar(was, page, i, v, applied, duplicates)
    ensures var e, o, u := page.events[i], Judge(v, page.tenantId, page.events[i]),
                           Applied(v, page.tenantId, page.events[i]);
            && o != TENANT_VIOLATION && e.streamId == page.streamId
            && (o.REPAIR_REQUIRED? ==>
                  && !Clean(Position(was.store, Fenced(page.events[0].sequence)), page.events)
                  && page.streamId in u.states && u.states == was.states[page.streamId := u.states[page.streamId]]
                  && u.distrusts > was.distrusts && StoreGrows(was.store, u.store))
            && (o == APPLIED ==> PageSoFar(was, page, i + 1, u, applied + [e.sequence], duplicates))
            && (o == DUPLICATE ==> PageSoFar(was, page, i + 1, u, applied, duplicates + [e.sequence]))
  {
    hide WellFormed, Authoritative, ViewOk, Judge, Applied, Clean, After, HasKeys, NewAt, Picked, StoreGrows, Sequences,
         RecordedFrom;
    var u := Applied(v, page.tenantId, page.events[i]);
    PageStep(v, page, i);
    PageVerdict(was.store, v, page, i);
    PickedNext(was.store, page.events, i);
    SequencesPush(page.events, i);
    GrowsTwice(was.store, v.store, u.store);
  }

  lemma PageEnds(was: View, page: Page, now: View, applied: seq<nat>, duplicates: seq<nat>)
    requires PageSoFar(was, page, |page.events|, now, applied, duplicates)
    ensures var es, start := page.events, Position(was.store, Fenced(page.events[0].sequence));
            && Clean(start, es) && PositionIn(now, page.streamId) == After(start, es)
            && now.states == was.states[page.streamId := now.states[page.streamId]]
            && applied == Picked(was.store, es, |es|, true) && duplicates == Picked(was.store, es, |es|, false)
            && multiset(applied) + multiset(duplicates) == multiset(Sequences(es))
  {
    hide HasKeys, Picked, StoreGrows;
    assert page.events[..|page.events|] == page.events && page.events[|page.events|..] == [];
  }

  lemma KnownUnchanged(s: Events, e: Event)
    requires KeyOf(e) in s.idempotency
    ensures Append(s, e) == s
  {}

  lemma KnownCompared(s: Events, e: Event)
    requires EventsOk(s)
    ensures KeyOf(e) in s.idempotency ==>
              Append(s, e) == s && Stored(s, KeyOf(e)).Some? && (Agrees(s, e) <==> Stored(s, KeyOf(e)).value == e)
  {}

  /** A runtime applies an event. Another one over the same store, which knows nothing of the
      stream, recognises it; once the store has compacted it away, a third one takes the same
      event for a conflict. */
  method ResentAfterCompactionWitness() returns (first: Outcome, second: Outcome, third: Outcome)
    ensures first == APPLIED && second == DUPLICATE && third == REPAIR_REQUIRED(CONFLICT)
  {
    hide EventsOk, StateOk, ViewOk, Compacts, CompactedState, RecordedFrom;
    var m := Metadata("k", "t", "e", "o", "d", "SourceChanged", "now", None);
    var e := StreamEvent(Event(m, "payload"), "s", 0, SNAPSHOT, None, None);
    var store := new InMemoryRuntimeStore();
    var streams := new PremiseStreams("t", store);
    first := streams.ApplyStreamEvent(e);
    streams := new PremiseStreams("t", store);
    second := streams.ApplyStreamEvent(e);
    var checkpoint := Checkpoint(true, [], 1, [m]);
    OneRemembered(checkpoint, m);
    var ok := store.CompactOperational(checkpoint, [], false);
    streams := new PremiseStreams("t", store);
    third := streams.ApplyStreamEvent(e);
  }

  lemma OneRemembered(checkpoint: Checkpoint, m: Metadata)
    requires checkpoint.intact && checkpoint.idempotencyState == [m]
    ensures Compacts(checkpoint, []) && CompactedState(checkpoint, []) == Events(map[], map[m.idempotencyKey := m])
  {
    assert Remember(map[m.idempotencyKey := m], [m][1..]) == map[m.idempotencyKey := m];
  }
}
