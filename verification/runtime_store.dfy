/** The in-memory runtime store: records, retained events, and what is remembered of every
    event so that a redelivery is recognised, also after compaction. */
module RuntimeStore {
  import opened MemoryStatus
  import opened Wrappers

  type Text = string

  datatype Record = Record(
    memoryId: Text, tenantId: Text, sources: seq<Text>, dependsOn: seq<Text>, status: Status, content: Text)

  /** An event's identity, kept after its payload has been compacted away. */
  datatype Metadata = Metadata(
    idempotencyKey: Text, tenantId: Text, eventId: Text, operationId: Text, requestDigest: Text,
    eventType: Text, occurredAt: Text, memoryId: Option<Text>)

  datatype Event = Event(metadata: Metadata, payload: Text)

  /** The payload of an event that is only remembered by its metadata: an empty object. */
  const NO_PAYLOAD: Text := "{}"

  function KeyOf(e: Event): Text { e.metadata.idempotencyKey }

  datatype Decision = Accepted | Ignored | Rejected

  // ---- decisions ------------------------------------------------------------------------

  datatype Events = Events(retained: map<Text, Event>, idempotency: map<Text, Metadata>)

  /** Every retained event is remembered, under its own key. */
  ghost predicate EventsOk(s: Events) {
    && (forall k :: k in s.idempotency ==> s.idempotency[k].idempotencyKey == k)
    && (forall k :: k in s.retained ==> k in s.idempotency && s.idempotency[k] == s.retained[k].metadata)
  }

  /** What appendEvent does with an event. */
  function Decide(s: Events, e: Event): Decision {
    var k := KeyOf(e);
    if k in s.idempotency then (if s.idempotency[k] == e.metadata then Ignored else Rejected)
    else if k in s.retained then
      (if s.retained[k].metadata.eventId == e.metadata.eventId &&
          s.retained[k].metadata.requestDigest == e.metadata.requestDigest
       then Ignored else Rejected)
    else Accepted
  }

  function Append(s: Events, e: Event): Events {
    if Decide(s, e) == Accepted then Events(s.retained[KeyOf(e) := e], s.idempotency[KeyOf(e) := e.metadata]) else s
  }

  function AppendAll(s: Events, es: seq<Event>): Events
    decreases |es|
  {
    if es == [] then s else AppendAll(Append(s, es[0]), es[1..])
  }

  function Decisions(s: Events, es: seq<Event>): seq<Decision>
    decreases |es|
  {
    if es == [] then [] else [Decide(s, es[0])] + Decisions(Append(s, es[0]), es[1..])
  }

  lemma AppendKeepsOk(s: Events, e: Event)
    requires EventsOk(s)
    ensures EventsOk(Append(s, e))
  {}

  /** Two stores decide every event alike exactly when they remember the same metadata. */
  lemma DecideAlikeIff(s: Events, t: Events)
    requires EventsOk(s) && EventsOk(t)
    ensures (forall e :: Decide(s, e) == Decide(t, e)) <==> s.idempotency == t.idempotency
  {
    if forall e :: Decide(s, e) == Decide(t, e) {
      forall k | k in s.idempotency ensures k in t.idempotency && t.idempotency[k] == s.idempotency[k] {
        var e := Event(s.idempotency[k], NO_PAYLOAD);
        assert Decide(s, e) == Ignored == Decide(t, e);
      }
      forall k | k in t.idempotency ensures k in s.idempotency {
        var e := Event(t.idempotency[k], NO_PAYLOAD);
        assert Decide(t, e) == Ignored == Decide(s, e);
      }
      assert s.idempotency == t.idempotency;
    }
  }

  /** And then they decide every later run of events alike, too. */
  lemma {:induction false} RunsAlike(s: Events, t: Events, es: seq<Event>)
    requires EventsOk(s) && EventsOk(t) && s.idempotency == t.idempotency
    ensures Decisions(s, es) == Decisions(t, es) && AppendAll(s, es).idempotency == AppendAll(t, es).idempotency
    decreases |es|
  {
    if es != [] {
      AppendKeepsOk(s, es[0]);
      AppendKeepsOk(t, es[0]);
      assert Decide(s, es[0]) == Decide(t, es[0]);
      RunsAlike(Append(s, es[0]), Append(t, es[0]), es[1..]);
    }
  }

  /** The event under a key, or what is left of it: after compaction its payload is gone. */
  function Stored(s: Events, key: Text): Option<Event> {
    if key in s.retained then Some(s.retained[key])
    else if key in s.idempotency then Some(Event(s.idempotency[key], NO_PAYLOAD))
    else None
  }

  // ---- compaction -----------------------------------------------------------------------

  datatype TailEntry = TailEntry(cursor: int, event: Option<Event>)

  /** A checkpoint; intact says that its digest matches its contents. */
  datatype Checkpoint = Checkpoint(
    intact: bool, activeRecords: seq<Record>, eventCursor: nat, idempotencyState: seq<Metadata>)

  datatype Recovery = Ready(finalCursor: int) | InvalidCheckpoint | TailCursor | TailReordered | TailGap

  /** The tail goes on where the checkpoint ends, without a gap. */
  ghost predicate TailContiguous(tail: seq<TailEntry>, from: int) {
    forall i :: 0 <= i < |tail| ==> tail[i].cursor == from + i
  }

  /** The problem, if any, of the first entry that is not the one expected. */
  ghost predicate FirstProblem(tail: seq<TailEntry>, from: int, r: Recovery) {
    exists k {:trigger tail[k]} :: 0 <= k < |tail| && TailContiguous(tail[..k], from) &&
      var c, expected := tail[k].cursor, from + k;
      r == (if c < 0 then TailCursor else if c < expected then TailReordered else TailGap) && c != expected
  }

  method VerifyRecovery(checkpoint: Checkpoint, tail: seq<TailEntry>) returns (r: Recovery)
    ensures r == InvalidCheckpoint <==> !checkpoint.intact
    ensures r.Ready? <==> checkpoint.intact && TailContiguous(tail, checkpoint.eventCursor + 1)
    ensures r.Ready? ==> r.finalCursor == checkpoint.eventCursor + |tail|
    ensures !r.Ready? && checkpoint.intact ==> FirstProblem(tail, checkpoint.eventCursor + 1, r)
  {
    if !checkpoint.intact { return InvalidCheckpoint; }
    var expected: int := checkpoint.eventCursor + 1;
    var i := 0;
    while i < |tail|
      invariant 0 <= i <= |tail| && expected == checkpoint.eventCursor + 1 + i
      invariant TailContiguous(tail[..i], checkpoint.eventCursor + 1)
    {
      var cursor := tail[i].cursor;
      if cursor < 0 { return TailCursor; }
      if cursor < expected { return TailReordered; }
      if cursor > expected { return TailGap; }
      expected := expected + 1;
      i := i + 1;
    }
    assert tail[..|tail|] == tail;
    r := Ready(expected - 1);
  }

  function Remember(m: map<Text, Metadata>, state: seq<Metadata>): map<Text, Metadata>
    decreases |state|
  {
    if state == [] then m else Remember(m[state[0].idempotencyKey := state[0]], state[1..])
  }

  /** Adding a tail event; a different event under a remembered key is a conflict. */
  function Extend(m: map<Text, Metadata>, tail: seq<TailEntry>): Option<map<Text, Metadata>>
    decreases |tail|
  {
    if tail == [] then Some(m)
    else if tail[0].event == None then None
    else
      var e := tail[0].event.value;
      if KeyOf(e) in m && m[KeyOf(e)] != e.metadata then None
      else Extend(m[KeyOf(e) := e.metadata], tail[1..])
  }

  function Retained(m: map<Text, Event>, tail: seq<TailEntry>): map<Text, Event>
    decreases |tail|
  {
    if tail == [] then m
    else if tail[0].event == None then Retained(m, tail[1..])
    else Retained(m[KeyOf(tail[0].event.value) := tail[0].event.value], tail[1..])
  }

  function ByMemoryId(m: map<Text, Record>, records: seq<Record>): map<Text, Record>
    decreases |records|
  {
    if records == [] then m else ByMemoryId(m[records[0].memoryId := records[0]], records[1..])
  }

  // ---- the last of each key ----------------------------------------------------------------

  function IdOf(r: Record): Text { r.memoryId }

  function IdentityOf(m: Metadata): Text { m.idempotencyKey }

  /** The map has exactly the keys of the listed items, and under each the last item listed. */
  ghost predicate LastOfEach<T>(items: seq<T>, key: T -> Text, m: map<Text, T>) {
    && (forall k :: k in m <==> exists i {:trigger items[i]} :: 0 <= i < |items| && key(items[i]) == k)
    && (forall i {:trigger items[i]} ::
          0 <= i < |items| && (forall j :: i < j < |items| ==> key(items[j]) != key(items[i])) ==>
            m[key(items[i])] == items[i])
  }

  lemma LastOfNone<T>(key: T -> Text)
    ensures LastOfEach([], key, map[])
  {}

  lemma LastOfMore<T>(items: seq<T>, key: T -> Text, m: map<Text, T>, x: T)
    requires LastOfEach(items, key, m)
    ensures LastOfEach(items + [x], key, m[key(x) := x])
  {
    var more, now := items + [x], m[key(x) := x];
    assert more[|items|] == x;
    forall k ensures k in now <==> exists i {:trigger more[i]} :: 0 <= i < |more| && key(more[i]) == k {
      if i :| 0 <= i < |items| && key(items[i]) == k { assert more[i] == items[i]; }
    }
    forall i | 0 <= i < |more| && (forall j :: i < j < |more| ==> key(more[j]) != key(more[i]))
      ensures now[key(more[i])] == more[i]
    {
      if i < |items| {
        assert key(more[|items|]) != key(more[i]) && more[i] == items[i];
        forall j | i < j < |items| ensures key(items[j]) != key(items[i]) { assert more[j] == items[j]; }
      }
    }
  }

  /** What is under a key is one of the items. */
  lemma {:induction false} LastIsListed<T>(items: seq<T>, key: T -> Text, m: map<Text, T>, k: Text)
    requires LastOfEach(items, key, m) && k in m
    ensures m[k] in items && key(m[k]) == k
  {
    var i :| 0 <= i < |items| && key(items[i]) == k;
    var l := LastWith(items, key, i);
    assert m[key(items[l])] == items[l];
  }

  lemma {:induction false} LastWith<T>(items: seq<T>, key: T -> Text, i: nat) returns (l: nat)
    requires i < |items|
    ensures l < |items| && key(items[l]) == key(items[i])
    ensures forall j :: l < j < |items| ==> key(items[j]) != key(items[l])
    decreases |items| - i
  {
    if j :| i < j < |items| && key(items[j]) == key(items[i]) { l := LastWith(items, key, j); } else { l := i; }
  }

  /** There is only one such map. */
  lemma LastOfEachUnique<T>(items: seq<T>, key: T -> Text, m: map<Text, T>, m': map<Text, T>)
    requires LastOfEach(items, key, m) && LastOfEach(items, key, m')
    ensures m == m'
  {
    forall k | k in m ensures k in m' && m'[k] == m[k] {
      var i :| 0 <= i < |items| && key(items[i]) == k;
      var l := LastWith(items, key, i);
      assert m[key(items[l])] == items[l] == m'[key(items[l])];
    }
    forall k | k in m' ensures k in m {
      var i :| 0 <= i < |items| && key(items[i]) == k;
    }
  }

  /** A list of what is in a map, each under its own key, gives that map back. */
  lemma ListedComeBack<T>(items: seq<T>, key: T -> Text, m: map<Text, T>)
    requires forall k :: k in m ==> key(m[k]) == k && m[k] in items
    requires forall x :: x in items ==> key(x) in m && m[key(x)] == x
    ensures LastOfEach(items, key, m)
  {
    forall k ensures k in m <==> exists i {:trigger items[i]} :: 0 <= i < |items| && key(items[i]) == k {
      if k in m { var i :| 0 <= i < |items| && items[i] == m[k]; }
      if i :| 0 <= i < |items| && key(items[i]) == k { assert items[i] in items; }
    }
  }

  lemma {:induction false} ByMemoryIdCollects(m: map<Text, Record>, before: seq<Record>, records: seq<Record>)
    requires LastOfEach(before, IdOf, m)
    ensures LastOfEach(before + records, IdOf, ByMemoryId(m, records))
    decreases |records|
  {
    hide LastOfEach;
    if records == [] {
      assert before + records == before;
    } else {
      LastOfMore(before, IdOf, m, records[0]);
      ByMemoryIdCollects(m[records[0].memoryId := records[0]], before + [records[0]], records[1..]);
      assert before + [records[0]] + records[1..] == before + records;
    }
  }

  /** Restoring or compacting keeps the last record of each id. */
  lemma RecordsOfList(records: seq<Record>)
    ensures LastOfEach(records, IdOf, ByMemoryId(map[], records))
  {
    LastOfNone(IdOf);
    ByMemoryIdCollects(map[], [], records);
    assert [] + records == records;
  }

  /** A list of a store's own records, in any order, gives these records back. */
  lemma OwnRecordsComeBack(records: seq<Record>, m: map<Text, Record>)
    requires forall id :: id in m ==> m[id].memoryId == id && m[id] in records
    requires forall r :: r in records ==> r.memoryId in m && m[r.memoryId] == r
    ensures ByMemoryId(map[], records) == m
  {
    ListedComeBack(records, IdOf, m);
    RecordsOfList(records);
    LastOfEachUnique(records, IdOf, m, ByMemoryId(map[], records));
  }

  lemma {:induction false} RememberCollects(m: map<Text, Metadata>, before: seq<Metadata>, state: seq<Metadata>)
    requires LastOfEach(before, IdentityOf, m)
    ensures LastOfEach(before + state, IdentityOf, Remember(m, state))
    decreases |state|
  {
    hide LastOfEach;
    if state == [] {
      assert before + state == before;
    } else {
      LastOfMore(before, IdentityOf, m, state[0]);
      RememberCollects(m[state[0].idempotencyKey := state[0]], before + [state[0]], state[1..]);
      assert before + [state[0]] + state[1..] == before + state;
    }
  }

  lemma RememberedState(state: seq<Metadata>)
    ensures LastOfEach(state, IdentityOf, Remember(map[], state))
  {
    LastOfNone(IdentityOf);
    RememberCollects(map[], [], state);
    assert [] + state == state;
  }

  /** The events of a tail without gaps in it. */
  function EventsOfTail(tail: seq<TailEntry>): (events: seq<Event>)
    requires forall i :: 0 <= i < |tail| ==> tail[i].event.Some?
    ensures |events| == |tail| && forall i :: 0 <= i < |tail| ==> events[i] == tail[i].event.value
  {
    seq(|tail|, i requires 0 <= i < |tail| => tail[i].event.value)
  }

  /** Each tail event has the metadata that is remembered under its key, and that of the other
      tail events under it. */
  ghost predicate TailAgrees(m: map<Text, Metadata>, events: seq<Event>) {
    && (forall i {:trigger events[i]} :: 0 <= i < |events| && KeyOf(events[i]) in m ==>
          m[KeyOf(events[i])] == events[i].metadata)
    && KeysAgree(events)
  }

  /** What is remembered is what was, and the metadata of the events. */
  ghost predicate AddsMetadata(m: map<Text, Metadata>, events: seq<Event>, now: map<Text, Metadata>) {
    && (forall k :: k in now ==> k in m || exists i {:trigger events[i]} :: 0 <= i < |events| && KeyOf(events[i]) == k)
    && (forall k :: k in m ==> k in now && now[k] == m[k])
    && (forall i {:trigger events[i]} :: 0 <= i < |events| ==>
          KeyOf(events[i]) in now && now[KeyOf(events[i])] == events[i].metadata)
  }

  /** When a tail can be added to what is remembered, and what is remembered then. */
  lemma {:induction false} ExtendIff(m: map<Text, Metadata>, tail: seq<TailEntry>)
    ensures Extend(m, tail).Some? <==>
              (forall i :: 0 <= i < |tail| ==> tail[i].event.Some?) && TailAgrees(m, EventsOfTail(tail))
    ensures Extend(m, tail).Some? ==>
              AddsMetadata(m, EventsOfTail(tail), Extend(m, tail).value)
    decreases |tail|
  {
    if tail == [] { return; }
    var rest := tail[1..];
    if !tail[0].event.Some? { return; }
    var e := tail[0].event.value;
    var m' := m[KeyOf(e) := e.metadata];
    ExtendIff(m', rest);
    if forall i :: 0 <= i < |tail| ==> tail[i].event.Some? {
      assert EventsOfTail(tail) == [e] + EventsOfTail(rest);
      AgreesMore(m, e, EventsOfTail(rest));
      if Extend(m, tail).Some? { AddsMore(m, e, EventsOfTail(rest), Extend(m, tail).value); }
    } else {
      var i :| 0 <= i < |tail| && !tail[i].event.Some?;
      assert rest[i - 1] == tail[i];
    }
  }

  lemma AddsMore(m: map<Text, Metadata>, e: Event, rest: seq<Event>, now: map<Text, Metadata>)
    requires AddsMetadata(m[KeyOf(e) := e.metadata], rest, now) && (KeyOf(e) in m ==> m[KeyOf(e)] == e.metadata)
    ensures AddsMetadata(m, [e] + rest, now)
  {
    var all := [e] + rest;
    assert all[0] == e && forall i :: 0 <= i < |rest| ==> all[i + 1] == rest[i];
    forall k | k in now ensures k in m || exists i {:trigger all[i]} :: 0 <= i < |all| && KeyOf(all[i]) == k {
      if k !in m && k != KeyOf(e) {
        var i :| 0 <= i < |rest| && KeyOf(rest[i]) == k;
        assert all[i + 1] == rest[i];
      }
    }
  }

  lemma AgreesMore(m: map<Text, Metadata>, e: Event, rest: seq<Event>)
    ensures TailAgrees(m, [e] + rest) <==>
              (KeyOf(e) in m ==> m[KeyOf(e)] == e.metadata) && TailAgrees(m[KeyOf(e) := e.metadata], rest)
  {
    var all := [e] + rest;
    assert forall i :: 0 <= i < |rest| ==> all[i + 1] == rest[i];
    if TailAgrees(m, all) {
      assert all[0] == e;
      forall i | 0 <= i < |rest| && KeyOf(rest[i]) == KeyOf(e) ensures rest[i].metadata == e.metadata {
        assert all[i + 1] == rest[i];
      }
      forall i, j | 0 <= i < |rest| && 0 <= j < |rest| && KeyOf(rest[i]) == KeyOf(rest[j])
        ensures rest[i].metadata == rest[j].metadata
      {
        assert all[i + 1] == rest[i] && all[j + 1] == rest[j];
      }
    }
    if (KeyOf(e) in m ==> m[KeyOf(e)] == e.metadata) && TailAgrees(m[KeyOf(e) := e.metadata], rest) {
      forall i | 0 <= i < |all| && KeyOf(all[i]) in m ensures m[KeyOf(all[i])] == all[i].metadata {
        if i > 0 { assert all[i] == rest[i - 1]; }
      }
      forall i, j | 0 <= i < |all| && 0 <= j < |all| && KeyOf(all[i]) == KeyOf(all[j])
        ensures all[i].metadata == all[j].metadata
      {
        assert (i > 0 ==> all[i] == rest[i - 1]) && (j > 0 ==> all[j] == rest[j - 1]);
      }
    }
  }

  lemma {:induction false} RetainedCollects(m: map<Text, Event>, before: seq<Event>, tail: seq<TailEntry>)
    requires LastOfEach(before, KeyOf, m) && forall i :: 0 <= i < |tail| ==> tail[i].event.Some?
    ensures LastOfEach(before + EventsOfTail(tail), KeyOf, Retained(m, tail))
    decreases |tail|
  {
    hide LastOfEach;
    if tail == [] {
      assert before + EventsOfTail(tail) == before;
    } else {
      var e := tail[0].event.value;
      LastOfMore(before, KeyOf, m, e);
      RetainedCollects(m[KeyOf(e) := e], before + [e], tail[1..]);
      assert before + [e] + EventsOfTail(tail[1..]) == before + EventsOfTail(tail);
    }
  }

  /** Of the events of a snapshot under one key all have the same id and digest. */
  ghost predicate EventsAgree(events: seq<Event>) {
    forall i, j {:trigger events[i], events[j]} ::
      0 <= i < |events| && 0 <= j < |events| && KeyOf(events[i]) == KeyOf(events[j]) ==>
        events[i].metadata.eventId == events[j].metadata.eventId &&
          events[i].metadata.requestDigest == events[j].metadata.requestDigest
  }

  lemma AgreeMore(before: seq<Event>, m: map<Text, Event>, e: Event)
    requires LastOfEach(before, KeyOf, m) && EventsAgree(before)
    ensures EventsAgree(before + [e]) <==>
              (KeyOf(e) in m ==>
                m[KeyOf(e)].metadata.eventId == e.metadata.eventId &&
                  m[KeyOf(e)].metadata.requestDigest == e.metadata.requestDigest)
  {
    var all := before + [e];
    assert all[|before|] == e && forall i :: 0 <= i < |before| ==> all[i] == before[i];
    if KeyOf(e) in m {
      LastIsListed(before, KeyOf, m, KeyOf(e));
      hide LastOfEach;
      var i :| 0 <= i < |before| && before[i] == m[KeyOf(e)];
      assert all[i] == before[i];
    }
  }

  lemma AgreePrefix(a: seq<Event>, b: seq<Event>)
    requires EventsAgree(a + b)
    ensures EventsAgree(a)
  {
    assert forall i :: 0 <= i < |a| ==> (a + b)[i] == a[i];
  }

  lemma {:induction false} RestoredCollects(m: map<Text, Event>, before: seq<Event>, events: seq<Event>)
    requires LastOfEach(before, KeyOf, m) && EventsAgree(before)
    ensures Restored(m, events).Some? <==> EventsAgree(before + events)
    ensures Restored(m, events).Some? ==> LastOfEach(before + events, KeyOf, Restored(m, events).value)
    decreases |events|
  {
    hide LastOfEach, EventsAgree;
    if events == [] {
      assert before + events == before;
    } else {
      var e := events[0];
      AgreeMore(before, m, e);
      LastOfMore(before, KeyOf, m, e);
      assert before + [e] + events[1..] == before + events;
      if EventsAgree(before + [e]) {
        RestoredCollects(m[KeyOf(e) := e], before + [e], events[1..]);
      } else if EventsAgree(before + events) {
        AgreePrefix(before + [e], events[1..]);
      }
    }
  }

  /** When a snapshot's events can be restored, and that the last one under each key is. */
  lemma RestoredIff(events: seq<Event>)
    ensures Restored(map[], events).Some? <==> EventsAgree(events)
    ensures Restored(map[], events).Some? ==> LastOfEach(events, KeyOf, Restored(map[], events).value)
  {
    LastOfNone(KeyOf);
    RestoredCollects(map[], [], events);
    assert [] + events == events;
  }

  /** What a store must remember: the metadata of a whole log of accepted events. */
  ghost predicate RemembersLog(idempotency: map<Text, Metadata>, log: seq<Event>) {
    && (forall i {:trigger log[i]} ::
          0 <= i < |log| ==> KeyOf(log[i]) in idempotency && idempotency[KeyOf(log[i])] == log[i].metadata)
    && (forall k :: k in idempotency ==> exists i {:trigger log[i]} :: 0 <= i < |log| && KeyOf(log[i]) == k)
  }

  lemma LogDetermines(a: map<Text, Metadata>, b: map<Text, Metadata>, log: seq<Event>)
    requires RemembersLog(a, log) && RemembersLog(b, log)
    ensures a == b
  {
    forall k | k in a ensures k in b && a[k] == b[k] {
      var i :| 0 <= i < |log| && KeyOf(log[i]) == k;
    }
    forall k | k in b ensures k in a {
      var i :| 0 <= i < |log| && KeyOf(log[i]) == k;
    }
  }

  ghost predicate TailOf(tail: seq<TailEntry>, log: seq<Event>) {
    |tail| == |log| && forall i :: 0 <= i < |tail| ==> tail[i].event == Some(log[i])
  }

  /** One key, one identity: what a log of accepted events has. */
  ghost predicate KeysAgree(log: seq<Event>) {
    forall i, j {:trigger log[i], log[j]} :: 0 <= i < |log| && 0 <= j < |log| && KeyOf(log[i]) == KeyOf(log[j]) ==>
      log[i].metadata == log[j].metadata
  }

  lemma RemembersMore(m: map<Text, Metadata>, log: seq<Event>, e: Event)
    requires RemembersLog(m, log) && (KeyOf(e) in m ==> m[KeyOf(e)] == e.metadata)
    ensures RemembersLog(m[KeyOf(e) := e.metadata], log + [e])
  {
    var m', more := m[KeyOf(e) := e.metadata], log + [e];
    forall k | k in m' ensures exists i {:trigger more[i]} :: 0 <= i < |more| && KeyOf(more[i]) == k {
      if k == KeyOf(e) {
        assert KeyOf(more[|log|]) == k;
      } else {
        var i :| 0 <= i < |log| && KeyOf(log[i]) == k;
        assert more[i] == log[i];
      }
    }
  }

  lemma {:induction false} ExtendRemembers(m: map<Text, Metadata>, tail: seq<TailEntry>, before: seq<Event>,
                                           log: seq<Event>)
    requires RemembersLog(m, before) && TailOf(tail, log) && KeysAgree(before + log)
    ensures Extend(m, tail).Some? && RemembersLog(Extend(m, tail).value, before + log)
    decreases |tail|
  {
    if tail == [] {
      assert before + log == before;
    } else {
      var e := log[0];
      if KeyOf(e) in m { SameIdentity(m, before, log, e); }
      RemembersMore(m, before, e);
      hide RemembersLog, KeysAgree;
      assert before + [e] + log[1..] == before + log;
      ExtendRemembers(m[KeyOf(e) := e.metadata], tail[1..], before + [e], log[1..]);
    }
  }

  lemma SameIdentity(m: map<Text, Metadata>, before: seq<Event>, log: seq<Event>, e: Event)
    requires RemembersLog(m, before) && KeysAgree(before + log) && log != [] && log[0] == e && KeyOf(e) in m
    ensures m[KeyOf(e)] == e.metadata
  {
    var i :| 0 <= i < |before| && KeyOf(before[i]) == KeyOf(e);
    assert (before + log)[i] == before[i] && (before + log)[|before|] == e;
  }

  ghost predicate InTail(tail: seq<TailEntry>, e: Event) {
    exists i {:trigger tail[i]} :: 0 <= i < |tail| && tail[i].event == Some(e)
  }

  lemma InTailMore(tail: seq<TailEntry>, e: Event)
    requires tail != []
    ensures InTail(tail, e) <==> tail[0].event == Some(e) || InTail(tail[1..], e)
  {
    if InTail(tail[1..], e) {
      var i :| 0 <= i < |tail| - 1 && tail[1..][i].event == Some(e);
      assert tail[i + 1].event == Some(e);
    }
    if InTail(tail, e) {
      var i :| 0 <= i < |tail| && tail[i].event == Some(e);
      assert i > 0 ==> tail[1..][i - 1].event == Some(e);
    }
  }

  /** After compaction exactly the tail's events are retained. */
  lemma {:induction false} RetainedAreTail(m: map<Text, Event>, tail: seq<TailEntry>)
    ensures forall k ::
              k in Retained(m, tail) ==> (k in m && m[k] == Retained(m, tail)[k]) || InTail(tail, Retained(m, tail)[k])
    ensures forall k :: k in m ==> k in Retained(m, tail)
    ensures forall e :: InTail(tail, e) ==> KeyOf(e) in Retained(m, tail)
    decreases |tail|
  {
    if tail != [] {
      var m' := if tail[0].event == None then m else m[KeyOf(tail[0].event.value) := tail[0].event.value];
      RetainedAreTail(m', tail[1..]);
      forall e ensures InTail(tail, e) <==> tail[0].event == Some(e) || InTail(tail[1..], e) { InTailMore(tail, e); }
    }
  }

  /** The maps that a compaction puts in place. */
  lemma {:induction false} CompactedOk(events: map<Text, Event>, m: map<Text, Metadata>, tail: seq<TailEntry>)
    requires EventsOk(Events(events, m)) && Extend(m, tail).Some?
    ensures EventsOk(Events(Retained(events, tail), Extend(m, tail).value))
    decreases |tail|
  {
    if tail != [] {
      var e := tail[0].event.value;
      CompactedOk(events[KeyOf(e) := e], m[KeyOf(e) := e.metadata], tail[1..]);
    }
  }

  lemma {:induction false} RememberOk(m: map<Text, Metadata>, state: seq<Metadata>)
    requires forall k :: k in m ==> m[k].idempotencyKey == k
    ensures forall k :: k in Remember(m, state) ==> Remember(m, state)[k].idempotencyKey == k
    decreases |state|
  {
    if state != [] { RememberOk(m[state[0].idempotencyKey := state[0]], state[1..]); }
  }

  /** The checkpoint is intact, the tail goes on behind it, and no event contradicts it. */
  ghost predicate Compacts(checkpoint: Checkpoint, tail: seq<TailEntry>) {
    && checkpoint.intact && TailContiguous(tail, checkpoint.eventCursor + 1)
    && Extend(Remember(map[], checkpoint.idempotencyState), tail).Some?
  }

  function CompactedState(checkpoint: Checkpoint, tail: seq<TailEntry>): Events
    requires Extend(Remember(map[], checkpoint.idempotencyState), tail).Some?
  {
    Events(Retained(map[], tail), Extend(Remember(map[], checkpoint.idempotencyState), tail).value)
  }

  /** Compaction preserves replay decisions: when the checkpoint remembers the log up to its
      cursor and the tail is the rest of the log, the compacted store remembers exactly what
      the store did, so that every event, and every run of events, is decided as before. */
  lemma CompactionKeepsDecisions(s: Events, log: seq<Event>, c: nat, checkpoint: Checkpoint, tail: seq<TailEntry>,
                                 es: seq<Event>)
    requires EventsOk(s) && RemembersLog(s.idempotency, log) && c <= |log|
    requires checkpoint.intact && TailContiguous(tail, checkpoint.eventCursor + 1)
    requires RemembersLog(Remember(map[], checkpoint.idempotencyState), log[..c]) && TailOf(tail, log[c..])
    ensures Compacts(checkpoint, tail)
    ensures var t := CompactedState(checkpoint, tail);
            EventsOk(t) && t.idempotency == s.idempotency && Decisions(t, es) == Decisions(s, es)
  {
    assert log[..c] + log[c..] == log;
    assert KeysAgree(log) by {
      forall i, j | 0 <= i < |log| && 0 <= j < |log| && KeyOf(log[i]) == KeyOf(log[j])
        ensures log[i].metadata == log[j].metadata
      {
        assert s.idempotency[KeyOf(log[i])] == log[i].metadata;
      }
    }
    var m := Remember(map[], checkpoint.idempotencyState);
    ExtendRemembers(m, tail, log[..c], log[c..]);
    LogDetermines(s.idempotency, Extend(m, tail).value, log);
    RememberOk(map[], checkpoint.idempotencyState);
    CompactedOk(map[], m, tail);
    RunsAlike(Events(Retained(map[], tail), Extend(m, tail).value), s, es);
  }

  /** The events of a run that were accepted. */
  function AcceptedOf(s: Events, es: seq<Event>): seq<Event>
    decreases |es|
  {
    if es == [] then []
    else (if Decide(s, es[0]) == Accepted then [es[0]] else []) + AcceptedOf(Append(s, es[0]), es[1..])
  }

  /** A store remembers the log of what it accepted. */
  lemma {:induction false} RunRemembers(s: Events, log: seq<Event>, es: seq<Event>)
    requires EventsOk(s) && RemembersLog(s.idempotency, log)
    ensures EventsOk(AppendAll(s, es)) && RemembersLog(AppendAll(s, es).idempotency, log + AcceptedOf(s, es))
    decreases |es|
  {
    hide EventsOk, RemembersLog;
    if es == [] {
      assert log + [] == log;
    } else {
      AppendKeepsOk(s, es[0]);
      var more := if Decide(s, es[0]) == Accepted then [es[0]] else [];
      if Decide(s, es[0]) == Accepted { RemembersMore(s.idempotency, log, es[0]); } else { assert log + [] == log; }
      RunRemembers(Append(s, es[0]), log + more, es[1..]);
      assert log + more + AcceptedOf(Append(s, es[0]), es[1..]) == log + AcceptedOf(s, es);
    }
  }

  /** A checkpoint's state names all remembered metadata, in some order. */
  ghost predicate ListsMetadata(state: seq<Metadata>, m: map<Text, Metadata>) {
    && (forall i {:trigger state[i]} :: 0 <= i < |state| ==>
          state[i].idempotencyKey in m && m[state[i].idempotencyKey] == state[i])
    && (forall k :: k in m ==> m[k] in state)
  }

  lemma {:induction false} RememberPart(part: map<Text, Metadata>, state: seq<Metadata>, m: map<Text, Metadata>)
    requires forall k :: k in part ==> k in m && m[k] == part[k]
    requires forall i {:trigger state[i]} :: 0 <= i < |state| ==>
               state[i].idempotencyKey in m && m[state[i].idempotencyKey] == state[i]
    ensures forall k :: k in Remember(part, state) ==> k in m && m[k] == Remember(part, state)[k]
    ensures forall k :: k in part ==> k in Remember(part, state)
    ensures forall i {:trigger state[i]} :: 0 <= i < |state| ==> state[i].idempotencyKey in Remember(part, state)
    decreases |state|
  {
    if state != [] {
      RememberPart(part[state[0].idempotencyKey := state[0]], state[1..], m);
      assert state == [state[0]] + state[1..];
    }
  }

  lemma RememberListed(state: seq<Metadata>, m: map<Text, Metadata>)
    requires ListsMetadata(state, m) && forall k :: k in m ==> m[k].idempotencyKey == k
    ensures Remember(map[], state) == m
  {
    RememberPart(map[], state, m);
    forall k | k in m ensures k in Remember(map[], state) {
      var i :| 0 <= i < |state| && state[i] == m[k];
    }
  }

  /** A store that starts empty takes some events, is checkpointed, and takes more. Compacting it
      with that checkpoint and the events accepted since then succeeds, and it decides every
      later run as it would have without. */
  lemma CompactionOfRun(before: seq<Event>, after: seq<Event>, checkpoint: Checkpoint, tail: seq<TailEntry>,
                        later: seq<Event>)
    requires var s := AppendAll(Events(map[], map[]), before);
             ListsMetadata(checkpoint.idempotencyState, s.idempotency) && TailOf(tail, AcceptedOf(s, after))
    requires checkpoint.intact && TailContiguous(tail, checkpoint.eventCursor + 1)
    ensures Compacts(checkpoint, tail)
    ensures var s := AppendAll(AppendAll(Events(map[], map[]), before), after);
            Decisions(CompactedState(checkpoint, tail), later) == Decisions(s, later)
  {
    hide RemembersLog, ListsMetadata, TailContiguous, AcceptedOf, AppendAll;
    var none := Events(map[], map[]);
    var log, s := AcceptedOf(none, before), AppendAll(none, before);
    NothingRemembered();
    RunRemembers(none, [], before);
    assert [] + log == log;
    RunRemembers(s, log, after);
    RememberListed(checkpoint.idempotencyState, s.idempotency);
    var all := log + AcceptedOf(s, after);
    assert all[..|log|] == log && all[|log|..] == AcceptedOf(s, after);
    CompactionKeepsDecisions(AppendAll(s, after), all, |log|, checkpoint, tail, later);
  }

  lemma NothingRemembered()
    ensures EventsOk(Events(map[], map[])) && RemembersLog(map[], [])
  {}

  // ---- snapshots ------------------------------------------------------------------------

  /** What restore builds from a snapshot's events: a later event under a key replaces an
      earlier one, but only with the same id and digest. */
  function Restored(m: map<Text, Event>, events: seq<Event>): Option<map<Text, Event>>
    decreases |events|
  {
    if events == [] then Some(m)
    else
      var e := events[0];
      if KeyOf(e) in m &&
         (m[KeyOf(e)].metadata.eventId != e.metadata.eventId ||
          m[KeyOf(e)].metadata.requestDigest != e.metadata.requestDigest)
      then None
      else Restored(m[KeyOf(e) := e], events[1..])
  }

  function MetadataMap(m: map<Text, Event>): map<Text, Metadata> {
    map k | k in m :: m[k].metadata
  }

  /** The events of a snapshot: each retained event once, in some order. */
  ghost predicate Lists(events: seq<Event>, m: map<Text, Event>) {
    && (forall i {:trigger events[i]} ::
          0 <= i < |events| ==> KeyOf(events[i]) in m && m[KeyOf(events[i])] == events[i])
    && (forall k :: k in m ==> m[k] in events)
    && (forall i, j :: 0 <= i < j < |events| ==> KeyOf(events[i]) != KeyOf(events[j]))
  }

  lemma {:induction false} RestoredAll(m: map<Text, Event>, events: seq<Event>)
    requires forall i :: 0 <= i < |events| ==> KeyOf(events[i]) !in m
    requires forall k :: k in m ==> KeyOf(m[k]) == k
    requires forall i, j :: 0 <= i < j < |events| ==> KeyOf(events[i]) != KeyOf(events[j])
    ensures Restored(m, events).Some?
    ensures var r := Restored(m, events).value;
            && (forall k :: k in m ==> k in r && r[k] == m[k])
            && (forall i {:trigger events[i]} ::
                  0 <= i < |events| ==> KeyOf(events[i]) in r && r[KeyOf(events[i])] == events[i])
            && (forall k :: k in r ==> KeyOf(r[k]) == k && (k in m || r[k] in events))
    decreases |events|
  {
    if events != [] {
      var e := events[0];
      RestoredAll(m[KeyOf(e) := e], events[1..]);
      assert events == [e] + events[1..];
    }
  }

  /** Restoring a store's own snapshot keeps every decision if and only if no event had been
      compacted away: the snapshot has the retained events only. */
  lemma SnapshotKeepsDecisionsIff(s: Events, events: seq<Event>)
    requires EventsOk(s) && Lists(events, s.retained)
    ensures Restored(map[], events).Some?
    ensures var r := Restored(map[], events).value;
            var t := Events(r, MetadataMap(r));
            EventsOk(t) && ((forall e :: Decide(s, e) == Decide(t, e)) <==> s.retained.Keys == s.idempotency.Keys)
  {
    RestoredAll(map[], events);
    var r := Restored(map[], events).value;
    var t := Events(r, MetadataMap(r));
    RestoredIsRetained(s, events, r);
    DecideAlikeIff(s, t);
    hide Decide;
    if s.retained.Keys == s.idempotency.Keys {
      assert t.idempotency == s.idempotency;
    }
    if t.idempotency == s.idempotency { assert s.retained.Keys == r.Keys == t.idempotency.Keys; }
  }

  lemma RestoredIsRetained(s: Events, events: seq<Event>, r: map<Text, Event>)
    requires EventsOk(s) && Lists(events, s.retained)
    requires forall i {:trigger events[i]} ::
               0 <= i < |events| ==> KeyOf(events[i]) in r && r[KeyOf(events[i])] == events[i]
    requires forall k :: k in r ==> r[k] in events && KeyOf(r[k]) == k
    ensures r == s.retained
  {
    forall k | k in r ensures k in s.retained && s.retained[k] == r[k] {
      var i :| 0 <= i < |events| && events[i] == r[k];
    }
    forall k | k in s.retained ensures k in r {
      var i :| 0 <= i < |events| && events[i] == s.retained[k];
      assert s.retained[k].metadata.idempotencyKey == k;
    }
  }

  // ---- the store ------------------------------------------------------------------------

  datatype Snapshot = Snapshot(supported: bool, records: seq<Record>, events: seq<Event>)

  class InMemoryRuntimeStore {
    var records: map<Text, Record>
    var events: map<Text, Event>
    var idempotency: map<Text, Metadata>
    var revision: nat

    function State(): Events
      reads this`events, this`idempotency
    {
      Events(events, idempotency)
    }

    ghost predicate Valid()
      reads this
    {
      EventsOk(State()) && (forall id :: id in records ==> records[id].memoryId == id)
    }

    constructor ()
      ensures Valid() && records == map[] && State() == Events(map[], map[]) && revision == 0
    {
      records, events, idempotency, revision := map[], map[], map[], 0;
    }

    method Put(record: Record)
      requires Valid()
      modifies this`records, this`revision
      ensures Valid() && records == old(records)[record.memoryId := record] && revision == old(revision) + 1
    {
      records := records[record.memoryId := record];
      revision := revision + 1;
    }

    /** The event is remembered, recognised, or refused without any change. */
    method AppendEvent(e: Event) returns (d: Decision)
      modifies this`events, this`idempotency
      ensures old(Valid()) ==> Valid()
      ensures d == Decide(old(State()), e) && State() == Append(old(State()), e)
      ensures d == Rejected ==> State() == old(State())
      ensures old(Valid()) && d != Rejected ==> HasEvent(KeyOf(e)) && idempotency[KeyOf(e)] == e.metadata
    {
      var key := KeyOf(e);
      if key in idempotency {
        if idempotency[key] != e.metadata { return Rejected; }
        return Ignored;
      }
      if key in events {
        if events[key].metadata.eventId != e.metadata.eventId ||
           events[key].metadata.requestDigest != e.metadata.requestDigest {
          return Rejected;
        }
        return Ignored;
      }
      idempotency := idempotency[key := e.metadata];
      events := events[key := e];
      d := Accepted;
    }

    /** Puts first: a refused event leaves the record in place. */
    method PutAndAppend(record: Record, e: Event) returns (d: Decision)
      requires Valid()
      modifies this
      ensures Valid() && records == old(records)[record.memoryId := record] && revision == old(revision) + 1
      ensures d == Decide(old(State()), e) && State() == Append(old(State()), e)
    {
      Put(record);
      d := AppendEvent(e);
    }

    method PutAndAppendIfUnchanged(expected: Record, record: Record, e: Event) returns (done: bool, d: Decision)
      requires Valid()
      modifies this
      ensures Valid() && (done <==> expected.memoryId in old(records) && old(records)[expected.memoryId] == expected)
      ensures !done ==> records == old(records) && State() == old(State()) && revision == old(revision)
      ensures done ==> records == old(records)[record.memoryId := record] && revision == old(revision) + 1
                       && d == Decide(old(State()), e) && State() == Append(old(State()), e)
    {
      d := Ignored;
      if expected.memoryId !in records || records[expected.memoryId] != expected { return false, d; }
      Put(record);
      d := AppendEvent(e);
      done := true;
    }

    function HasEvent(key: Text): bool
      reads this`idempotency
    {
      key in idempotency
    }

    function GetEvent(key: Text): (r: Option<Event>)
      requires EventsOk(State())
      reads this`events, this`idempotency
      ensures r == Stored(State(), key)
      ensures r.Some? <==> HasEvent(key)
      ensures r.Some? ==> r.value.metadata == idempotency[key]
    {
      if key in events then Some(events[key])
      else if key in idempotency then Some(Event(idempotency[key], NO_PAYLOAD))
      else None
    }

    /** Replaces everything by a snapshot, or changes nothing. */
    method Restore(snapshot: Snapshot) returns (ok: bool)
      requires Valid()
      modifies this
      ensures Valid()
      ensures ok <==> snapshot.supported && Restored(map[], snapshot.events).Some?
      ensures ok <==> snapshot.supported && EventsAgree(snapshot.events)
      ensures !ok ==> records == old(records) && State() == old(State()) && revision == old(revision)
      ensures ok ==> records == ByMemoryId(map[], snapshot.records) && events == Restored(map[], snapshot.events).value
                     && idempotency == MetadataMap(events) && revision == old(revision) + |records|
      ensures ok ==> LastOfEach(snapshot.records, IdOf, records) && LastOfEach(snapshot.events, KeyOf, events)
    {
      hide LastOfEach, EventsAgree, EventsOk, Restored, ByMemoryId;
      RecordsOfList(snapshot.records);
      RestoredIff(snapshot.events);
      if !snapshot.supported { return false; }
      var nextRecords := NextRecords(snapshot.records);
      var nextEvents := NextEvents(snapshot.events);
      if nextEvents == None { return false; }
      records := nextRecords;
      events := nextEvents.value;
      idempotency := map k | k in events :: events[k].metadata;
      MetadataOk(events);
      revision := revision + |nextRecords|;
      ok := true;
    }

    /** Replaces records, remembered metadata and retained events by a checkpoint and the tail
        after it, or changes nothing. */
    method CompactOperational(checkpoint: Checkpoint, tail: seq<TailEntry>, failBeforeCommit: bool) returns (ok: bool)
      requires Valid()
      modifies this
      ensures Valid()
      ensures ok <==> Compacts(checkpoint, tail) && !failBeforeCommit
      ensures !ok ==> records == old(records) && State() == old(State()) && revision == old(revision)
      ensures ok ==> records == ByMemoryId(map[], checkpoint.activeRecords) && revision == old(revision) + |records|
      ensures ok ==> State() == CompactedState(checkpoint, tail)
      ensures ok ==> LastOfEach(checkpoint.activeRecords, IdOf, records)
      ensures ok ==> forall i :: 0 <= i < |tail| ==> tail[i].event.Some?
      ensures ok ==> LastOfEach(EventsOfTail(tail), KeyOf, events)
      ensures ok ==> forall m :: LastOfEach(checkpoint.idempotencyState, IdentityOf, m) ==>
                       AddsMetadata(m, EventsOfTail(tail), idempotency)
      ensures !failBeforeCommit && checkpoint.intact && TailContiguous(tail, checkpoint.eventCursor + 1) ==>
                (ok <==>
                  && (forall i :: 0 <= i < |tail| ==> tail[i].event.Some?)
                  && forall m :: LastOfEach(checkpoint.idempotencyState, IdentityOf, m) ==>
                       TailAgrees(m, EventsOfTail(tail)))
    {
      hide EventsOk, TailContiguous, FirstProblem, LastOfEach, TailAgrees, Extend, Retained, Remember, AddsMetadata;
      CompactsIff(checkpoint, tail);
      RecordsOfList(checkpoint.activeRecords);
      var recovery := VerifyRecovery(checkpoint, tail);
      if !recovery.Ready? { return false; }
      var nextRecords := NextRecords(checkpoint.activeRecords);
      var remembered := RememberState(checkpoint.idempotencyState);
      var nextEvents, nextIdempotency := ExtendTail(remembered, tail);
      if nextIdempotency == None { return false; }
      if failBeforeCommit { return false; }
      RememberOk(map[], checkpoint.idempotencyState);
      CompactedFromEmpty(remembered, tail);
      records := nextRecords;
      events := nextEvents;
      idempotency := nextIdempotency.value;
      revision := revision + |nextRecords|;
      ok := true;
    }
  }

  /** What decides a compaction besides the checkpoint's integrity and the tail's cursors. */
  lemma CompactsIff(checkpoint: Checkpoint, tail: seq<TailEntry>)
    ensures Extend(Remember(map[], checkpoint.idempotencyState), tail).Some? <==>
              && (forall i :: 0 <= i < |tail| ==> tail[i].event.Some?)
              && forall m :: LastOfEach(checkpoint.idempotencyState, IdentityOf, m) ==>
                   TailAgrees(m, EventsOfTail(tail))
    ensures Extend(Remember(map[], checkpoint.idempotencyState), tail).Some? ==>
              && LastOfEach(EventsOfTail(tail), KeyOf, Retained(map[], tail))
              && forall m :: LastOfEach(checkpoint.idempotencyState, IdentityOf, m) ==>
                   AddsMetadata(m, EventsOfTail(tail),
                                Extend(Remember(map[], checkpoint.idempotencyState), tail).value)
  {
    var remembered := Remember(map[], checkpoint.idempotencyState);
    RememberedState(checkpoint.idempotencyState);
    ExtendIff(remembered, tail);
    LastOfNone(KeyOf);
    hide LastOfEach, TailAgrees, Extend, Retained, Remember, AddsMetadata;
    forall m | LastOfEach(checkpoint.idempotencyState, IdentityOf, m) ensures m == remembered {
      LastOfEachUnique(checkpoint.idempotencyState, IdentityOf, m, remembered);
    }
    if forall i :: 0 <= i < |tail| ==> tail[i].event.Some? {
      RetainedCollects(map[], [], tail);
      assert [] + EventsOfTail(tail) == EventsOfTail(tail);
    }
  }

  lemma MetadataOk(events: map<Text, Event>)
    requires forall k :: k in events ==> KeyOf(events[k]) == k
    ensures EventsOk(Events(events, MetadataMap(events)))
  {}

  lemma CompactedFromEmpty(m: map<Text, Metadata>, tail: seq<TailEntry>)
    requires (forall k :: k in m ==> m[k].idempotencyKey == k) && Extend(m, tail).Some?
    ensures EventsOk(Events(Retained(map[], tail), Extend(m, tail).value))
  {
    CompactedOk(map[], m, tail);
  }

  method NextRecords(records: seq<Record>) returns (next: map<Text, Record>)
    ensures next == ByMemoryId(map[], records)
    ensures forall id :: id in next ==> next[id].memoryId == id
  {
    next := map[];
    for i := 0 to |records|
      invariant ByMemoryId(map[], records) == ByMemoryId(next, records[i..])
      invariant forall id :: id in next ==> next[id].memoryId == id
    {
      next := next[records[i].memoryId := records[i]];
    }
  }

  method NextEvents(events: seq<Event>) returns (next: Option<map<Text, Event>>)
    ensures next == Restored(map[], events)
    ensures next.Some? ==> forall k :: k in next.value ==> KeyOf(next.value[k]) == k
  {
    var m: map<Text, Event> := map[];
    for i := 0 to |events|
      invariant Restored(map[], events) == Restored(m, events[i..])
      invariant forall k :: k in m ==> KeyOf(m[k]) == k
    {
      var e := events[i];
      if KeyOf(e) in m &&
         (m[KeyOf(e)].metadata.eventId != e.metadata.eventId ||
          m[KeyOf(e)].metadata.requestDigest != e.metadata.requestDigest) {
        return None;
      }
      m := m[KeyOf(e) := e];
    }
    next := Some(m);
  }

  method RememberState(state: seq<Metadata>) returns (m: map<Text, Metadata>)
    ensures m == Remember(map[], state)
  {
    m := map[];
    for i := 0 to |state|
      invariant Remember(map[], state) == Remember(m, state[i..])
    {
      m := m[state[i].idempotencyKey := state[i]];
    }
  }

  method ExtendTail(remembered: map<Text, Metadata>, tail: seq<TailEntry>)
    returns (events: map<Text, Event>, r: Option<map<Text, Metadata>>)
    ensures r == Extend(remembered, tail)
    ensures r.Some? ==> events == Retained(map[], tail)
  {
    events := map[];
    var m := remembered;
    for i := 0 to |tail|
      invariant Extend(remembered, tail) == Extend(m, tail[i..])
      invariant Retained(map[], tail) == Retained(events, tail[i..])
    {
      if tail[i].event == None { return events, None; }
      var e := tail[i].event.value;
      if KeyOf(e) in m && m[KeyOf(e)] != e.metadata { return events, None; }
      m := m[KeyOf(e) := e.metadata];
      events := events[KeyOf(e) := e];
    }
    r := Some(m);
  }
}
