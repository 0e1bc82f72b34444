/** The audit log: each entry carries the hash of the one before it, so that the last hash
    determines the whole log. */
module AuditChain {
  import opened Wrappers

  datatype Outcome = ALLOW | DENY | ALLOWED | DENIED | SUCCESS | FAILURE | OTHER

  /** An entry without its hash; data is the canonical text of the sanitised data. */
  datatype Unsigned = Unsigned(
    format: string, version: int, sequence: int, eventId: string, occurredAt: string, tenantId: string,
    subjectId: Option<string>, action: string, outcome: Outcome, data: string, previousHash: string)

  datatype Entry = Entry(body: Unsigned, hash: string)

  const AUDIT_LOG_FORMAT := "premise-security-audit/1"
  const AUDIT_LOG_VERSION := 1
  const AUDIT_GENESIS_HASH := "sha256:genesis"

  predicate Printable(s: string, maxLength: nat) {
    0 < |s| <= maxLength && forall i :: 0 <= i < |s| ==> 0x21 <= s[i] as int <= 0x7e
  }

  predicate Identifier(s: string) { Printable(s, 256) && s != "*" }

  predicate HexDigit(c: char) { '0' <= c <= '9' || 'a' <= c <= 'f' }

  /** sha256: and 64 hexadecimal digits. */
  predicate HashText(s: string) {
    |s| == 71 && s[..7] == "sha256:" && forall i :: 7 <= i < 71 ==> HexDigit(s[i])
  }

  /** The digest of an entry's canonical text is a hash text; different entries may collide. */
  ghost predicate HashFunction(h: Unsigned -> string) { forall u :: HashText(h(u)) }

  lemma GenesisIsNoHash()
    ensures !HashText(AUDIT_GENESIS_HASH)
  {
    assert |AUDIT_GENESIS_HASH| == 14;
  }

  predicate Shape(e: Entry, sequence: int, previousHash: string) {
    var b := e.body;
    && b.format == AUDIT_LOG_FORMAT && b.version == AUDIT_LOG_VERSION && b.sequence == sequence
    && b.outcome != OTHER && b.previousHash == previousHash
    && (b.previousHash == AUDIT_GENESIS_HASH || HashText(b.previousHash)) && HashText(e.hash)
    && Identifier(b.eventId) && Printable(b.occurredAt, 128) && Identifier(b.tenantId)
    && (b.subjectId.Some? ==> Identifier(b.subjectId.value)) && Identifier(b.action)
  }

  function PreviousHash(entries: seq<Entry>, i: nat): string
    requires i <= |entries|
  {
    if i == 0 then AUDIT_GENESIS_HASH else entries[i - 1].hash
  }

  /** An entry is well formed, in its place, and hashed. */
  predicate InPlace(h: Unsigned -> string, e: Entry, i: nat, previousHash: string) {
    Shape(e, i + 1, previousHash) && e.hash == h(e.body)
  }

  predicate Distinct(e: Entry, f: Entry) { e.body.eventId != f.body.eventId && e.hash != f.hash }

  /** Every entry is in its place and follows the one before it, and none is repeated. */
  ghost predicate Accepted(h: Unsigned -> string, entries: seq<Entry>) {
    && (forall i {:trigger entries[i]} :: 0 <= i < |entries| ==> InPlace(h, entries[i], i, PreviousHash(entries, i)))
    && (forall i, j {:trigger entries[i], entries[j]} ::
          0 <= i < j < |entries| ==> Distinct(entries[i], entries[j]))
  }

  /** What an entry says by itself. */
  ghost predicate FieldsOk(e: Entry) {
    && e.body.format == AUDIT_LOG_FORMAT && e.body.version == AUDIT_LOG_VERSION && e.body.outcome != OTHER
    && HashText(e.hash) && Identifier(e.body.eventId) && Printable(e.body.occurredAt, 128)
    && Identifier(e.body.tenantId) && Identifier(e.body.action)
    && (e.body.subjectId.Some? ==> Identifier(e.body.subjectId.value))
  }

  /** The entries are numbered from one, each has its own hash and that of the one before it, and no
      event id or hash comes twice. */
  ghost predicate Chained(h: Unsigned -> string, entries: seq<Entry>) {
    && (forall i {:trigger entries[i]} :: 0 <= i < |entries| ==>
          && entries[i].body.sequence == i + 1 && entries[i].hash == h(entries[i].body)
          && entries[i].body.previousHash == if i == 0 then AUDIT_GENESIS_HASH else entries[i - 1].hash)
    && (forall i, j {:trigger entries[i], entries[j]} :: 0 <= i < j < |entries| ==>
          entries[i].body.eventId != entries[j].body.eventId && entries[i].hash != entries[j].hash)
  }

  lemma AcceptedIff(h: Unsigned -> string, entries: seq<Entry>)
    ensures Accepted(h, entries) <==>
              Chained(h, entries) && forall i {:trigger entries[i]} :: 0 <= i < |entries| ==> FieldsOk(entries[i])
  {
    hide HashText, Identifier, Printable;
    if Chained(h, entries) && forall i {:trigger entries[i]} :: 0 <= i < |entries| ==> FieldsOk(entries[i]) {
      forall i | 0 <= i < |entries| ensures InPlace(h, entries[i], i, PreviousHash(entries, i)) {
        if i > 0 { assert FieldsOk(entries[i - 1]); }
      }
    }
    if Accepted(h, entries) {
      forall i | 0 <= i < |entries|
        ensures FieldsOk(entries[i]) && entries[i].body.sequence == i + 1 && entries[i].hash == h(entries[i].body)
        ensures entries[i].body.previousHash == if i == 0 then AUDIT_GENESIS_HASH else entries[i - 1].hash
      {
        assert InPlace(h, entries[i], i, PreviousHash(entries, i));
      }
    }
  }

  method VerifyAuditChain(h: Unsigned -> string, entries: seq<Entry>) returns (ok: bool)
    ensures ok <==> Accepted(h, entries)
    ensures ok <==>
              Chained(h, entries) && forall i {:trigger entries[i]} :: 0 <= i < |entries| ==> FieldsOk(entries[i])
  {
    hide Accepted, Shape, Chained, FieldsOk;
    AcceptedIff(h, entries);
    var previousHash := AUDIT_GENESIS_HASH;
    var eventIds: set<string>, hashes: set<string> := {}, {};
    NothingWrong(h);
    assert entries[..0] == [];
    for index := 0 to |entries|
      invariant previousHash == PreviousHash(entries, index)
      invariant eventIds == EventIds(entries, index) && hashes == Hashes(entries, index)
      invariant Accepted(h, entries[..index])
    {
      var entry := entries[index];
      AcceptedOneMore(h, entries, index);
      Seen(entries, index);
      if !Shape(entry, index + 1, previousHash) || entry.body.eventId in eventIds || entry.hash in hashes ||
         h(entry.body) != entry.hash {
        PrefixAccepted(h, entries, index + 1);
        return false;
      }
      eventIds := eventIds + {entry.body.eventId};
      hashes := hashes + {entry.hash};
      previousHash := entry.hash;
    }
    assert entries[..|entries|] == entries;
    ok := true;
  }

  ghost function EventIds(entries: seq<Entry>, n: nat): set<string>
    requires n <= |entries|
  {
    set i | 0 <= i < n :: entries[i].body.eventId
  }

  ghost function Hashes(entries: seq<Entry>, n: nat): set<string>
    requires n <= |entries|
  {
    set i | 0 <= i < n :: entries[i].hash
  }

  lemma Seen(entries: seq<Entry>, n: nat)
    requires n < |entries|
    ensures EventIds(entries, n + 1) == EventIds(entries, n) + {entries[n].body.eventId}
    ensures Hashes(entries, n + 1) == Hashes(entries, n) + {entries[n].hash}
    ensures entries[n].body.eventId !in EventIds(entries, n) && entries[n].hash !in Hashes(entries, n) <==>
              forall i :: 0 <= i < n ==> Distinct(entries[i], entries[n])
  {}

  lemma NothingWrong(h: Unsigned -> string)
    ensures Accepted(h, [])
  {}

  /** Cutting entries off the end of an accepted log leaves an accepted log: only the last hash,
      kept elsewhere, shows that they are missing. */
  lemma PrefixAccepted(h: Unsigned -> string, entries: seq<Entry>, n: nat)
    requires n <= |entries|
    ensures Accepted(h, entries) ==> Accepted(h, entries[..n])
  {
    hide InPlace, Distinct;
    var prefix := entries[..n];
    if Accepted(h, entries) {
      forall i | 0 <= i < n ensures InPlace(h, prefix[i], i, PreviousHash(prefix, i)) {
        assert prefix[i] == entries[i] && PreviousHash(prefix, i) == PreviousHash(entries, i);
      }
    }
  }

  lemma AcceptedOneMore(h: Unsigned -> string, entries: seq<Entry>, n: nat)
    requires n < |entries| && Accepted(h, entries[..n])
    ensures Accepted(h, entries[..n + 1]) <==>
              && InPlace(h, entries[n], n, PreviousHash(entries, n))
              && forall i :: 0 <= i < n ==> Distinct(entries[i], entries[n])
  {
    hide InPlace, Distinct;
    var before, more := entries[..n], entries[..n + 1];
    assert more == before + [entries[n]];
    assert PreviousHash(more, n) == PreviousHash(entries, n) == PreviousHash(before, n);
    if Accepted(h, more) {
      assert more[n] == entries[n];
      forall i | 0 <= i < n ensures Distinct(entries[i], entries[n]) { assert more[i] == entries[i]; }
    }
    if InPlace(h, entries[n], n, PreviousHash(entries, n)) &&
       forall i :: 0 <= i < n ==> Distinct(entries[i], entries[n]) {
      assert forall i :: 0 <= i < |before| ==> before[i] == entries[i];
      hide Accepted;
      AppendAccepted(h, before, entries[n]);
    }
  }

  /** Two different entries with the same hash, one in each log. */
  ghost predicate Collision(a: seq<Entry>, b: seq<Entry>) {
    exists x, y :: x in a && y in b && x.body != y.body && x.hash == y.hash
  }

  /** Two accepted logs with the same last hash are the same log, or exhibit a collision of the
      hash. */
  lemma {:induction false} LastHashDetermines(h: Unsigned -> string, a: seq<Entry>, b: seq<Entry>)
    requires Accepted(h, a) && Accepted(h, b) && PreviousHash(a, |a|) == PreviousHash(b, |b|)
    ensures a == b || Collision(a, b)
    decreases |a|
  {
    hide Accepted, PreviousHash;
    OnlyEmptyIsGenesis(h, a);
    OnlyEmptyIsGenesis(h, b);
    if a != [] {
      OneShorter(h, a);
      OneShorter(h, b);
      if a[|a| - 1].body == b[|b| - 1].body {
        LastEntriesEqual(h, a, b);
        LastHashDetermines(h, a[..|a| - 1], b[..|b| - 1]);
        Snoc(a);
        Snoc(b);
      }
    }
  }

  lemma OneShorter(h: Unsigned -> string, a: seq<Entry>)
    requires Accepted(h, a) && a != []
    ensures Accepted(h, a[..|a| - 1]) && PreviousHash(a[..|a| - 1], |a| - 1) == PreviousHash(a, |a| - 1)
    ensures PreviousHash(a, |a|) == a[|a| - 1].hash
  {
    PrefixAccepted(h, a, |a| - 1);
  }

  lemma Snoc<T>(a: seq<T>)
    requires a != []
    ensures a == a[..|a| - 1] + [a[|a| - 1]]
  {}

  lemma LastEntriesEqual(h: Unsigned -> string, a: seq<Entry>, b: seq<Entry>)
    requires Accepted(h, a) && Accepted(h, b) && a != [] && b != []
    requires a[|a| - 1].body == b[|b| - 1].body
    ensures a[|a| - 1] == b[|b| - 1] && PreviousHash(a, |a| - 1) == PreviousHash(b, |b| - 1)
  {
    var x, y := a[|a| - 1], b[|b| - 1];
    assert InPlace(h, x, |a| - 1, PreviousHash(a, |a| - 1)) && InPlace(h, y, |b| - 1, PreviousHash(b, |b| - 1));
  }

  lemma OnlyEmptyIsGenesis(h: Unsigned -> string, a: seq<Entry>)
    requires Accepted(h, a)
    ensures PreviousHash(a, |a|) == AUDIT_GENESIS_HASH <==> a == []
  {
    GenesisIsNoHash();
    if a != [] { assert InPlace(h, a[|a| - 1], |a| - 1, PreviousHash(a, |a| - 1)); }
  }

  /** Any change to an accepted log that keeps its last hash is noticed, unless it needed a
      collision of the hash. */
  lemma TamperingIsNoticed(h: Unsigned -> string, log: seq<Entry>, changed: seq<Entry>)
    requires Accepted(h, log) && changed != log
    requires PreviousHash(changed, |changed|) == PreviousHash(log, |log|)
    ensures !Accepted(h, changed) || Collision(log, changed)
  {
    if Accepted(h, changed) { LastHashDetermines(h, log, changed); }
  }

  // ---- the log --------------------------------------------------------------------------

  datatype AuditError = INTEGRITY | INVALID_INPUT

  datatype Appended = Recorded(entry: Entry) | Failed(error: AuditError)

  class AuditLog {
    const h: Unsigned -> string
    var records: seq<Entry>

    constructor (h: Unsigned -> string)
      ensures this.h == h && records == [] && Accepted(h, records)
    {
      this.h, records := h, [];
    }

    /** Appends one entry to an accepted log; data of None cannot be made canonical. A failed
        append changes nothing. The new hash is not compared with the earlier ones: the log is
        accepted afterwards exactly if it is none of them. */
    method Append(eventId: string, occurredAt: string, tenantId: string, subjectId: Option<string>, action: string,
                  outcome: Outcome, data: Option<string>)
      returns (r: Appended)
      requires HashFunction(h)
      modifies this
      ensures r == Failed(INTEGRITY) <==> !Accepted(h, old(records))
      ensures r.Recorded? <==>
                && Accepted(h, old(records)) && Identifier(tenantId)
                && (subjectId.Some? ==> Identifier(subjectId.value)) && Identifier(action) && outcome != OTHER
                && Identifier(eventId) && Printable(occurredAt, 128) && data.Some?
                && forall i :: 0 <= i < |old(records)| ==> old(records)[i].body.eventId != eventId
      ensures r.Recorded? ==> records == old(records) + [r.entry] && r.entry.hash == h(r.entry.body)
      ensures r.Recorded? ==>
                r.entry.body == Unsigned(AUDIT_LOG_FORMAT, AUDIT_LOG_VERSION, |old(records)| + 1, eventId, occurredAt,
                                         tenantId, subjectId, action, outcome, data.value,
                                         PreviousHash(old(records), |old(records)|))
      ensures r.Recorded? ==> (Accepted(h, records) <==> NewHash(old(records), r.entry.hash))
      ensures r.Failed? ==> records == old(records)
    {
      hide Accepted, HashFunction, Printable, HashText, NewHash, Chained, FieldsOk;
      var intact := VerifyAuditChain(h, records);
      if !intact { return Failed(INTEGRITY); }
      if !Identifier(tenantId) || (subjectId != None && !Identifier(subjectId.value)) || !Identifier(action) ||
         outcome == OTHER || !Identifier(eventId) {
        return Failed(INVALID_INPUT);
      }
      var i := 0;
      while i < |records|
        invariant 0 <= i <= |records| && records == old(records) && Accepted(h, records)
        invariant forall j :: 0 <= j < i ==> records[j].body.eventId != eventId
      {
        if records[i].body.eventId == eventId { return Failed(INVALID_INPUT); }
        i := i + 1;
      }
      if !Printable(occurredAt, 128) || data == None { return Failed(INVALID_INPUT); }
      var previousHash := if |records| == 0 then AUDIT_GENESIS_HASH else records[|records| - 1].hash;
      var body := Unsigned(AUDIT_LOG_FORMAT, AUDIT_LOG_VERSION, |records| + 1, eventId, occurredAt, tenantId,
                           subjectId, action, outcome, data.value, previousHash);
      var entry := Entry(body, h(body));
      ShapeOfNew(h, records, body);
      EntryAccepted(h, records, entry);
      records := records + [entry];
      r := Recorded(entry);
    }
  }

  lemma ShapeOfNew(h: Unsigned -> string, records: seq<Entry>, body: Unsigned)
    requires HashFunction(h) && Accepted(h, records)
    requires body.format == AUDIT_LOG_FORMAT && body.version == AUDIT_LOG_VERSION
    requires body.sequence == |records| + 1 && body.outcome != OTHER
    requires body.previousHash == PreviousHash(records, |records|)
    requires Identifier(body.eventId) && Printable(body.occurredAt, 128) && Identifier(body.tenantId)
    requires (body.subjectId.Some? ==> Identifier(body.subjectId.value)) && Identifier(body.action)
    ensures InPlace(h, Entry(body, h(body)), |records|, PreviousHash(records, |records|))
  {
    hide Printable;
    if records != [] { assert InPlace(h, records[|records| - 1], |records| - 1, PreviousHash(records, |records| - 1)); }
  }

  /** No entry has this hash. */
  predicate NewHash(entries: seq<Entry>, hash: string) { forall i :: 0 <= i < |entries| ==> entries[i].hash != hash }

  lemma EntryAccepted(h: Unsigned -> string, records: seq<Entry>, e: Entry)
    requires Accepted(h, records) && InPlace(h, e, |records|, PreviousHash(records, |records|))
    requires forall j :: 0 <= j < |records| ==> records[j].body.eventId != e.body.eventId
    ensures Accepted(h, records + [e]) <==> NewHash(records, e.hash)
  {
    hide InPlace, Accepted, PreviousHash;
    var more := records + [e];
    assert more[..|records|] == records && more[..|records| + 1] == more && more[|records|] == e;
    AcceptedOneMore(h, more, |records|);
    PreviousHashOfPrefix(more, |records|);
    assert forall i :: 0 <= i < |records| ==> more[i] == records[i];
  }

  lemma PreviousHashOfPrefix(entries: seq<Entry>, n: nat)
    requires n <= |entries|
    ensures PreviousHash(entries[..n], n) == PreviousHash(entries, n)
  {}

  lemma AppendAccepted(h: Unsigned -> string, records: seq<Entry>, e: Entry)
    requires Accepted(h, records) && InPlace(h, e, |records|, PreviousHash(records, |records|))
    requires forall i :: 0 <= i < |records| ==> Distinct(records[i], e)
    ensures Accepted(h, records + [e])
  {
    hide InPlace, Distinct;
    var more := records + [e];
    forall i | 0 <= i < |more| ensures InPlace(h, more[i], i, PreviousHash(more, i)) {
      assert PreviousHash(more, i) == PreviousHash(records, i);
      if i < |records| { assert more[i] == records[i]; }
    }
    forall i, j | 0 <= i < j < |more| ensures Distinct(more[i], more[j]) {
      assert more[i] == records[i];
      if j < |records| { assert more[j] == records[j]; }
    }
  }
}
