/** Validation leases: one holder a scope at a time, with fencing tokens that only grow. */
module ValidationLease {
  import opened Wrappers

  const MAX_SAFE_INTEGER := 9007199254740991

  datatype Scope = Scope(tenantId: string, resourceId: string)

  datatype Lease = Lease(
    scope: Scope, owner: string, leaseId: string, fencingToken: nat, acquiredAt: int, renewedAt: int, expiresAt: int)

  datatype Reason =
    | INVALID_INPUT | LEASE_MISSING | LEASE_EXPIRED | OWNER_MISMATCH | LEASE_ID_MISMATCH | STALE_FENCING_TOKEN
    | STORE_UNAVAILABLE | CLOCK_UNAVAILABLE | CLOCK_REGRESSION

  /** What a store operation comes back with; Thrown is an exception. */
  datatype StoreResult =
    | Acquired(lease: Lease)
    | Held(lease: Lease)
    | Updated(lease: Lease)
    | Released
    | IsValid(lease: Lease)
    | Rejected(reason: Reason)
    | Thrown

  datatype Identity = Identity(scope: Scope, owner: string, leaseId: string, fencingToken: int)

  predicate Space(c: char) { c == ' ' || c == '\t' || c == '\n' || c == '\r' }

  predicate ValidText(s: string) { s != "" && !Space(s[0]) && !Space(s[|s| - 1]) }

  predicate ValidScope(s: Scope) { ValidText(s.tenantId) && ValidText(s.resourceId) }

  predicate ValidTime(t: int) { 0 <= t <= MAX_SAFE_INTEGER }

  predicate ValidToken(t: int) { 0 < t <= MAX_SAFE_INTEGER }

  predicate ValidIdentity(r: Identity) {
    ValidScope(r.scope) && ValidText(r.owner) && ValidText(r.leaseId) && ValidToken(r.fencingToken)
  }

  predicate ValidRequest(scope: Scope, owner: string, leaseId: string, expiresAt: int, now: int) {
    ValidScope(scope) && ValidText(owner) && ValidText(leaseId) && ValidTime(expiresAt) && expiresAt > now
  }

  function IdentityReason(current: Lease, r: Identity): Option<Reason> {
    if current.fencingToken != r.fencingToken then Some(STALE_FENCING_TOKEN)
    else if current.owner != r.owner then Some(OWNER_MISMATCH)
    else if current.leaseId != r.leaseId then Some(LEASE_ID_MISMATCH)
    else None
  }

  // ---- what was granted -----------------------------------------------------------------

  /** A lease as last renewed, and whether it was released. */
  datatype Grant = Grant(lease: Lease, released: bool)

  ghost predicate Live(g: Grant, now: int) { !g.released && g.lease.expiresAt > now }

  ghost predicate TokensOk(counters: map<Scope, nat>, grants: seq<Grant>) {
    && (forall i {:trigger grants[i]} :: 0 <= i < |grants| ==>
          grants[i].lease.scope in counters && 0 < grants[i].lease.fencingToken <= counters[grants[i].lease.scope])
    && (forall i, j {:trigger grants[i], grants[j]} ::
        0 <= i < j < |grants| && grants[i].lease.scope == grants[j].lease.scope ==>
          grants[i].lease.fencingToken < grants[j].lease.fencingToken)
  }

  /** The stored lease is the latest grant of its scope. */
  ghost predicate LeasesOk(leases: map<Scope, Lease>, counters: map<Scope, nat>, last: int, grants: seq<Grant>) {
    forall s :: s in leases ==>
      && leases[s].scope == s && s in counters && leases[s].fencingToken == counters[s]
      && 0 <= leases[s].acquiredAt <= leases[s].renewedAt <= last
      && leases[s].renewedAt < leases[s].expiresAt <= MAX_SAFE_INTEGER
      && ValidText(leases[s].owner) && ValidText(leases[s].leaseId)
      && IsGranted(grants, Grant(leases[s], false))
  }

  ghost predicate IsGranted(grants: seq<Grant>, g: Grant) {
    exists i {:trigger grants[i]} :: 0 <= i < |grants| && grants[i] == g
  }

  /** A grant that is neither released nor the stored lease has expired. */
  ghost predicate OthersOver(leases: map<Scope, Lease>, last: int, grants: seq<Grant>) {
    forall i {:trigger grants[i]} :: 0 <= i < |grants| && !grants[i].released ==>
      || grants[i].lease.expiresAt <= last
      || (grants[i].lease.scope in leases && leases[grants[i].lease.scope] == grants[i].lease)
  }

  ghost predicate CountersOk(counters: map<Scope, nat>) {
    forall s :: s in counters ==> counters[s] <= MAX_SAFE_INTEGER
  }

  /** What later operations keep of earlier grants. */
  ghost predicate Continues(was: seq<Grant>, now: seq<Grant>) {
    && |was| <= |now|
    && (forall i {:trigger now[i]} :: 0 <= i < |was| ==>
          && now[i].lease.scope == was[i].lease.scope && now[i].lease.fencingToken == was[i].lease.fencingToken
          && now[i].lease.owner == was[i].lease.owner && now[i].lease.leaseId == was[i].lease.leaseId
          && (was[i].released ==> now[i].released))
  }

  lemma GrantLease(leases: map<Scope, Lease>, counters: map<Scope, nat>, last: int, grants: seq<Grant>, lease: Lease)
    requires TokensOk(counters, grants) && LeasesOk(leases, counters, last, grants) && OthersOver(leases, last, grants)
    requires lease.scope !in leases
    requires lease.fencingToken == (if lease.scope in counters then counters[lease.scope] else 0) + 1
    requires 0 <= lease.acquiredAt <= lease.renewedAt <= last && lease.renewedAt < lease.expiresAt <= MAX_SAFE_INTEGER
    requires ValidText(lease.owner) && ValidText(lease.leaseId)
    ensures var l, c := leases[lease.scope := lease], counters[lease.scope := lease.fencingToken];
            var g := grants + [Grant(lease, false)];
            TokensOk(c, g) && LeasesOk(l, c, last, g) && OthersOver(l, last, g) && Continues(grants, g)
  {
    GrantedTokens(counters, grants, lease);
    GrantedLeases(leases, counters, last, grants, lease);
    hide TokensOk, LeasesOk;
    var g := grants + [Grant(lease, false)];
    assert forall i :: 0 <= i < |grants| ==> g[i] == grants[i];
    assert g[|grants|] == Grant(lease, false);
  }

  lemma GrantedTokens(counters: map<Scope, nat>, grants: seq<Grant>, lease: Lease)
    requires TokensOk(counters, grants)
    requires lease.fencingToken == (if lease.scope in counters then counters[lease.scope] else 0) + 1
    ensures TokensOk(counters[lease.scope := lease.fencingToken], grants + [Grant(lease, false)])
  {
    var g := grants + [Grant(lease, false)];
    assert forall i :: 0 <= i < |grants| ==> g[i] == grants[i];
    assert g[|grants|] == Grant(lease, false);
  }

  lemma GrantedLeases(leases: map<Scope, Lease>, counters: map<Scope, nat>, last: int, grants: seq<Grant>, lease: Lease)
    requires LeasesOk(leases, counters, last, grants) && lease.scope !in leases
    requires 0 <= lease.acquiredAt <= lease.renewedAt <= last && lease.renewedAt < lease.expiresAt <= MAX_SAFE_INTEGER
    requires ValidText(lease.owner) && ValidText(lease.leaseId)
    ensures LeasesOk(leases[lease.scope := lease], counters[lease.scope := lease.fencingToken], last,
                     grants + [Grant(lease, false)])
  {
    hide ValidText;
    var l, g := leases[lease.scope := lease], grants + [Grant(lease, false)];
    assert g[|grants|] == Grant(lease, false);
    forall s | s in l ensures IsGranted(g, Grant(l[s], false)) {
      if s != lease.scope {
        var i :| 0 <= i < |grants| && grants[i] == Grant(leases[s], false);
        assert g[i] == Grant(l[s], false);
      }
    }
  }

  /** The lease leaves the store: it has expired, or it is released. */
  lemma Drop(leases: map<Scope, Lease>, counters: map<Scope, nat>, last: int, grants: seq<Grant>, s: Scope)
    requires TokensOk(counters, grants) && LeasesOk(leases, counters, last, grants) && OthersOver(leases, last, grants)
    requires s in leases && leases[s].expiresAt <= last
    ensures LeasesOk(leases - {s}, counters, last, grants) && OthersOver(leases - {s}, last, grants)
  {}

  lemma SelfContinues(grants: seq<Grant>)
    ensures Continues(grants, grants)
  {}

  /** Grant i changes, and the store with it. */
  lemma Change(leases: map<Scope, Lease>, counters: map<Scope, nat>, last: int, grants: seq<Grant>, i: nat, g: Grant)
    requires TokensOk(counters, grants) && LeasesOk(leases, counters, last, grants) && OthersOver(leases, last, grants)
    requires i < |grants| && grants[i].lease.scope in leases && grants[i] == Grant(leases[grants[i].lease.scope], false)
    requires g.lease.scope == grants[i].lease.scope && g.lease.fencingToken == grants[i].lease.fencingToken
    requires g.lease.owner == grants[i].lease.owner && g.lease.leaseId == grants[i].lease.leaseId
    requires 0 <= g.lease.acquiredAt <= g.lease.renewedAt <= last
    requires g.lease.renewedAt < g.lease.expiresAt <= MAX_SAFE_INTEGER
    ensures var s, now := g.lease.scope, grants[i := g];
            var l := if g.released then leases - {s} else leases[s := g.lease];
            TokensOk(counters, now) && LeasesOk(l, counters, last, now) && OthersOver(l, last, now) &&
              Continues(grants, now)
  {
    var s, now := g.lease.scope, grants[i := g];
    var l := if g.released then leases - {s} else leases[s := g.lease];
    ChangedTokens(counters, grants, i, g);
    ChangedLeases(leases, counters, last, grants, i, g, l);
    ChangedOver(leases, counters, last, grants, i, g, l);
  }

  lemma ChangedTokens(counters: map<Scope, nat>, grants: seq<Grant>, i: nat, g: Grant)
    requires TokensOk(counters, grants) && i < |grants| && !grants[i].released
    requires g.lease.scope == grants[i].lease.scope && g.lease.fencingToken == grants[i].lease.fencingToken
    requires g.lease.owner == grants[i].lease.owner && g.lease.leaseId == grants[i].lease.leaseId
    ensures TokensOk(counters, grants[i := g]) && Continues(grants, grants[i := g])
  {
    var now := grants[i := g];
    assert forall j :: 0 <= j < |grants| ==>
      now[j].lease.scope == grants[j].lease.scope && now[j].lease.fencingToken == grants[j].lease.fencingToken;
  }

  lemma ChangedLeases(leases: map<Scope, Lease>, counters: map<Scope, nat>, last: int, grants: seq<Grant>, i: nat,
                      g: Grant, l: map<Scope, Lease>)
    requires LeasesOk(leases, counters, last, grants) && i < |grants| && g.lease.scope == grants[i].lease.scope
    requires l == (if g.released then leases - {g.lease.scope} else leases[g.lease.scope := g.lease])
    requires g.lease.scope in leases && g.lease.fencingToken == leases[g.lease.scope].fencingToken
    requires 0 <= g.lease.acquiredAt <= g.lease.renewedAt <= last
    requires g.lease.renewedAt < g.lease.expiresAt <= MAX_SAFE_INTEGER
    requires g.lease.owner == leases[g.lease.scope].owner && g.lease.leaseId == leases[g.lease.scope].leaseId
    ensures LeasesOk(l, counters, last, grants[i := g])
  {
    hide IsGranted;
    ChangedGranted(leases, grants, i, g, l);
  }

  lemma ChangedOver(leases: map<Scope, Lease>, counters: map<Scope, nat>, last: int, grants: seq<Grant>, i: nat,
                    g: Grant, l: map<Scope, Lease>)
    requires TokensOk(counters, grants) && OthersOver(leases, last, grants) && i < |grants|
    requires g.lease.scope == grants[i].lease.scope
    requires l == (if g.released then leases - {g.lease.scope} else leases[g.lease.scope := g.lease])
    requires g.lease.scope in leases && grants[i].lease == leases[g.lease.scope]
    ensures OthersOver(l, last, grants[i := g])
  {
    hide TokensOk;
    var now := grants[i := g];
    forall j | 0 <= j < |now| && !now[j].released
      ensures now[j].lease.expiresAt <= last || (now[j].lease.scope in l && l[now[j].lease.scope] == now[j].lease)
    {
      if j != i {
        assert now[j] == grants[j];
        OtherOver(leases, counters, last, grants, i, j);
      }
    }
  }

  lemma OtherOver(leases: map<Scope, Lease>, counters: map<Scope, nat>, last: int, grants: seq<Grant>, i: nat, j: nat)
    requires TokensOk(counters, grants) && OthersOver(leases, last, grants)
    requires i < |grants| && j < |grants| && j != i && !grants[j].released
    requires grants[i].lease.scope in leases && grants[i].lease == leases[grants[i].lease.scope]
    ensures grants[j].lease.scope == grants[i].lease.scope ==> grants[j].lease.expiresAt <= last
  {}

  lemma ChangedGranted(leases: map<Scope, Lease>, grants: seq<Grant>, i: nat, g: Grant, l: map<Scope, Lease>)
    requires i < |grants| && l == (if g.released then leases - {g.lease.scope} else leases[g.lease.scope := g.lease])
    requires forall t :: t in leases ==> leases[t].scope == t && IsGranted(grants, Grant(leases[t], false))
    requires grants[i].lease.scope == g.lease.scope
    ensures forall t :: t in l ==> IsGranted(grants[i := g], Grant(l[t], false))
  {
    var now := grants[i := g];
    forall t | t in l ensures IsGranted(now, Grant(l[t], false)) {
      if t == g.lease.scope {
        assert now[i] == Grant(l[t], false);
      } else {
        var j :| 0 <= j < |grants| && grants[j] == Grant(leases[t], false);
        assert now[j] == Grant(l[t], false);
      }
    }
  }

  /** At no time are there two live leases of one scope, and a live lease has the largest token
      ever issued for its scope. */
  lemma OneLiveLease(leases: map<Scope, Lease>, counters: map<Scope, nat>, last: int, grants: seq<Grant>, now: int,
                     i: nat, j: nat)
    requires TokensOk(counters, grants) && LeasesOk(leases, counters, last, grants) && OthersOver(leases, last, grants)
    requires last <= now && i < |grants| && j < |grants| && grants[i].lease.scope == grants[j].lease.scope
    requires Live(grants[i], now)
    ensures Live(grants[j], now) ==> i == j
    ensures grants[j].lease.fencingToken <= grants[i].lease.fencingToken
  {
    var s := grants[i].lease.scope;
    assert leases[s] == grants[i].lease;
    if Live(grants[j], now) { assert leases[s] == grants[j].lease; }
  }

  // ---- the store ------------------------------------------------------------------------

  class InMemoryValidationLeaseStore {
    var leases: map<Scope, Lease>
    var fencingCounters: map<Scope, nat>
    var lastObservedAt: Option<int>
    ghost var grants: seq<Grant>

    ghost function Last(): int
      reads this`lastObservedAt
    {
      if lastObservedAt == None then 0 else lastObservedAt.value
    }

    ghost predicate Valid()
      reads this
    {
      && Last() >= 0 && CountersOk(fencingCounters)
      && TokensOk(fencingCounters, grants)
      && LeasesOk(leases, fencingCounters, Last(), grants)
      && OthersOver(leases, Last(), grants)
    }

    /** The clock is refused: it is invalid, or behind what the store has seen. */
    ghost predicate ClockRefused(now: int)
      reads this`lastObservedAt
    {
      !ValidTime(now) || (lastObservedAt.Some? && now < lastObservedAt.value)
    }

    /** The request names the live lease of its scope exactly. */
    ghost predicate Holds(r: Identity, now: int)
      reads this`leases
    {
      && r.scope in leases && leases[r.scope].expiresAt > now
      && leases[r.scope].owner == r.owner && leases[r.scope].leaseId == r.leaseId
      && leases[r.scope].fencingToken == r.fencingToken
    }

    /** Why a well-formed request does not name it: the first of these. */
    ghost predicate Refuses(r: Identity, now: int, reason: Reason)
      reads this`leases
    {
      && (reason == LEASE_MISSING <==> r.scope !in leases)
      && (r.scope in leases ==>
            var current := leases[r.scope];
            && (reason == LEASE_EXPIRED <==> current.expiresAt <= now)
            && (current.expiresAt > now ==>
                  && (reason == STALE_FENCING_TOKEN <==> current.fencingToken != r.fencingToken)
                  && (current.fencingToken == r.fencingToken ==>
                        && (reason == OWNER_MISMATCH <==> current.owner != r.owner)
                        && (current.owner == r.owner ==>
                              (reason == LEASE_ID_MISMATCH <==> current.leaseId != r.leaseId)))))
    }

    constructor ()
      ensures Valid() && grants == [] && leases == map[] && lastObservedAt == None
    {
      leases, fencingCounters, lastObservedAt, grants := map[], map[], None, [];
    }

    method ObserveClock(now: int) returns (ok: bool)
      requires Valid()
      modifies this`lastObservedAt
      ensures Valid() && (ok <==> !old(ClockRefused(now)))
      ensures lastObservedAt == if ok then Some(now) else old(lastObservedAt)
    {
      if !ValidTime(now) || (lastObservedAt != None && now < lastObservedAt.value) { return false; }
      lastObservedAt := Some(now);
      ok := true;
    }

    /** The lease in the store, dropped when it has expired. */
    method Unexpired(s: Scope, now: int) returns (current: Option<Lease>, expired: bool)
      requires Valid() && lastObservedAt == Some(now)
      modifies this`leases
      ensures Valid()
      ensures current.Some? <==> s in old(leases) && old(leases)[s].expiresAt > now
      ensures current.Some? ==> current.value == old(leases)[s] && s in leases
      ensures expired <==> s in old(leases) && old(leases)[s].expiresAt <= now
      ensures leases == if expired then old(leases) - {s} else old(leases)
      ensures current == None ==> s !in leases
    {
      if s !in leases { return None, false; }
      if leases[s].expiresAt <= now {
        Drop(leases, fencingCounters, now, grants, s);
        leases := leases - {s};
        return None, true;
      }
      current, expired := Some(leases[s]), false;
    }

    method Acquire(scope: Scope, owner: string, leaseId: string, expiresAt: int, now: int) returns (r: StoreResult)
      requires Valid()
      modifies this
      ensures Valid() && Continues(old(grants), grants)
      ensures r.Acquired? || r.Held? || r == Rejected(INVALID_INPUT) || r.Thrown?
      ensures r == Rejected(INVALID_INPUT) <==>
                !old(ClockRefused(now)) && !ValidRequest(scope, owner, leaseId, expiresAt, now)
      ensures r.Acquired? ==>
                && (forall i ::
                      0 <= i < |old(grants)| && old(grants)[i].lease.scope == scope ==> !Live(old(grants)[i], now))
                && (forall i :: 0 <= i < |old(grants)| && old(grants)[i].lease.scope == scope ==>
                      old(grants)[i].lease.fencingToken < r.lease.fencingToken)
                && r.lease.scope == scope && r.lease.owner == owner && r.lease.leaseId == leaseId
                && r.lease.expiresAt == expiresAt
                && r.lease.renewedAt == r.lease.acquiredAt == now && ValidToken(r.lease.fencingToken)
                && grants == old(grants) + [Grant(r.lease, false)]
      ensures r.Acquired? || r.Held? ==> ValidRequest(scope, owner, leaseId, expiresAt, now)
      ensures r.Held? <==>
                && !old(ClockRefused(now)) && ValidRequest(scope, owner, leaseId, expiresAt, now)
                && exists i {:trigger old(grants)[i]} ::
                     0 <= i < |old(grants)| && old(grants)[i].lease.scope == scope && Live(old(grants)[i], now)
      ensures r.Held? ==>
                && grants == old(grants) && r.lease.scope == scope && IsGranted(grants, Grant(r.lease, false))
                && Live(Grant(r.lease, false), now)
      ensures r.Thrown? ==>
                old(ClockRefused(now)) || (scope in fencingCounters && fencingCounters[scope] == MAX_SAFE_INTEGER)
      ensures !r.Acquired? ==> grants == old(grants)
      ensures old(ClockRefused(now)) ==> r.Thrown? && lastObservedAt == old(lastObservedAt)
      ensures !old(ClockRefused(now)) ==> lastObservedAt == Some(now)
    {
      hide TokensOk, LeasesOk, OthersOver, Continues;
      SelfContinues(grants);
      NoneLive(leases, fencingCounters, Last(), grants, scope, now);
      var ok := ObserveClock(now);
      if !ok { return Thrown; }
      if !ValidRequest(scope, owner, leaseId, expiresAt, now) { return Rejected(INVALID_INPUT); }
      var current, expired := Unexpired(scope, now);
      if current != None {
        HeldIsGranted(leases, fencingCounters, now, grants, scope);
        return Held(current.value);
      }
      var previous := if scope in fencingCounters then fencingCounters[scope] else 0;
      if previous >= MAX_SAFE_INTEGER { return Thrown; }
      var lease := Lease(scope, owner, leaseId, previous + 1, now, now, expiresAt);
      GrantLease(leases, fencingCounters, now, grants, lease);
      fencingCounters := fencingCounters[scope := previous + 1];
      leases := leases[scope := lease];
      grants := grants + [Grant(lease, false)];
      r := Acquired(lease);
    }

    /** The live lease that the request names exactly, or why there is none. */
    method Current(r: Identity, now: int) returns (current: Option<Lease>, reason: Reason, ghost i: nat)
      requires Valid() && lastObservedAt == Some(now)
      modifies this`leases
      ensures Valid() && grants == old(grants)
      ensures current.Some? <==> old(Holds(r, now))
      ensures current.Some? ==> r.scope in leases && current.value == leases[r.scope] && leases == old(leases)
                                && i < |grants| && grants[i] == Grant(current.value, false)
      ensures current == None ==> old(Refuses(r, now, reason))
      ensures current == None ==> leases == old(leases) || leases == old(leases) - {r.scope}
    {
      hide TokensOk, LeasesOk, OthersOver;
      i := 0;
      var found, expired := Unexpired(r.scope, now);
      if found == None { return None, if expired then LEASE_EXPIRED else LEASE_MISSING, 0; }
      var failure := IdentityReason(found.value, r);
      if failure != None { return None, failure.value, 0; }
      HeldIsGranted(leases, fencingCounters, now, grants, r.scope);
      i :| 0 <= i < |grants| && grants[i] == Grant(found.value, false);
      current, reason := found, INVALID_INPUT;
    }

    method Renew(r: Identity, expiresAt: int, now: int) returns (result: StoreResult)
      requires Valid()
      modifies this
      ensures Valid() && Continues(old(grants), grants) && |grants| == |old(grants)|
      ensures result.Updated? || result.Rejected? || result.Thrown?
      ensures result.Thrown? <==> old(ClockRefused(now))
      ensures result.Updated? <==>
                && !old(ClockRefused(now)) && ValidIdentity(r) && ValidTime(expiresAt) && expiresAt > now
                && old(Holds(r, now))
      ensures result.Updated? ==> result.lease == old(leases)[r.scope].(renewedAt := now, expiresAt := expiresAt)
                                  && r.scope in leases && leases[r.scope] == result.lease
                                  && IsGranted(grants, Grant(result.lease, false))
      ensures !result.Updated? ==> grants == old(grants)
      ensures result.Rejected? ==>
                if ValidIdentity(r) && ValidTime(expiresAt) && expiresAt > now then old(Refuses(r, now, result.reason))
                else result.reason == INVALID_INPUT
      ensures lastObservedAt == if result.Thrown? then old(lastObservedAt) else Some(now)
      ensures result.Updated? ==> result.lease.scope == r.scope && result.lease.acquiredAt <= now
    {
      hide TokensOk, LeasesOk, OthersOver, Continues;
      SelfContinues(grants);
      var ok := ObserveClock(now);
      if !ok { return Thrown; }
      if !(ValidIdentity(r) && ValidTime(expiresAt) && expiresAt > now) { return Rejected(INVALID_INPUT); }
      var current, reason;
      ghost var i;
      current, reason, i := Current(r, now);
      if current == None { return Rejected(reason); }
      StoredLease(leases, fencingCounters, now, grants, r.scope);
      var lease := current.value.(renewedAt := now, expiresAt := expiresAt);
      Change(leases, fencingCounters, now, grants, i, Grant(lease, false));
      leases := leases[r.scope := lease];
      grants := grants[i := Grant(lease, false)];
      assert grants[i] == Grant(lease, false);
      result := Updated(lease);
    }

    method Release(r: Identity, now: int) returns (result: StoreResult)
      requires Valid()
      modifies this
      ensures Valid() && Continues(old(grants), grants) && |grants| == |old(grants)|
      ensures result.Released? || result.Rejected? || result.Thrown?
      ensures result.Thrown? <==> old(ClockRefused(now))
      ensures result.Released? <==> !old(ClockRefused(now)) && ValidIdentity(r) && old(Holds(r, now))
      ensures result.Released? ==> r.scope !in leases && IsGranted(grants, Grant(old(leases)[r.scope], true))
      ensures !result.Released? ==> grants == old(grants)
      ensures result.Rejected? ==>
                if ValidIdentity(r) then old(Refuses(r, now, result.reason)) else result.reason == INVALID_INPUT
      ensures lastObservedAt == if result.Thrown? then old(lastObservedAt) else Some(now)
    {
      hide TokensOk, LeasesOk, OthersOver, Continues;
      SelfContinues(grants);
      var ok := ObserveClock(now);
      if !ok { return Thrown; }
      if !ValidIdentity(r) { return Rejected(INVALID_INPUT); }
      var current, reason;
      ghost var i;
      current, reason, i := Current(r, now);
      if current == None { return Rejected(reason); }
      StoredLease(leases, fencingCounters, now, grants, r.scope);
      Change(leases, fencingCounters, now, grants, i, Grant(current.value, true));
      leases := leases - {r.scope};
      grants := grants[i := Grant(current.value, true)];
      assert grants[i] == Grant(current.value, true);
      result := Released;
    }

    method Validate(r: Identity, now: int) returns (result: StoreResult)
      requires Valid()
      modifies this
      ensures Valid() && grants == old(grants)
      ensures result.IsValid? || result.Rejected? || result.Thrown?
      ensures result.Thrown? <==> old(ClockRefused(now))
      ensures result.IsValid? <==> !old(ClockRefused(now)) && ValidIdentity(r) && old(Holds(r, now))
      ensures result.IsValid? ==> result.lease == old(leases)[r.scope] && result.lease.fencingToken == r.fencingToken
                                  && IsGranted(grants, Grant(result.lease, false))
                                  && Live(Grant(result.lease, false), now)
      ensures result.Rejected? ==>
                if ValidIdentity(r) then old(Refuses(r, now, result.reason)) else result.reason == INVALID_INPUT
      ensures lastObservedAt == if result.Thrown? then old(lastObservedAt) else Some(now)
    {
      hide TokensOk, LeasesOk, OthersOver;
      var ok := ObserveClock(now);
      if !ok { return Thrown; }
      if !ValidIdentity(r) { return Rejected(INVALID_INPUT); }
      var current, reason;
      ghost var i;
      current, reason, i := Current(r, now);
      if current == None { return Rejected(reason); }
      result := IsValid(current.value);
    }
  }

  // ---- the manager ----------------------------------------------------------------------

  datatype Decision =
    | ACQUIRED(lease: Lease)
    | RENEWED(lease: Lease)
    | RELEASED
    | VALID(lease: Lease)
    | ALREADY_HELD
    | CONTENDED
    | REJECTED(reason: Reason)

  predicate ValidLeaseFor(lease: Lease, scope: Scope, now: int) {
    && lease.scope == scope && ValidText(lease.owner) && ValidText(lease.leaseId) && ValidToken(lease.fencingToken)
    && ValidTime(lease.acquiredAt) && ValidTime(lease.renewedAt) && ValidTime(lease.expiresAt)
    && lease.acquiredAt <= lease.renewedAt <= now && lease.expiresAt > now
  }

  /** One of possibly several managers of a store, each with its own clock. A reading of None
      is a clock that throws. */
  class ValidationLeaseManager {
    const store: InMemoryValidationLeaseStore
    const defaultLeaseDurationMs: int
    var lastObservedAt: Option<int>

    ghost predicate Valid()
      reads this, store
    {
      store.Valid() && ValidTime(defaultLeaseDurationMs) && defaultLeaseDurationMs > 0
    }

    ghost predicate ClockOk(reading: Option<int>)
      reads this`lastObservedAt
    {
      reading.Some? && ValidTime(reading.value) && (lastObservedAt.Some? ==> reading.value >= lastObservedAt.value)
    }

    constructor (store: InMemoryValidationLeaseStore, defaultLeaseDurationMs: int)
      requires store.Valid() && ValidTime(defaultLeaseDurationMs) && defaultLeaseDurationMs > 0
      ensures Valid() && this.store == store && lastObservedAt == None
    {
      this.store, this.defaultLeaseDurationMs, lastObservedAt := store, defaultLeaseDurationMs, None;
    }

    method ReadClock(reading: Option<int>) returns (ok: bool, value: int, reason: Reason)
      modifies this`lastObservedAt
      ensures ok <==> old(ClockOk(reading))
      ensures ok ==> reading == Some(value) == lastObservedAt && ValidTime(value)
      ensures !ok ==>
                && lastObservedAt == old(lastObservedAt)
                && reason == if reading.Some? && ValidTime(reading.value) then CLOCK_REGRESSION else CLOCK_UNAVAILABLE
    {
      if reading == None || !ValidTime(reading.value) { return false, 0, CLOCK_UNAVAILABLE; }
      if lastObservedAt != None && reading.value < lastObservedAt.value { return false, 0, CLOCK_REGRESSION; }
      lastObservedAt := reading;
      ok, value, reason := true, reading.value, INVALID_INPUT;
    }

    function Duration(durationMs: Option<int>): (duration: int)
      ensures durationMs == Some(duration) || (durationMs == None && duration == defaultLeaseDurationMs)
    {
      if durationMs == None then defaultLeaseDurationMs else durationMs.value
    }

    /** Grants a lease only when no earlier grant of the scope is live, with a token larger than
        every earlier one; every failure grants nothing. */
    method Acquire(scope: Scope, owner: string, leaseId: string, durationMs: Option<int>, reading: Option<int>)
      returns (d: Decision)
      requires Valid()
      modifies this`lastObservedAt, store
      ensures Valid() && Continues(old(store.grants), store.grants)
      ensures d.ACQUIRED? || d.ALREADY_HELD? || d.CONTENDED? || d.REJECTED?
      ensures d.ACQUIRED? ==>
                && old(ClockOk(reading)) && d.lease.expiresAt == reading.value + Duration(durationMs) > reading.value
                && d.lease.scope == scope && d.lease.owner == owner && d.lease.leaseId == leaseId
                && (forall i :: 0 <= i < |old(store.grants)| && old(store.grants)[i].lease.scope == scope ==>
                      !Live(old(store.grants)[i], reading.value) &&
                        old(store.grants)[i].lease.fencingToken < d.lease.fencingToken)
                && store.grants == old(store.grants) + [Grant(d.lease, false)]
      ensures !d.ACQUIRED? ==> store.grants == old(store.grants)
      ensures d.ALREADY_HELD? || d.CONTENDED? ==> old(ClockOk(reading)) && exists i {:trigger store.grants[i]} ::
                0 <= i < |store.grants| && store.grants[i].lease.scope == scope && Live(store.grants[i], reading.value)
      ensures d.ALREADY_HELD? ==> exists i {:trigger store.grants[i]} ::
                && 0 <= i < |store.grants| && Live(store.grants[i], reading.value)
                && store.grants[i].lease.scope == scope
                && store.grants[i].lease.owner == owner && store.grants[i].lease.leaseId == leaseId
      ensures d.CONTENDED? ==> exists i {:trigger store.grants[i]} ::
                && 0 <= i < |store.grants| && Live(store.grants[i], reading.value)
                && store.grants[i].lease.scope == scope
                && !(store.grants[i].lease.owner == owner && store.grants[i].lease.leaseId == leaseId)
    {
      hide TokensOk, LeasesOk, OthersOver, Continues;
      SelfContinues(store.grants);
      if !(ValidScope(scope) && ValidText(owner) && ValidText(leaseId)) { return REJECTED(INVALID_INPUT); }
      if durationMs != None && !(ValidTime(durationMs.value) && durationMs.value > 0) {
        return REJECTED(INVALID_INPUT);
      }
      var ok, now, reason := ReadClock(reading);
      if !ok { return REJECTED(reason); }
      var duration := Duration(durationMs);
      if now > MAX_SAFE_INTEGER - duration { return REJECTED(INVALID_INPUT); }
      var result := store.Acquire(scope, owner, leaseId, now + duration, now);
      match result {
        case Acquired(lease) =>
          if !ValidLeaseFor(lease, scope, now) { return REJECTED(STORE_UNAVAILABLE); }
          return ACQUIRED(lease);
        case Held(lease) =>
          if !ValidLeaseFor(lease, scope, now) { return REJECTED(STORE_UNAVAILABLE); }
          ghost var i :| 0 <= i < |store.grants| && store.grants[i] == Grant(lease, false);
          return if lease.owner == owner && lease.leaseId == leaseId then ALREADY_HELD else CONTENDED;
        case Rejected(why) => return REJECTED(why);
        case _ => return REJECTED(STORE_UNAVAILABLE);
      }
    }

    /** Extends exactly the live lease that the request names. */
    method Renew(r: Identity, durationMs: Option<int>, reading: Option<int>) returns (d: Decision)
      requires Valid()
      modifies this`lastObservedAt, store
      ensures Valid() && Continues(old(store.grants), store.grants) && |store.grants| == |old(store.grants)|
      ensures d.RENEWED? <==>
                && ValidIdentity(r) && (durationMs.Some? ==> ValidTime(durationMs.value) && durationMs.value > 0)
                && old(ClockOk(reading)) && reading.value + Duration(durationMs) <= MAX_SAFE_INTEGER
                && !old(store.ClockRefused(reading.value)) && old(store.Holds(r, reading.value))
      ensures d.RENEWED? ==>
                var was := old(store.leases)[r.scope];
                d.lease == was.(renewedAt := reading.value, expiresAt := reading.value + Duration(durationMs))
      ensures d.RENEWED? || d.REJECTED?
      ensures d.REJECTED? ==> store.grants == old(store.grants)
    {
      hide TokensOk, LeasesOk, OthersOver, Continues;
      SelfContinues(store.grants);
      if !ValidIdentity(r) || (durationMs != None && !(ValidTime(durationMs.value) && durationMs.value > 0)) {
        return REJECTED(INVALID_INPUT);
      }
      var ok, now, reason := ReadClock(reading);
      if !ok { return REJECTED(reason); }
      var duration := Duration(durationMs);
      if now > MAX_SAFE_INTEGER - duration { return REJECTED(INVALID_INPUT); }
      var result := store.Renew(r, now + duration, now);
      match result {
        case Updated(lease) =>
          RenewedValid(store.leases, store.fencingCounters, now, store.grants, r.scope);
          if !ValidLeaseFor(lease, r.scope, now) { return REJECTED(STORE_UNAVAILABLE); }
          return RENEWED(lease);
        case Rejected(why) => return REJECTED(why);
        case _ => return REJECTED(STORE_UNAVAILABLE);
      }
    }

    method Release(r: Identity, reading: Option<int>) returns (d: Decision)
      requires Valid()
      modifies this`lastObservedAt, store
      ensures Valid() && Continues(old(store.grants), store.grants) && |store.grants| == |old(store.grants)|
      ensures d.RELEASED? <==>
                && ValidIdentity(r) && old(ClockOk(reading)) && !old(store.ClockRefused(reading.value))
                && old(store.Holds(r, reading.value))
      ensures d.RELEASED? ==>
                r.scope !in store.leases && IsGranted(store.grants, Grant(old(store.leases)[r.scope], true))
      ensures d.RELEASED? || d.REJECTED?
      ensures d.REJECTED? ==> store.grants == old(store.grants)
    {
      hide TokensOk, LeasesOk, OthersOver, Continues;
      SelfContinues(store.grants);
      if !ValidIdentity(r) { return REJECTED(INVALID_INPUT); }
      var ok, now, reason := ReadClock(reading);
      if !ok { return REJECTED(reason); }
      var result := store.Release(r, now);
      match result {
        case Released => return RELEASED;
        case Rejected(why) => return REJECTED(why);
        case _ => return REJECTED(STORE_UNAVAILABLE);
      }
    }

    /** Says VALID exactly for the live lease that the request names. */
    method Validate(r: Identity, reading: Option<int>) returns (d: Decision)
      requires Valid()
      modifies this`lastObservedAt, store
      ensures Valid() && store.grants == old(store.grants)
      ensures d.VALID? <==>
                && ValidIdentity(r) && old(ClockOk(reading)) && !old(store.ClockRefused(reading.value))
                && old(store.Holds(r, reading.value))
      ensures d.VALID? ==>
                && IsGranted(store.grants, Grant(d.lease, false)) && Live(Grant(d.lease, false), reading.value)
                && d.lease.fencingToken == r.fencingToken
      ensures d.VALID? || d.REJECTED?
    {
      hide TokensOk, LeasesOk, OthersOver;
      if !ValidIdentity(r) { return REJECTED(INVALID_INPUT); }
      var ok, now, reason := ReadClock(reading);
      if !ok { return REJECTED(reason); }
      if r.scope in store.leases {
        StoredLease(store.leases, store.fencingCounters, store.Last(), store.grants, r.scope);
      }
      var result := store.Validate(r, now);
      match result {
        case IsValid(lease) =>
          if !ValidLeaseFor(lease, r.scope, now) { return REJECTED(STORE_UNAVAILABLE); }
          return VALID(lease);
        case Rejected(why) => return REJECTED(why);
        case _ => return REJECTED(STORE_UNAVAILABLE);
      }
    }
  }

  lemma RenewedValid(leases: map<Scope, Lease>, counters: map<Scope, nat>, now: int, grants: seq<Grant>, s: Scope)
    requires LeasesOk(leases, counters, now, grants) && CountersOk(counters) && TokensOk(counters, grants)
    requires s in leases && ValidTime(now)
    requires leases[s].renewedAt == now
    ensures ValidLeaseFor(leases[s], s, now)
  {}

  lemma StoredLease(leases: map<Scope, Lease>, counters: map<Scope, nat>, last: int, grants: seq<Grant>, s: Scope)
    requires LeasesOk(leases, counters, last, grants) && s in leases
    ensures var l := leases[s];
            && l.scope == s && 0 <= l.acquiredAt <= l.renewedAt <= last && l.renewedAt < l.expiresAt <= MAX_SAFE_INTEGER
            && ValidText(l.owner) && ValidText(l.leaseId) && s in counters && l.fencingToken == counters[s]
  {}

  /** Only the holder of the largest token ever issued for a scope can succeed in renewing,
      releasing or validating: a request with an older token names no live lease. */
  lemma OnlyTheLatestHolds(leases: map<Scope, Lease>, counters: map<Scope, nat>, last: int, grants: seq<Grant>,
                           r: Identity)
    requires TokensOk(counters, grants) && LeasesOk(leases, counters, last, grants)
    requires r.scope in leases && leases[r.scope].owner == r.owner && leases[r.scope].leaseId == r.leaseId
    requires leases[r.scope].fencingToken == r.fencingToken
    ensures forall i ::
              0 <= i < |grants| && grants[i].lease.scope == r.scope ==> grants[i].lease.fencingToken <= r.fencingToken
    ensures IsGranted(grants, Grant(Lease(r.scope, r.owner, r.leaseId, leases[r.scope].fencingToken,
                                          leases[r.scope].acquiredAt, leases[r.scope].renewedAt,
                                          leases[r.scope].expiresAt), false))
  {}

  /** Without a stored lease of the scope that outlives now, no grant of the scope is live. */
  lemma NoneLive(leases: map<Scope, Lease>, counters: map<Scope, nat>, last: int, grants: seq<Grant>, s: Scope,
                 now: int)
    requires TokensOk(counters, grants) && LeasesOk(leases, counters, last, grants) && OthersOver(leases, last, grants)
    ensures last <= now && !(s in leases && leases[s].expiresAt > now) ==>
              forall i :: 0 <= i < |grants| && grants[i].lease.scope == s ==> !Live(grants[i], now)
    ensures forall i :: 0 <= i < |grants| && grants[i].lease.scope == s ==>
              s in counters && grants[i].lease.fencingToken <= counters[s]
  {}

  lemma HeldIsGranted(leases: map<Scope, Lease>, counters: map<Scope, nat>, last: int, grants: seq<Grant>, s: Scope)
    requires LeasesOk(leases, counters, last, grants) && s in leases
    ensures leases[s].scope == s && IsGranted(grants, Grant(leases[s], false))
  {}
}
