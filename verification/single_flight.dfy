/** Fenced single flight: one shared validation per complete scope, fenced by newer
    versions of the same resource. Each callback boundary is one step. */
module SingleFlight {
  import opened Wrappers

  type Text = string

  /** The complete validation scope after normalisation: the two lists are sets. */
  datatype Scope = Scope(
    tenantId: Text, resourceId: Text, incarnationId: Text, versionScheme: Text, versionToken: Text,
    validatorId: Text, authorizationContextDigest: Text, policyDigest: Text, queryDigest: Text,
    scopes: set<Text>, changeSetDigest: Option<Text>, causalFrontier: set<Text>)

  datatype Resource = Resource(tenantId: Text, resource: Text)

  datatype Request = Scoped(scope: Scope) | Legacy(resource: Resource)

  /** What may be shared; a request without a scope gets a key of its own. */
  datatype FlightKey = ScopeKey(scope: Scope) | IsolatedKey(n: nat)

  /** What may fence older work: only a new incarnation or version of the resource. */
  datatype Supersession =
    | Version(resource: Resource, incarnationId: Text, scheme: Text, token: Text)
    | IsolatedVersion(n: nat)

  function ResourceOf(r: Request): Resource {
    match r
    case Scoped(scope) => Resource(scope.tenantId, scope.resourceId)
    case Legacy(resource) => resource
  }

  function KeyOf(r: Request, legacy: nat): FlightKey {
    match r
    case Scoped(scope) => ScopeKey(scope)
    case Legacy(_) => IsolatedKey(legacy)
  }

  function SupersessionOf(r: Request, legacy: nat): Supersession {
    match r
    case Scoped(scope) => Version(ResourceOf(r), scope.incarnationId, scope.versionScheme, scope.versionToken)
    case Legacy(_) => IsolatedVersion(legacy)
  }

  datatype Reason = TIMEOUT | ABORTED | FENCED

  datatype Outcome =
    | FromSource(fencingToken: nat, value: Text)
    | Unknown(reason: Reason)
    | Rejected(error: Text)

  /** What the source call, or the skipped call, came back with. */
  datatype Answer = Resolved(fencingToken: nat, value: Text) | Skipped | Threw(error: Text, abortLike: bool)

  datatype Phase = Queued | Calling | Answered(answer: Answer) | Handled | Done

  /** settledAt is the number of flights that had been started when the promise settled. */
  datatype Flight = Flight(
    key: FlightKey, resource: Resource, supersession: Supersession, fencingToken: nat,
    timeoutTriggered: bool, abortTriggered: bool, phase: Phase, outcome: Option<Outcome>, settledAt: nat)

  datatype Latest = Latest(supersession: Supersession, fencingToken: nat)

  /** The coordinator's fields; all lists every flight ever started, in order. */
  datatype State = State(
    flights: map<FlightKey, nat>, latestByResource: map<Resource, Latest>,
    nextFencingToken: nat, legacyFlight: nat, all: seq<Flight>)

  const EMPTY := State(map[], map[], 0, 0, [])

  datatype Event =
    | Validate(request: Request)
    | Abort(id: nat)
    | Timeout(id: nat)
    | CallSource(id: nat)
    | SourceAnswers(id: nat, answer: Answer)
    | Settle(id: nat)
    | Cleanup(id: nat)

  // ---- the steps ------------------------------------------------------------------------

  /** The flight a request starts: it shares the latest generation's token, or gets a new one. */
  function NewFlight(s: State, r: Request): Flight {
    var legacy := if r.Legacy? then s.legacyFlight + 1 else s.legacyFlight;
    var resource, supersession := ResourceOf(r), SupersessionOf(r, legacy);
    var token :=
      if resource in s.latestByResource && s.latestByResource[resource].supersession == supersession
      then s.latestByResource[resource].fencingToken
      else s.nextFencingToken + 1;
    Flight(KeyOf(r, legacy), resource, supersession, token, false, false, Queued, None, 0)
  }

  /** The flight whose promise the caller gets. */
  function FlightOf(s: State, r: Request): nat {
    var key := NewFlight(s, r).key;
    if key in s.flights then s.flights[key] else |s.all|
  }

  /** Join the flight of the same key, or start a new one. */
  function Start(s: State, r: Request): State {
    var legacy := if r.Legacy? then s.legacyFlight + 1 else s.legacyFlight;
    var f := NewFlight(s, r);
    if f.key in s.flights then s.(legacyFlight := legacy)
    else State(
           s.flights[f.key := |s.all|],
           s.latestByResource[f.resource := Latest(f.supersession, f.fencingToken)],
           if f.fencingToken > s.nextFencingToken then f.fencingToken else s.nextFencingToken,
           legacy,
           s.all + [f])
  }

  function Settled(s: State, id: nat, outcome: Outcome): State
    requires id < |s.all|
  {
    if s.all[id].outcome.Some? then s
    else s.(all := s.all[id := s.all[id].(outcome := Some(outcome), settledAt := |s.all|)])
  }

  function AbortAsUnknown(s: State, id: nat, reason: Reason): State
    requires id < |s.all|
  {
    if s.all[id].outcome.Some? then s
    else
      var f := if reason == TIMEOUT then s.all[id].(timeoutTriggered := true) else s.all[id].(abortTriggered := true);
      Settled(s.(all := s.all[id := f]), id, Unknown(reason))
  }

  function SetPhase(s: State, id: nat, phase: Phase): State
    requires id < |s.all|
  {
    s.(all := s.all[id := s.all[id].(phase := phase)])
  }

  /** The deferred source call is skipped when the flight was aborted first. */
  function Call(s: State, id: nat): State
    requires id < |s.all|
  {
    var f := s.all[id];
    SetPhase(s, id, if f.timeoutTriggered || f.abortTriggered then Answered(Skipped) else Calling)
  }

  /** How a flight that is still waiting settles when its operation comes back. */
  function HandledOutcome(s: State, id: nat, answer: Answer): Outcome
    requires id < |s.all|
  {
    var f := s.all[id];
    match answer
    case Resolved(token, value) =>
      if f.resource in s.latestByResource
         && s.latestByResource[f.resource] == Latest(f.supersession, f.fencingToken)
         && token == f.fencingToken then FromSource(token, value)
      else Unknown(FENCED)
    case Skipped => Unknown(if f.abortTriggered then ABORTED else TIMEOUT)
    case Threw(error, abortLike) =>
      if f.timeoutTriggered then Unknown(TIMEOUT)
      else if f.abortTriggered || abortLike then Unknown(ABORTED)
      else Rejected(error)
  }

  function Handle(s: State, id: nat, answer: Answer): State
    requires id < |s.all|
  {
    Settled(SetPhase(s, id, Handled), id, HandledOutcome(s, id, answer))
  }

  predicate AnotherFlight(flights: map<FlightKey, nat>, all: seq<Flight>, resource: Resource) {
    exists k :: k in flights && flights[k] < |all| && all[flights[k]].resource == resource
  }

  /** Forget the flight, and the resource's generation when no other flight uses it. */
  function Forget(s: State, id: nat): State
    requires id < |s.all|
  {
    var f := s.all[id];
    var flights := if f.key in s.flights && s.flights[f.key] == id then s.flights - {f.key} else s.flights;
    SetPhase(s, id, Done).(flights := flights,
                           latestByResource := if AnotherFlight(flights, s.all, f.resource) then s.latestByResource
                             else s.latestByResource - {f.resource})
  }

  predicate Enabled(s: State, e: Event) {
    match e
    case Validate(_) => true
    case Abort(id) => id < |s.all| && s.all[id].phase != Done
    case Timeout(id) => id < |s.all| && s.all[id].phase != Done
    case CallSource(id) => id < |s.all| && s.all[id].phase == Queued
    case SourceAnswers(id, answer) => id < |s.all| && s.all[id].phase == Calling && !answer.Skipped?
    case Settle(id) => id < |s.all| && s.all[id].phase.Answered?
    case Cleanup(id) => id < |s.all| && s.all[id].phase == Handled
  }

  function Step(s: State, e: Event): State
    requires Enabled(s, e)
  {
    match e
    case Validate(r) => Start(s, r)
    case Abort(id) => AbortAsUnknown(s, id, ABORTED)
    case Timeout(id) => AbortAsUnknown(s, id, TIMEOUT)
    case CallSource(id) => Call(s, id)
    case SourceAnswers(id, answer) => SetPhase(s, id, Answered(answer))
    case Settle(id) => Handle(s, id, s.all[id].phase.answer)
    case Cleanup(id) => Forget(s, id)
  }

  // ---- safety ---------------------------------------------------------------------------

  /** The table of flights is exactly the flights that are not finished. */
  ghost predicate TableOk(flights: map<FlightKey, nat>, all: seq<Flight>) {
    && (forall k :: k in flights ==> flights[k] < |all| && all[flights[k]].key == k && all[flights[k]].phase != Done)
    && (forall i {:trigger all[i]} ::
          0 <= i < |all| && all[i].phase != Done ==> all[i].key in flights && flights[all[i].key] == i)
  }

  /** f was started no later than g: for one resource the tokens do not go back, and one
      token names one supersession key. */
  ghost predicate Ordered(f: Flight, g: Flight) {
    f.resource == g.resource ==>
      f.fencingToken <= g.fencingToken && (f.fencingToken == g.fencingToken ==> f.supersession == g.supersession)
  }

  ghost predicate TokensOk(all: seq<Flight>, next: nat) {
    && (forall i {:trigger all[i]} :: 0 <= i < |all| ==> all[i].fencingToken <= next)
    && (forall i, j {:trigger all[i], all[j]} :: 0 <= i <= j < |all| ==> Ordered(all[i], all[j]))
  }

  /** No flight for flight i's resource under another supersession key was started after
      it and before the n-th flight. */
  ghost predicate NotSuperseded(all: seq<Flight>, i: nat, n: nat)
    requires i < |all|
  {
    forall j {:trigger all[j]} :: i < j < n && j < |all| && all[j].resource == all[i].resource ==>
      all[j].supersession == all[i].supersession
  }

  ghost predicate Dominates(latest: Latest, f: Flight) {
    f.fencingToken <= latest.fencingToken &&
      (f.fencingToken == latest.fencingToken ==> f.supersession == latest.supersession)
  }

  /** The latest generation dominates every flight of its resource, is there while a flight
      of the resource is unfinished, and is that flight's own unless something superseded it. */
  ghost predicate LatestOk(latest: map<Resource, Latest>, all: seq<Flight>, next: nat) {
    && (forall r :: r in latest ==> latest[r].fencingToken <= next)
    && (forall i {:trigger all[i]} ::
          0 <= i < |all| && all[i].resource in latest ==> Dominates(latest[all[i].resource], all[i]))
    && (forall i {:trigger all[i]} :: 0 <= i < |all| && all[i].phase != Done ==>
          && all[i].resource in latest
          && (NotSuperseded(all, i, |all|) ==>
              latest[all[i].resource] == Latest(all[i].supersession, all[i].fencingToken)))
  }

  ghost predicate LegacyOk(flights: map<FlightKey, nat>, legacy: nat) {
    forall k :: k in flights && k.IsolatedKey? ==> k.n <= legacy
  }

  /** A flight that delivers its source's outcome echoes its own token and was not
      superseded before it settled. */
  ghost predicate Safe(all: seq<Flight>) {
    forall i {:trigger all[i]} :: 0 <= i < |all| && all[i].outcome.Some? ==>
      && all[i].settledAt <= |all|
      && (all[i].outcome.value.FromSource? ==>
            all[i].outcome.value.fencingToken == all[i].fencingToken && NotSuperseded(all, i, all[i].settledAt))
  }

  ghost predicate Inv(s: State) {
    && TableOk(s.flights, s.all)
    && TokensOk(s.all, s.nextFencingToken)
    && LatestOk(s.latestByResource, s.all, s.nextFencingToken)
    && LegacyOk(s.flights, s.legacyFlight)
    && Safe(s.all)
  }

  /** What no step changes: who a flight is and, once it has settled, how. */
  ghost predicate Keeps(f: Flight, g: Flight) {
    && g.key == f.key && g.resource == f.resource && g.supersession == f.supersession
    && g.fencingToken == f.fencingToken
    && (f.outcome.Some? ==> g.outcome == f.outcome && g.settledAt == f.settledAt)
    && (f.phase == Done ==> g.phase == Done)
  }

  ghost predicate AllKept(was: seq<Flight>, now: seq<Flight>) {
    |was| <= |now| && forall i {:trigger now[i]} :: 0 <= i < |was| ==> Keeps(was[i], now[i])
  }

  ghost predicate Grows(s: State, t: State) {
    AllKept(s.all, t.all) && s.nextFencingToken <= t.nextFencingToken
  }

  lemma SelfKept(all: seq<Flight>)
    ensures AllKept(all, all)
  {}

  lemma SameSuperseded(was: seq<Flight>, now: seq<Flight>)
    requires AllKept(was, now)
    ensures forall i: nat, n: nat {:trigger NotSuperseded(was, i, n)} {:trigger NotSuperseded(now, i, n)} ::
              i < |was| && n <= |was| ==> NotSuperseded(now, i, n) == NotSuperseded(was, i, n)
  {
    forall i: nat, n: nat | i < |was| && n <= |was| ensures NotSuperseded(now, i, n) == NotSuperseded(was, i, n) {
      if NotSuperseded(was, i, n) {
        forall k | i < k < n && now[k].resource == now[i].resource ensures now[k].supersession == now[i].supersession {
          assert was[k].resource == was[i].resource;
        }
      }
      if NotSuperseded(now, i, n) {
        forall k | i < k < n && was[k].resource == was[i].resource ensures was[k].supersession == was[i].supersession {
          assert now[k].resource == now[i].resource;
        }
      }
    }
  }

  /** An unfinished flight's generation is current exactly when nothing superseded it. */
  lemma CurrentIffNotSuperseded(s: State, i: nat)
    requires Inv(s) && i < |s.all| && s.all[i].phase != Done
    ensures s.all[i].resource in s.latestByResource
    ensures s.latestByResource[s.all[i].resource] == Latest(s.all[i].supersession, s.all[i].fencingToken)
            <==> NotSuperseded(s.all, i, |s.all|)
  {
    var f := s.all[i];
    if s.latestByResource[f.resource] == Latest(f.supersession, f.fencingToken) {
      forall j | i < j < |s.all| && s.all[j].resource == f.resource ensures s.all[j].supersession == f.supersession {
        assert Ordered(s.all[i], s.all[j]);
      }
    }
  }

  // ---- one flight moves -----------------------------------------------------------------

  ghost predicate Moved(was: seq<Flight>, i: nat, g: Flight, now: seq<Flight>) {
    i < |was| && now == was[i := g] && Keeps(was[i], g)
  }

  lemma MovedKeepsAll(was: seq<Flight>, i: nat, g: Flight, now: seq<Flight>)
    requires Moved(was, i, g, now)
    ensures AllKept(was, now)
  {}

  lemma MovedTable(flights: map<FlightKey, nat>, was: seq<Flight>, i: nat, g: Flight, now: seq<Flight>)
    requires Moved(was, i, g, now) && TableOk(flights, was) && g.phase != Done && was[i].phase != Done
    ensures TableOk(flights, now)
  {
    forall k | k in flights ensures flights[k] < |now| && now[flights[k]].key == k && now[flights[k]].phase != Done {
      assert flights[k] < |was|;
    }
    forall j | 0 <= j < |now| && now[j].phase != Done ensures now[j].key in flights && flights[now[j].key] == j {
      assert was[j].phase != Done;
    }
  }

  lemma KeptTokens(was: seq<Flight>, now: seq<Flight>, next: nat)
    requires AllKept(was, now) && |was| == |now| && TokensOk(was, next)
    ensures TokensOk(now, next)
  {
    forall i, j | 0 <= i <= j < |now| ensures Ordered(now[i], now[j]) {
      assert Ordered(was[i], was[j]);
    }
  }

  lemma KeptLatest(latest: map<Resource, Latest>, was: seq<Flight>, now: seq<Flight>, next: nat)
    requires AllKept(was, now) && |was| == |now| && LatestOk(latest, was, next)
    ensures LatestOk(latest, now, next)
  {
    SameSuperseded(was, now);
    hide NotSuperseded;
    forall i | 0 <= i < |now| && now[i].resource in latest ensures Dominates(latest[now[i].resource], now[i]) {
      assert Dominates(latest[was[i].resource], was[i]);
    }
    forall i | 0 <= i < |now| && now[i].phase != Done
      ensures now[i].resource in latest
      ensures NotSuperseded(now, i, |now|) ==>
                latest[now[i].resource] == Latest(now[i].supersession, now[i].fencingToken)
    {
      assert Keeps(was[i], now[i]) && was[i].phase != Done;
    }
  }

  lemma MovedSafe(was: seq<Flight>, i: nat, g: Flight, now: seq<Flight>)
    requires Moved(was, i, g, now) && Safe(was)
    requires g.outcome.Some? && was[i].outcome.None? ==> g.settledAt == |was|
    requires g.outcome.Some? && was[i].outcome.None? && g.outcome.value.FromSource? ==>
               g.outcome.value.fencingToken == g.fencingToken && NotSuperseded(was, i, |was|)
    ensures Safe(now)
  {
    MovedKeepsAll(was, i, g, now);
    SameSuperseded(was, now);
    hide NotSuperseded, AllKept;
    forall j | 0 <= j < |now| && now[j].outcome.Some?
      ensures now[j].settledAt <= |now|
      ensures now[j].outcome.value.FromSource? ==>
                now[j].outcome.value.fencingToken == now[j].fencingToken && NotSuperseded(now, j, now[j].settledAt)
    {
      assert j != i ==> now[j] == was[j];
      assert was[j] == was[j];
    }
  }

  lemma UpdateKeepsInv(s: State, i: nat, g: Flight)
    requires Inv(s) && i < |s.all| && Keeps(s.all[i], g) && g.phase != Done && s.all[i].phase != Done
    requires g.outcome.Some? && s.all[i].outcome.None? ==> g.settledAt == |s.all|
    requires g.outcome.Some? && s.all[i].outcome.None? && g.outcome.value.FromSource? ==>
               g.outcome.value.fencingToken == g.fencingToken && NotSuperseded(s.all, i, |s.all|)
    ensures Inv(s.(all := s.all[i := g])) && Grows(s, s.(all := s.all[i := g]))
  {
    hide TableOk, TokensOk, LatestOk, LegacyOk, Safe, NotSuperseded;
    var now := s.all[i := g];
    MovedKeepsAll(s.all, i, g, now);
    MovedTable(s.flights, s.all, i, g, now);
    KeptTokens(s.all, now, s.nextFencingToken);
    KeptLatest(s.latestByResource, s.all, now, s.nextFencingToken);
    MovedSafe(s.all, i, g, now);
  }

  // ---- each step ------------------------------------------------------------------------

  lemma AppendTable(flights: map<FlightKey, nat>, all: seq<Flight>, g: Flight)
    requires TableOk(flights, all) && g.key !in flights && g.phase != Done
    ensures TableOk(flights[g.key := |all|], all + [g])
  {
    var t, now := flights[g.key := |all|], all + [g];
    forall k | k in t ensures t[k] < |now| && now[t[k]].key == k && now[t[k]].phase != Done {
      assert k in flights ==> flights[k] < |all|;
    }
    forall j | 0 <= j < |now| && now[j].phase != Done ensures now[j].key in t && t[now[j].key] == j {
      assert j < |all| ==> all[j].phase != Done;
    }
  }

  lemma AppendTokens(latest: map<Resource, Latest>, all: seq<Flight>, next: nat, g: Flight)
    requires TokensOk(all, next) && LatestOk(latest, all, next)
    requires g.resource in latest && latest[g.resource].supersession == g.supersession ==>
               g.fencingToken == latest[g.resource].fencingToken
    requires !(g.resource in latest && latest[g.resource].supersession == g.supersession) ==> g.fencingToken == next + 1
    ensures TokensOk(all + [g], if g.fencingToken > next then g.fencingToken else next)
    ensures forall i :: 0 <= i < |all| ==> Ordered(all[i], g)
  {
    hide NotSuperseded;
    forall i | 0 <= i < |all| ensures Ordered(all[i], g) {
      assert all[i].fencingToken <= next;
      if all[i].resource == g.resource && g.resource in latest { assert Dominates(latest[g.resource], all[i]); }
    }
    var now := all + [g];
    forall i, j | 0 <= i <= j < |now| ensures Ordered(now[i], now[j]) {
      assert j < |all| ==> Ordered(all[i], all[j]);
    }
  }

  lemma AppendSuperseded(all: seq<Flight>, g: Flight, i: nat)
    requires i < |all| && NotSuperseded(all + [g], i, |all| + 1)
    ensures NotSuperseded(all, i, |all|)
    ensures g.resource == all[i].resource ==> g.supersession == all[i].supersession
  {
    var now := all + [g];
    assert now[|all|] == g;
    forall k | i < k < |all| && all[k].resource == all[i].resource ensures all[k].supersession == all[i].supersession {
      assert now[k] == all[k];
    }
  }

  lemma AppendLatest(latest: map<Resource, Latest>, all: seq<Flight>, next: nat, g: Flight)
    requires TokensOk(all, next) && LatestOk(latest, all, next)
    requires g.resource in latest && latest[g.resource].supersession == g.supersession ==>
               g.fencingToken == latest[g.resource].fencingToken
    requires !(g.resource in latest && latest[g.resource].supersession == g.supersession) ==> g.fencingToken == next + 1
    ensures LatestOk(latest[g.resource := Latest(g.supersession, g.fencingToken)], all + [g],
                     if g.fencingToken > next then g.fencingToken else next)
  {
    AppendTokens(latest, all, next, g);
    hide NotSuperseded, TokensOk;
    var l, now := latest[g.resource := Latest(g.supersession, g.fencingToken)], all + [g];
    forall i | 0 <= i < |now| && now[i].resource in l ensures Dominates(l[now[i].resource], now[i]) {
      if i < |all| {
        assert now[i] == all[i];
        assert Ordered(all[i], g);
      }
    }
    forall i: nat | i < |now| && now[i].phase != Done
      ensures now[i].resource in l
      ensures NotSuperseded(now, i, |now|) ==> l[now[i].resource] == Latest(now[i].supersession, now[i].fencingToken)
    {
      if i < |all| {
        assert now[i] == all[i];
        if NotSuperseded(now, i, |now|) { AppendSuperseded(all, g, i); }
      }
    }
  }

  lemma AppendSafe(all: seq<Flight>, g: Flight)
    requires Safe(all) && g.outcome.None?
    ensures Safe(all + [g]) && AllKept(all, all + [g])
  {
    assert AllKept(all, all + [g]);
    SameSuperseded(all, all + [g]);
    hide NotSuperseded;
    forall i | 0 <= i < |all| && all[i].outcome.Some? ensures (all + [g])[i] == all[i] && all[i].settledAt <= |all| {}
  }

  lemma StartKeepsInv(s: State, r: Request)
    requires Inv(s)
    ensures Inv(Start(s, r)) && Grows(s, Start(s, r))
  {
    hide TableOk, TokensOk, LatestOk, Safe, NotSuperseded, AllKept;
    var t := Start(s, r);
    var legacy := if r.Legacy? then s.legacyFlight + 1 else s.legacyFlight;
    if KeyOf(r, legacy) in s.flights {
      SelfKept(s.all);
    } else {
      var g := NewFlight(s, r);
      assert t.all == s.all + [g];
      AppendTable(s.flights, s.all, g);
      AppendTokens(s.latestByResource, s.all, s.nextFencingToken, g);
      AppendLatest(s.latestByResource, s.all, s.nextFencingToken, g);
      AppendSafe(s.all, g);
    }
  }

  lemma SettledKeepsInv(s: State, i: nat, outcome: Outcome)
    requires Inv(s) && i < |s.all| && s.all[i].phase != Done
    requires outcome.FromSource? && s.all[i].outcome.None? ==>
               outcome.fencingToken == s.all[i].fencingToken && NotSuperseded(s.all, i, |s.all|)
    ensures Inv(Settled(s, i, outcome)) && Grows(s, Settled(s, i, outcome))
  {
    hide Inv, NotSuperseded;
    if s.all[i].outcome.None? {
      UpdateKeepsInv(s, i, s.all[i].(outcome := Some(outcome), settledAt := |s.all|));
    }
  }

  lemma AbortKeepsInv(s: State, i: nat, reason: Reason)
    requires Inv(s) && i < |s.all| && s.all[i].phase != Done
    ensures Inv(AbortAsUnknown(s, i, reason)) && Grows(s, AbortAsUnknown(s, i, reason))
  {
    hide Inv, NotSuperseded;
    if s.all[i].outcome.None? {
      var f := if reason == TIMEOUT then s.all[i].(timeoutTriggered := true) else s.all[i].(abortTriggered := true);
      UpdateKeepsInv(s, i, f);
      SettledKeepsInv(s.(all := s.all[i := f]), i, Unknown(reason));
    }
  }

  lemma PhaseKeepsInv(s: State, i: nat, phase: Phase)
    requires Inv(s) && i < |s.all| && s.all[i].phase != Done && phase != Done
    ensures Inv(SetPhase(s, i, phase)) && Grows(s, SetPhase(s, i, phase))
  {
    hide Inv, NotSuperseded;
    UpdateKeepsInv(s, i, s.all[i].(phase := phase));
  }

  lemma HandleKeepsInv(s: State, i: nat, answer: Answer)
    requires Inv(s) && i < |s.all| && s.all[i].phase != Done
    ensures Inv(Handle(s, i, answer)) && Grows(s, Handle(s, i, answer))
  {
    var t := SetPhase(s, i, Handled);
    PhaseKeepsInv(s, i, Handled);
    CurrentIffNotSuperseded(t, i);
    hide Inv, NotSuperseded;
    SettledKeepsInv(t, i, HandledOutcome(s, i, answer));
  }

  lemma FinishTable(flights: map<FlightKey, nat>, all: seq<Flight>, i: nat)
    requires TableOk(flights, all) && i < |all| && all[i].phase == Handled
    ensures TableOk(flights - {all[i].key}, all[i := all[i].(phase := Done)])
    ensures all[i].key in flights && flights[all[i].key] == i
  {
    var t, now := flights - {all[i].key}, all[i := all[i].(phase := Done)];
    forall k | k in t ensures t[k] < |now| && now[t[k]].key == k && now[t[k]].phase != Done {
      assert flights[k] < |all| && flights[k] != i;
    }
    forall j | 0 <= j < |now| && now[j].phase != Done ensures now[j].key in t && t[now[j].key] == j {
      assert j != i && all[j].phase != Done;
    }
  }

  /** Dropping the generation of a resource is sound when all its flights are finished. */
  lemma DropLatest(latest: map<Resource, Latest>, all: seq<Flight>, next: nat, r: Resource)
    requires LatestOk(latest, all, next)
    requires forall i {:trigger all[i]} :: 0 <= i < |all| && all[i].phase != Done ==> all[i].resource != r
    ensures LatestOk(latest - {r}, all, next)
  {
    hide NotSuperseded;
  }

  lemma ForgetKeepsInv(s: State, i: nat)
    requires Inv(s) && i < |s.all| && s.all[i].phase == Handled
    ensures Inv(Forget(s, i)) && Grows(s, Forget(s, i))
  {
    hide TokensOk, LatestOk, Safe, NotSuperseded, AllKept;
    var t := Forget(s, i);
    var g := s.all[i].(phase := Done);
    MovedKeepsAll(s.all, i, g, t.all);
    FinishTable(s.flights, s.all, i);
    assert t.flights == s.flights - {s.all[i].key};
    KeptTokens(s.all, t.all, s.nextFencingToken);
    KeptLatest(s.latestByResource, s.all, t.all, s.nextFencingToken);
    MovedSafe(s.all, i, g, t.all);
    if t.latestByResource != s.latestByResource {
      forall j | 0 <= j < |t.all| && t.all[j].phase != Done ensures t.all[j].resource != g.resource {
        var k := t.all[j].key;
        assert k in t.flights && t.flights[k] == j && s.all[j] == t.all[j];
      }
      DropLatest(s.latestByResource, t.all, s.nextFencingToken, g.resource);
    }
  }

  lemma StepKeepsInv(s: State, e: Event)
    requires Inv(s) && Enabled(s, e)
    ensures Inv(Step(s, e)) && Grows(s, Step(s, e))
  {
    hide Inv, Grows, Start, AbortAsUnknown, SetPhase, Handle, Forget;
    match e
    case Validate(r) => StartKeepsInv(s, r);
    case Abort(id) => AbortKeepsInv(s, id, ABORTED);
    case Timeout(id) => AbortKeepsInv(s, id, TIMEOUT);
    case CallSource(id) =>
      var f := s.all[id];
      PhaseKeepsInv(s, id, if f.timeoutTriggered || f.abortTriggered then Answered(Skipped) else Calling);
    case SourceAnswers(id, answer) => PhaseKeepsInv(s, id, Answered(answer));
    case Settle(id) => HandleKeepsInv(s, id, s.all[id].phase.answer);
    case Cleanup(id) => ForgetKeepsInv(s, id);
  }

  // ---- whole runs -----------------------------------------------------------------------

  ghost predicate Follows(s: State, t: State) {
    exists e :: Enabled(s, e) && t == Step(s, e)
  }

  /** Any interleaving of callers, timers, aborts, source answers and callbacks. */
  ghost predicate IsRun(run: seq<State>) {
    && |run| > 0
    && run[0] == EMPTY
    && (forall k {:trigger run[k]} :: 0 < k < |run| ==> Follows(run[k - 1], run[k]))
  }

  lemma FollowsKeepsInv(s: State, t: State)
    requires Inv(s) && Follows(s, t)
    ensures Inv(t) && Grows(s, t)
  {
    hide Step, Enabled, Grows, Inv;
    var e :| Enabled(s, e) && t == Step(s, e);
    StepKeepsInv(s, e);
  }

  lemma {:induction false} RunInv(run: seq<State>, k: nat)
    requires IsRun(run) && k < |run|
    ensures Inv(run[k])
  {
    hide Follows, Grows;
    if k > 0 {
      RunInv(run, k - 1);
      FollowsKeepsInv(run[k - 1], run[k]);
    }
  }

  lemma GrowsTwice(s: State, t: State, u: State)
    requires Grows(s, t) && Grows(t, u)
    ensures Grows(s, u)
  {
    forall i | 0 <= i < |s.all| ensures Keeps(s.all[i], u.all[i]) {
      assert Keeps(s.all[i], t.all[i]) && Keeps(t.all[i], u.all[i]);
    }
  }

  lemma {:induction false} RunGrows(run: seq<State>, j: nat, k: nat)
    requires IsRun(run) && j <= k < |run|
    ensures Grows(run[j], run[k])
  {
    hide Inv, Follows, AllKept;
    if j < k {
      RunGrows(run, j, k - 1);
      RunInv(run, k - 1);
      FollowsKeepsInv(run[k - 1], run[k]);
      GrowsTwice(run[j], run[k - 1], run[k]);
    } else {
      SelfKept(run[j].all);
    }
  }

  // ---- which flights fence which ------------------------------------------------------------

  /** Both are for one tenant's resource. */
  ghost predicate SameResource(f: Flight, g: Flight) {
    if f.key.ScopeKey? && g.key.ScopeKey?
    then f.key.scope.tenantId == g.key.scope.tenantId && f.key.scope.resourceId == g.key.scope.resourceId
    else f.resource == g.resource
  }

  /** Both have complete scopes, and these name one incarnation and version of one resource. */
  ghost predicate SameVersion(f: Flight, g: Flight) {
    && f.key.ScopeKey? && g.key.ScopeKey?
    && f.key.scope.tenantId == g.key.scope.tenantId && f.key.scope.resourceId == g.key.scope.resourceId
    && f.key.scope.incarnationId == g.key.scope.incarnationId
    && f.key.scope.versionScheme == g.key.scope.versionScheme
    && f.key.scope.versionToken == g.key.scope.versionToken
  }

  /** Every flight that was started after flight i and before the n-th, for its resource, has its
      version, too. */
  ghost predicate NothingNewer(all: seq<Flight>, i: nat, n: nat)
    requires i < |all|
  {
    forall j {:trigger all[j]} :: i < j < n && j < |all| && SameResource(all[i], all[j]) ==> SameVersion(all[i], all[j])
  }

  /** What a flight's key says of its resource and its supersession key. */
  ghost predicate KeyTells(f: Flight) {
    match f.key
    case ScopeKey(scope) =>
      && f.resource == Resource(scope.tenantId, scope.resourceId)
      && f.supersession == Version(f.resource, scope.incarnationId, scope.versionScheme, scope.versionToken)
    case IsolatedKey(n) => f.supersession == IsolatedVersion(n)
  }

  /** Requests without a scope are numbered as they come. */
  ghost predicate KeysOk(all: seq<Flight>, legacy: nat) {
    && (forall i {:trigger all[i]} :: 0 <= i < |all| ==>
          KeyTells(all[i]) && (all[i].key.IsolatedKey? ==> all[i].key.n <= legacy))
    && (forall i, j {:trigger all[i], all[j]} ::
          0 <= i < j < |all| && all[i].key.IsolatedKey? && all[j].key.IsolatedKey? ==> all[i].key.n < all[j].key.n)
  }

  lemma KeptKeys(was: seq<Flight>, now: seq<Flight>, legacy: nat)
    requires KeysOk(was, legacy) && AllKept(was, now) && |now| == |was|
    ensures KeysOk(now, legacy)
  {
    forall i, j | 0 <= i < j < |now| && now[i].key.IsolatedKey? && now[j].key.IsolatedKey?
      ensures now[i].key.n < now[j].key.n
    {
      assert Keeps(was[i], now[i]) && Keeps(was[j], now[j]);
    }
  }

  lemma StartKeepsKeys(s: State, r: Request)
    requires KeysOk(s.all, s.legacyFlight)
    ensures KeysOk(Start(s, r).all, Start(s, r).legacyFlight)
  {}

  lemma StepKeepsKeys(s: State, e: Event)
    requires Inv(s) && Enabled(s, e) && KeysOk(s.all, s.legacyFlight)
    ensures KeysOk(Step(s, e).all, Step(s, e).legacyFlight)
  {
    hide Inv, KeysOk, AllKept, Step, Start;
    StepKeepsInv(s, e);
    StepStartsOne(s, e);
    if e.Validate? { StartKeepsKeys(s, e.request); } else { KeptKeys(s.all, Step(s, e).all, s.legacyFlight); }
  }

  lemma {:induction false} RunKeys(run: seq<State>, k: nat)
    requires IsRun(run) && k < |run|
    ensures KeysOk(run[k].all, run[k].legacyFlight)
  {
    hide Inv, Step, Enabled;
    if k > 0 {
      RunInv(run, k - 1);
      RunKeys(run, k - 1);
      hide KeysOk;
      assert Follows(run[k - 1], run[k]);
      var e :| Enabled(run[k - 1], e) && run[k] == Step(run[k - 1], e);
      StepKeepsKeys(run[k - 1], e);
    }
  }

  /** The keys alone decide which flights fence which. */
  lemma KeysDecide(all: seq<Flight>, legacy: nat, i: nat, j: nat)
    requires KeysOk(all, legacy) && i < j < |all|
    ensures SameResource(all[i], all[j]) <==> all[i].resource == all[j].resource
    ensures SameResource(all[i], all[j]) ==>
              (SameVersion(all[i], all[j]) <==> all[i].supersession == all[j].supersession)
  {
    assert KeyTells(all[i]) && KeyTells(all[j]);
  }

  lemma NothingNewerIff(all: seq<Flight>, legacy: nat, i: nat, n: nat)
    requires KeysOk(all, legacy) && i < |all|
    ensures NothingNewer(all, i, n) <==> NotSuperseded(all, i, n)
  {
    hide KeysOk, SameResource, SameVersion;
    forall j | i < j < |all|
      ensures all[j].resource == all[i].resource <==> SameResource(all[i], all[j])
      ensures SameResource(all[i], all[j]) ==>
                (SameVersion(all[i], all[j]) <==> all[i].supersession == all[j].supersession)
    {
      KeysDecide(all, legacy, i, j);
    }
  }

  /** A source outcome is delivered only while its version is the newest one asked for: the
      flight's token is echoed, and every flight for its resource under another incarnation or
      version, or without a scope, was started after it had settled, with a larger token. */
  lemma NoSupersededResultEscapes(run: seq<State>, k: nat, i: nat, j: nat)
    requires IsRun(run) && k < |run| && i < j < |run[k].all|
    requires run[k].all[i].outcome.Some? && run[k].all[i].outcome.value.FromSource?
    requires SameResource(run[k].all[i], run[k].all[j]) && !SameVersion(run[k].all[i], run[k].all[j])
    ensures run[k].all[i].settledAt <= j
    ensures run[k].all[i].outcome.value.fencingToken == run[k].all[i].fencingToken < run[k].all[j].fencingToken
  {
    RunInv(run, k);
    RunKeys(run, k);
    KeysDecide(run[k].all, run[k].legacyFlight, i, j);
    assert Ordered(run[k].all[i], run[k].all[j]);
  }

  /** Tokens of a resource never go back, and are shared only within one version. */
  lemma TokensNeverGoBack(run: seq<State>, k: nat, i: nat, j: nat)
    requires IsRun(run) && k < |run| && i < j < |run[k].all| && SameResource(run[k].all[i], run[k].all[j])
    ensures run[k].all[i].fencingToken <= run[k].all[j].fencingToken
    ensures !SameVersion(run[k].all[i], run[k].all[j]) ==> run[k].all[i].fencingToken < run[k].all[j].fencingToken
  {
    RunInv(run, k);
    RunKeys(run, k);
    KeysDecide(run[k].all, run[k].legacyFlight, i, j);
    assert Ordered(run[k].all[i], run[k].all[j]);
  }

  /** Of two unfinished flights of one version the later one has the token of the earlier one,
      unless another version was asked for between them. */
  lemma OneVersionOneToken(run: seq<State>, k: nat, i: nat, j: nat)
    requires IsRun(run) && k < |run| && i < j < |run[k].all|
    requires run[k].all[i].phase != Done && SameVersion(run[k].all[i], run[k].all[j])
    requires NothingNewer(run[k].all, i, j)
    ensures run[k].all[i].fencingToken == run[k].all[j].fencingToken
  {
    var l := WhenStarted(run, k, j);
    var s := run[l];
    RunInv(run, l);
    RunKeys(run, l);
    RunGrows(run, l, k);
    assert Keeps(s.all[i], run[k].all[i]) && Keeps(s.all[j], run[k].all[j]);
    forall m | i < m < |s.all| && SameResource(s.all[i], s.all[m]) ensures SameVersion(s.all[i], s.all[m]) {
      assert Keeps(s.all[m], run[k].all[m]);
    }
    NothingNewerIff(s.all, s.legacyFlight, i, |s.all|);
    KeysDecide(s.all, s.legacyFlight, i, j);
    assert NotSuperseded(s.all, j, |s.all|);
  }

  /** The state in which the j-th flight is the newest, and has just been started. */
  lemma {:induction false} WhenStarted(run: seq<State>, k: nat, j: nat) returns (l: nat)
    requires IsRun(run) && k < |run| && j < |run[k].all|
    ensures l <= k && |run[l].all| == j + 1 && run[l].all[j].phase != Done
  {
    hide Inv, Grows, Step, Enabled;
    assert k > 0 && Follows(run[k - 1], run[k]);
    var e :| Enabled(run[k - 1], e) && run[k] == Step(run[k - 1], e);
    if j < |run[k - 1].all| {
      l := WhenStarted(run, k - 1, j);
    } else {
      StepStartsOne(run[k - 1], e);
      l := k;
    }
  }

  /** A step starts at most one flight. */
  lemma StepStartsOne(s: State, e: Event)
    requires Enabled(s, e)
    ensures !e.Validate? ==> |Step(s, e).all| == |s.all| && Step(s, e).legacyFlight == s.legacyFlight
    ensures e.Validate? ==> Step(s, e) == Start(s, e.request)
    ensures |Step(s, e).all| == |s.all| ||
              (|Step(s, e).all| == |s.all| + 1 && Step(s, e).all[|s.all|].phase == Queued)
  {
    hide HandledOutcome, AnotherFlight;
  }

  /** At most one source call is outstanding for a complete scope. */
  lemma OneCallPerScope(run: seq<State>, k: nat, i: nat, j: nat)
    requires IsRun(run) && k < |run| && i < |run[k].all| && j < |run[k].all|
    requires run[k].all[i].phase == Calling && run[k].all[j].phase == Calling && run[k].all[i].key == run[k].all[j].key
    ensures i == j
  {
    RunInv(run, k);
  }

  /** A promise settles once: later steps never change how, or when, it settled. */
  lemma SettlesOnce(run: seq<State>, j: nat, k: nat, i: nat)
    requires IsRun(run) && j <= k < |run| && i < |run[j].all| && run[j].all[i].outcome.Some?
    ensures i < |run[k].all| && run[k].all[i].outcome == run[j].all[i].outcome
    ensures run[k].all[i].settledAt == run[j].all[i].settledAt
  {
    RunGrows(run, j, k);
    assert Keeps(run[j].all[i], run[k].all[i]);
  }

  /** A waiting flight whose source resolves delivers that outcome if and only if the source
      echoed the flight's token and no other version has been asked for since it was started. */
  lemma DeliveredIff(run: seq<State>, k: nat, i: nat)
    requires IsRun(run) && k < |run| && i < |run[k].all|
    requires run[k].all[i].phase.Answered? && run[k].all[i].phase.answer.Resolved? && run[k].all[i].outcome.None?
    ensures var s, t := run[k], Step(run[k], Settle(i));
            t.all[i].outcome.Some?
            && (t.all[i].outcome.value.FromSource? <==>
                  s.all[i].phase.answer.fencingToken == s.all[i].fencingToken && NothingNewer(s.all, i, |s.all|))
  {
    RunInv(run, k);
    RunKeys(run, k);
    CurrentIffNotSuperseded(run[k], i);
    NothingNewerIff(run[k].all, run[k].legacyFlight, i, |run[k].all|);
  }

  // ---- the coordinator ------------------------------------------------------------------

  /** The coordinator's maps and counters. A flight is identified by its position in all;
      every method is what runs between two awaits or callbacks. */
  class FencedSingleFlightCoordinator {
    var flights: map<FlightKey, nat>
    var latestByResource: map<Resource, Latest>
    var nextFencingToken: nat
    var legacyFlight: nat
    var all: seq<Flight>

    ghost function View(): State
      reads this
    {
      State(flights, latestByResource, nextFencingToken, legacyFlight, all)
    }

    ghost predicate Valid()
      reads this
    {
      Inv(View()) && KeysOk(all, legacyFlight)
    }

    constructor ()
      ensures View() == EMPTY && Valid()
    {
      flights, latestByResource, nextFencingToken, legacyFlight, all := map[], map[], 0, 0, [];
    }

    /** The synchronous part of validate: the id of the flight whose promise is returned. */
    method Validate(request: Request) returns (id: nat)
      requires Valid()
      modifies this
      ensures Valid() && View() == Step(old(View()), Event.Validate(request)) && Grows(old(View()), View())
      ensures id == FlightOf(old(View()), request)
      ensures id < |all| && all[..|old(all)|] == old(all) && |all| == (if id < |old(all)| then |old(all)| else id + 1)
      ensures match request
              case Scoped(scope) => all[id].key == ScopeKey(scope)
              case Legacy(resource) => id == |old(all)| && all[id].key.IsolatedKey? && all[id].resource == resource
      ensures forall i {:trigger all[i]} :: 0 <= i < id && SameResource(all[i], all[id]) ==>
                && all[i].fencingToken <= all[id].fencingToken
                && (!SameVersion(all[i], all[id]) ==> all[i].fencingToken < all[id].fencingToken)
      ensures forall i {:trigger all[i]} ::
                0 <= i < id && all[i].phase != Done && SameVersion(all[i], all[id]) && NothingNewer(all, i, |all|) ==>
                  all[i].fencingToken == all[id].fencingToken
    {
      hide Inv, Grows, KeysOk, SameResource, SameVersion, NothingNewer;
      ghost var was := View();
      StartKeepsInv(was, request);
      StartKeepsKeys(was, request);
      StartedTokens(was, request);
      ValidateShares(was, request);
      if request.Legacy? { legacyFlight := legacyFlight + 1; }
      var key := KeyOf(request, legacyFlight);
      if key in flights {
        id := flights[key];
        return;
      }
      var resource, supersession := ResourceOf(request), SupersessionOf(request, legacyFlight);
      var fencingToken;
      if resource in latestByResource && latestByResource[resource].supersession == supersession {
        fencingToken := latestByResource[resource].fencingToken;
        TokenWithinCounter(was, resource);
      } else {
        nextFencingToken := nextFencingToken + 1;
        fencingToken := nextFencingToken;
      }
      id := |all|;
      var flight := Flight(key, resource, supersession, fencingToken, false, false, Queued, None, 0);
      assert flight == NewFlight(was, request);
      flights := flights[key := id];
      latestByResource := latestByResource[resource := Latest(supersession, fencingToken)];
      all := all + [flight];
    }

    method AbortAsUnknown(id: nat, reason: Reason)
      requires Valid() && id < |all| && all[id].phase != Done && reason != FENCED
      modifies this`all
      ensures Valid() && View() == Step(old(View()), if reason == TIMEOUT then Timeout(id) else Abort(id))
      ensures Grows(old(View()), View()) && |all| == |old(all)|
      ensures old(all[id].outcome.None?) ==> all[id].outcome == Some(Unknown(reason))
      ensures old(all[id].outcome.Some?) ==> all == old(all)
    {
      hide Inv, Grows, KeysOk, Handle, Forget, Start, Call;
      AbortKeepsInv(View(), id, reason);
      StepKeepsKeys(View(), if reason == TIMEOUT then Timeout(id) else Abort(id));
      if all[id].outcome.Some? { return; }
      if reason == TIMEOUT {
        all := all[id := all[id].(timeoutTriggered := true)];
      } else {
        all := all[id := all[id].(abortTriggered := true)];
      }
      all := all[id := all[id].(outcome := Some(Unknown(reason)), settledAt := |all|)];
    }

    /** The deferred operation: calls says whether the source is asked. */
    method RunOperation(id: nat) returns (calls: bool)
      requires Valid() && id < |all| && all[id].phase == Queued
      modifies this`all
      ensures Valid() && View() == Step(old(View()), CallSource(id)) && Grows(old(View()), View())
      ensures calls <==> all[id].phase == Calling
      ensures calls <==> !old(all[id].timeoutTriggered) && !old(all[id].abortTriggered)
      ensures calls ==> forall i :: 0 <= i < |all| && all[i].phase == Calling && all[i].key == all[id].key ==> i == id
    {
      hide KeysOk, Handle, Forget, Start;
      StepKeepsInv(View(), CallSource(id));
      StepKeepsKeys(View(), CallSource(id));
      calls := !(all[id].timeoutTriggered || all[id].abortTriggered);
      all := all[id := all[id].(phase := if calls then Calling else Answered(Skipped))];
    }

    method SourceAnswered(id: nat, answer: Answer)
      requires Valid() && id < |all| && all[id].phase == Calling && !answer.Skipped?
      modifies this`all
      ensures Valid() && View() == Step(old(View()), SourceAnswers(id, answer)) && Grows(old(View()), View())
    {
      hide Inv, Grows, KeysOk, Handle, Forget, Start, Call;
      StepKeepsInv(View(), SourceAnswers(id, answer));
      StepKeepsKeys(View(), SourceAnswers(id, answer));
      all := all[id := all[id].(phase := Answered(answer))];
    }

    /** What the operation's handlers settle with: fence a superseded answer, classify an error. */
    method OutcomeOf(id: nat, answer: Answer) returns (outcome: Outcome)
      requires id < |all|
      ensures outcome == HandledOutcome(View(), id, answer)
    {
      var flight := all[id];
      match answer
      case Resolved(token, value) =>
        if flight.resource !in latestByResource
           || latestByResource[flight.resource].supersession != flight.supersession
           || latestByResource[flight.resource].fencingToken != flight.fencingToken
           || token != flight.fencingToken {
          outcome := Unknown(FENCED);
        } else {
          outcome := FromSource(token, value);
        }
      case Skipped =>
        outcome := Unknown(if flight.abortTriggered then ABORTED else TIMEOUT);
      case Threw(error, abortLike) =>
        if flight.timeoutTriggered {
          outcome := Unknown(TIMEOUT);
        } else if flight.abortTriggered || abortLike {
          outcome := Unknown(ABORTED);
        } else {
          outcome := Rejected(error);
        }
    }

    method OperationSettled(id: nat)
      requires Valid() && id < |all| && all[id].phase.Answered?
      modifies this`all
      ensures Valid() && View() == Step(old(View()), Settle(id)) && Grows(old(View()), View())
      ensures old(all[id].outcome.Some?) ==> all[id].outcome == old(all[id].outcome)
      ensures old(all[id].outcome.None?) ==>
                all[id].outcome == Some(
                  match old(all[id].phase.answer)
                  case Resolved(token, value) =>
                    if token == all[id].fencingToken && NothingNewer(all, id, |all|) then FromSource(token, value)
                    else Unknown(FENCED)
                  case Skipped => Unknown(if all[id].abortTriggered then ABORTED else TIMEOUT)
                  case Threw(error, abortLike) =>
                    if all[id].timeoutTriggered then Unknown(TIMEOUT)
                    else if all[id].abortTriggered || abortLike then Unknown(ABORTED)
                    else Rejected(error))
    {
      hide Inv, Grows, NothingNewer, KeysOk;
      ghost var was := View();
      HandleKeepsInv(was, id, all[id].phase.answer);
      StepKeepsKeys(was, Settle(id));
      CurrentIffNothingNewer(was, id);
      SameNewer(was, Step(was, Settle(id)), id);
      var outcome := OutcomeOf(id, all[id].phase.answer);
      all := all[id := all[id].(phase := Handled)];
      if all[id].outcome.None? {
        all := all[id := all[id].(outcome := Some(outcome), settledAt := |all|)];
      }
    }

    method Cleanup(id: nat)
      requires Valid() && id < |all| && all[id].phase == Handled
      modifies this`all, this`flights, this`latestByResource
      ensures Valid() && View() == Step(old(View()), Event.Cleanup(id)) && Grows(old(View()), View())
      ensures all[id].key !in flights
      ensures all[id].resource in latestByResource ==> InUse(all, all[id].resource)
    {
      hide Inv, Grows, InUse, AnotherFlight, KeysOk, Handle, Start, Call;
      ghost var was := View();
      StepKeepsKeys(was, Event.Cleanup(id));
      ForgetKeepsInv(was, id);
      ForgottenUnused(was, id);
      var flight := all[id];
      if flight.key in flights && flights[flight.key] == id { flights := flights - {flight.key}; }
      var another := AnotherFlight(flights, all, flight.resource);
      all := all[id := flight.(phase := Done)];
      if !another { latestByResource := latestByResource - {flight.resource}; }
    }
  }

  ghost predicate InUse(all: seq<Flight>, r: Resource) {
    exists i {:trigger all[i]} :: 0 <= i < |all| && all[i].phase != Done && all[i].resource == r
  }

  /** A resource's generation outlives a flight only while another flight uses it. */
  lemma ForgottenUnused(s: State, i: nat)
    requires Inv(s) && i < |s.all| && s.all[i].phase == Handled
    ensures s.all[i].key !in Forget(s, i).flights
    ensures s.all[i].resource in Forget(s, i).latestByResource ==> InUse(Forget(s, i).all, s.all[i].resource)
  {
    hide TokensOk, LatestOk, Safe;
    var t := Forget(s, i);
    FinishTable(s.flights, s.all, i);
    if s.all[i].resource in t.latestByResource {
      var k :| k in t.flights && s.flights[k] < |s.all| && s.all[s.flights[k]].resource == s.all[i].resource;
      assert t.all[t.flights[k]].phase != Done;
    }
  }

  /** Which flight a request is answered by: the unfinished one of the same complete scope
      if there is one, and otherwise a new one; requests without a scope never share. */
  lemma ValidateShares(s: State, r: Request)
    requires Inv(s)
    ensures var id, t := FlightOf(s, r), Start(s, r);
            && id < |t.all| && t.all[id].phase != Done && t.all[id].key == KeyOf(r, t.legacyFlight)
            && (id < |s.all| <==>
                r.Scoped? && exists i {:trigger s.all[i]} ::
                  0 <= i < |s.all| && s.all[i].phase != Done && s.all[i].key == ScopeKey(r.scope))
  {
    var id := FlightOf(s, r);
    assert id < |s.all| ==> s.all[id] == s.all[id];
  }

  lemma TokenWithinCounter(s: State, r: Resource)
    requires Inv(s) && r in s.latestByResource
    ensures s.latestByResource[r].fencingToken <= s.nextFencingToken
  {}

  lemma CurrentIffNothingNewer(s: State, i: nat)
    requires Inv(s) && KeysOk(s.all, s.legacyFlight) && i < |s.all| && s.all[i].phase != Done
    ensures s.all[i].resource in s.latestByResource
    ensures s.latestByResource[s.all[i].resource] == Latest(s.all[i].supersession, s.all[i].fencingToken)
            <==> NothingNewer(s.all, i, |s.all|)
  {
    CurrentIffNotSuperseded(s, i);
    NothingNewerIff(s.all, s.legacyFlight, i, |s.all|);
  }

  /** Steps of flights leave alone which ones fence which. */
  lemma SameNewer(s: State, t: State, i: nat)
    requires Grows(s, t) && |t.all| == |s.all| && i < |s.all|
    ensures NothingNewer(t.all, i, |t.all|) <==> NothingNewer(s.all, i, |s.all|)
  {
    forall j | 0 <= j < |s.all| ensures t.all[j].key == s.all[j].key && t.all[j].resource == s.all[j].resource {
      assert Keeps(s.all[j], t.all[j]);
    }
  }

  /** The token of a new flight, or of the one that was joined, against those of earlier ones. */
  lemma StartedTokens(s: State, r: Request)
    requires Inv(s) && KeysOk(s.all, s.legacyFlight)
    ensures var id, t := FlightOf(s, r), Start(s, r);
            && id < |t.all|
            && (forall i {:trigger t.all[i]} :: 0 <= i < id && SameResource(t.all[i], t.all[id]) ==>
                  && t.all[i].fencingToken <= t.all[id].fencingToken
                  && (!SameVersion(t.all[i], t.all[id]) ==> t.all[i].fencingToken < t.all[id].fencingToken))
            && (forall i {:trigger t.all[i]} ::
                  0 <= i < id && t.all[i].phase != Done && SameVersion(t.all[i], t.all[id])
                  && NothingNewer(t.all, i, |t.all|) ==>
                    t.all[i].fencingToken == t.all[id].fencingToken)
  {
    StartKeepsInv(s, r);
    StartKeepsKeys(s, r);
    ValidateShares(s, r);
    var id, t := FlightOf(s, r), Start(s, r);
    hide Start, NewFlight, FlightOf, KeysOk, SameResource, SameVersion, NothingNewer, TableOk, Safe;
    forall i | 0 <= i < id && SameResource(t.all[i], t.all[id])
      ensures t.all[i].fencingToken <= t.all[id].fencingToken
      ensures !SameVersion(t.all[i], t.all[id]) ==> t.all[i].fencingToken < t.all[id].fencingToken
    {
      KeysDecide(t.all, t.legacyFlight, i, id);
      assert Ordered(t.all[i], t.all[id]);
    }
    forall i | 0 <= i < id && t.all[i].phase != Done && SameVersion(t.all[i], t.all[id])
                 && NothingNewer(t.all, i, |t.all|)
      ensures t.all[i].fencingToken == t.all[id].fencingToken
    {
      TokenShared(t, i, id);
    }
  }

  lemma TokenShared(s: State, i: nat, j: nat)
    requires Inv(s) && KeysOk(s.all, s.legacyFlight) && i < j < |s.all| && NothingNewer(s.all, i, |s.all|)
    requires s.all[i].phase != Done && s.all[j].phase != Done && SameVersion(s.all[i], s.all[j])
    ensures s.all[i].fencingToken == s.all[j].fencingToken
  {
    KeysDecide(s.all, s.legacyFlight, i, j);
    NothingNewerIff(s.all, s.legacyFlight, i, |s.all|);
    CurrentIffNotSuperseded(s, i);
    CurrentIffNotSuperseded(s, j);
  }
}
