/** The external key resolver: cached material, shared provider calls, and epochs that fence
    material whose call was started before an invalidation. Each await boundary is one step. */
module KeyResolver {
  import opened Wrappers

  /** Tenant, algorithm, key id and version. */
  datatype Key = Key(tenantId: string, algorithm: string, keyId: string, version: string)

  type Bytes = seq<int>

  datatype Received = Received(key: Key, material: Bytes)

  datatype Cached = Cached(material: Bytes, expiresAt: int, flight: nat)

  /** Calling: the provider is asked. Settled: it has answered, its continuation has not run.
      Delivered and Failed: the continuation has run. */
  datatype Phase = Calling | Settled(answer: Option<Bytes>) | Delivered(material: Bytes) | Failed

  /** startedAt and checkedAt count the invalidations that had happened by then. */
  datatype Flight = Flight(key: Key, epoch: nat, globalEpoch: nat, phase: Phase, startedAt: nat, checkedAt: nat)

  datatype Waiter = Waiter(flight: nat, leads: bool, startedAt: nat, finished: bool)

  /** One invalidation: of one key, or of all of them. */
  datatype Cut = One(key: Key) | All

  predicate Hits(c: Cut, k: Key) { c == All || c == One(k) }

  /** No invalidation of the key between two points of the history. */
  ghost predicate Uncut(cuts: seq<Cut>, k: Key, from: nat, to: nat) {
    forall i {:trigger cuts[i]} :: from <= i < to && i < |cuts| ==> !Hits(cuts[i], k)
  }

  // ---- epochs ---------------------------------------------------------------------------

  /** The global epoch after a history. */
  ghost function Clears(cuts: seq<Cut>): nat {
    if cuts == [] then 0 else Clears(cuts[..|cuts| - 1]) + (if cuts[|cuts| - 1] == All then 1 else 0)
  }

  /** The key's epoch after a history: its own invalidations since the last clear. */
  ghost function Cuts(cuts: seq<Cut>, k: Key): nat {
    if cuts == [] then 0
    else
      var last, before := cuts[|cuts| - 1], Cuts(cuts[..|cuts| - 1], k);
      if last == All then 0 else if last == One(k) then before + 1 else before
  }

  /** The pair of epochs never repeats: it is the same at two points exactly when the key was
      not invalidated between them. */
  lemma {:induction false} EpochsNeverRepeat(cuts: seq<Cut>, k: Key, from: nat)
    requires from <= |cuts|
    ensures Clears(cuts[..from]) <= Clears(cuts)
    ensures Clears(cuts[..from]) == Clears(cuts) ==> Cuts(cuts[..from], k) <= Cuts(cuts, k)
    ensures Clears(cuts[..from]) == Clears(cuts) && Cuts(cuts[..from], k) == Cuts(cuts, k) <==>
              Uncut(cuts, k, from, |cuts|)
  {
    if from == |cuts| {
      assert cuts[..from] == cuts;
    } else {
      var before, last := cuts[..|cuts| - 1], cuts[|cuts| - 1];
      EpochsNeverRepeat(before, k, from);
      assert before[..from] == cuts[..from];
      assert forall i :: 0 <= i < |before| ==> before[i] == cuts[i];
      assert Uncut(cuts, k, from, |cuts|) <==> Uncut(before, k, from, |before|) && !Hits(last, k);
    }
  }

  // ---- invariants -----------------------------------------------------------------------

  function EpochOf(epochs: map<Key, nat>, k: Key): nat { if k in epochs then epochs[k] else 0 }

  ghost predicate EpochsOk(epochs: map<Key, nat>, globalEpoch: nat, cuts: seq<Cut>) {
    globalEpoch == Clears(cuts) && forall k :: EpochOf(epochs, k) == Cuts(cuts, k)
  }

  /** A flight remembers the epochs of its start; what it delivered was current when checked. */
  ghost predicate FlightOk(f: Flight, cuts: seq<Cut>) {
    && f.startedAt <= |cuts|
    && f.globalEpoch == Clears(cuts[..f.startedAt]) && f.epoch == Cuts(cuts[..f.startedAt], f.key)
    && (f.phase.Delivered? ==> f.startedAt <= f.checkedAt <= |cuts| && Uncut(cuts, f.key, f.startedAt, f.checkedAt))
  }

  ghost predicate FlightsOk(flights: seq<Flight>, cuts: seq<Cut>) {
    forall i {:trigger flights[i]} :: 0 <= i < |flights| ==> FlightOk(flights[i], cuts)
  }

  /** Whatever is cached was delivered by a call that no invalidation has followed. */
  ghost predicate CacheOk(cache: map<Key, Cached>, flights: seq<Flight>, cuts: seq<Cut>) {
    forall k :: k in cache ==>
      && cache[k].flight < |flights| && flights[cache[k].flight].key == k
      && flights[cache[k].flight].phase == Delivered(cache[k].material)
      && Uncut(cuts, k, flights[cache[k].flight].startedAt, |cuts|)
  }

  /** A call that may be joined is for the key and has not been invalidated. */
  ghost predicate InFlightOk(inFlight: map<Key, nat>, flights: seq<Flight>, cuts: seq<Cut>) {
    forall k :: k in inFlight ==>
      inFlight[k] < |flights| && flights[inFlight[k]].key == k && Uncut(cuts, k, flights[inFlight[k]].startedAt, |cuts|)
  }

  /** A waiter waits for a call that had not been invalidated when the waiter started. */
  ghost predicate WaitersOk(waiters: seq<Waiter>, flights: seq<Flight>, cuts: seq<Cut>) {
    forall i {:trigger waiters[i]} :: 0 <= i < |waiters| ==>
      var w := waiters[i];
      && w.flight < |flights| && w.startedAt <= |cuts|
      && Uncut(cuts, flights[w.flight].key, flights[w.flight].startedAt, w.startedAt)
  }

  lemma CutsAppend(cuts: seq<Cut>, c: Cut, n: nat)
    requires n <= |cuts|
    ensures (cuts + [c])[..n] == cuts[..n]
    ensures forall k: Key, from: nat, to: nat ::
              to <= |cuts| && Uncut(cuts, k, from, to) ==> Uncut(cuts + [c], k, from, to)
  {
    assert forall i :: 0 <= i < |cuts| ==> (cuts + [c])[i] == cuts[i];
  }

  /** An invalidation keeps what is recorded of flights and waiters. */
  lemma CutKeeps(flights: seq<Flight>, waiters: seq<Waiter>, cuts: seq<Cut>, c: Cut)
    requires FlightsOk(flights, cuts) && WaitersOk(waiters, flights, cuts)
    ensures FlightsOk(flights, cuts + [c]) && WaitersOk(waiters, flights, cuts + [c])
  {
    forall i | 0 <= i < |flights| ensures FlightOk(flights[i], cuts + [c]) {
      CutsAppend(cuts, c, flights[i].startedAt);
    }
    CutsAppend(cuts, c, 0);
  }

  lemma CutDrops(cache: map<Key, Cached>, inFlight: map<Key, nat>, flights: seq<Flight>, cuts: seq<Cut>, c: Cut)
    requires CacheOk(cache, flights, cuts) && InFlightOk(inFlight, flights, cuts)
    requires forall k :: k in cache || k in inFlight ==> !Hits(c, k)
    ensures CacheOk(cache, flights, cuts + [c]) && InFlightOk(inFlight, flights, cuts + [c])
  {
    assert forall i :: 0 <= i < |cuts| ==> (cuts + [c])[i] == cuts[i];
  }

  lemma EpochsStep(epochs: map<Key, nat>, globalEpoch: nat, cuts: seq<Cut>, k: Key)
    requires EpochsOk(epochs, globalEpoch, cuts)
    ensures EpochsOk(epochs[k := EpochOf(epochs, k) + 1], globalEpoch, cuts + [One(k)])
    ensures EpochsOk(map[], globalEpoch + 1, cuts + [All])
  {
    var one, all := cuts + [One(k)], cuts + [All];
    assert one[..|cuts|] == cuts && all[..|cuts|] == cuts;
    forall j
      ensures EpochOf(epochs[k := EpochOf(epochs, k) + 1], j) == Cuts(one, j) && EpochOf(map[], j) == Cuts(all, j)
    {
      assert EpochOf(epochs, j) == Cuts(cuts, j);
    }
  }

  /** Flight i moves on; its key, epochs and start stay. */
  lemma FlightMoves(cache: map<Key, Cached>, inFlight: map<Key, nat>, waiters: seq<Waiter>, flights: seq<Flight>,
                    cuts: seq<Cut>, i: nat, f: Flight)
    requires FlightsOk(flights, cuts) && CacheOk(cache, flights, cuts) && InFlightOk(inFlight, flights, cuts)
    requires WaitersOk(waiters, flights, cuts)
    requires i < |flights| && FlightOk(f, cuts) && f.key == flights[i].key && f.startedAt == flights[i].startedAt
    requires !flights[i].phase.Delivered?
    ensures var now := flights[i := f];
            FlightsOk(now, cuts) && CacheOk(cache, now, cuts) && InFlightOk(inFlight, now, cuts) &&
              WaitersOk(waiters, now, cuts)
  {
    var now := flights[i := f];
    assert forall j :: 0 <= j < |flights| ==> now[j].key == flights[j].key && now[j].startedAt == flights[j].startedAt;
  }

  lemma FlightStarts(cache: map<Key, Cached>, inFlight: map<Key, nat>, waiters: seq<Waiter>, flights: seq<Flight>,
                     cuts: seq<Cut>, f: Flight)
    requires FlightsOk(flights, cuts) && CacheOk(cache, flights, cuts) && InFlightOk(inFlight, flights, cuts)
    requires WaitersOk(waiters, flights, cuts)
    requires FlightOk(f, cuts) && f.startedAt == |cuts|
    ensures var now, w := flights + [f], Waiter(|flights|, true, |cuts|, false);
            && FlightsOk(now, cuts) && CacheOk(cache, now, cuts)
            && InFlightOk(inFlight[f.key := |flights|], now, cuts) && WaitersOk(waiters + [w], now, cuts)
  {
    var now := flights + [f];
    assert forall j :: 0 <= j < |flights| ==> now[j] == flights[j];
    assert now[|flights|] == f;
  }

  // ---- the resolver ---------------------------------------------------------------------

  /** What the synchronous part of resolve comes to. */
  datatype Resolution = Hit(material: Bytes) | Waits(waiter: nat)

  class ExternalKeyResolver {
    const cacheTtlMs: nat
    var cache: map<Key, Cached>
    var inFlight: map<Key, nat>
    var epochs: map<Key, nat>
    var globalEpoch: nat
    var flights: seq<Flight>
    var waiters: seq<Waiter>
    var cuts: seq<Cut>

    ghost predicate Valid()
      reads this
    {
      && EpochsOk(epochs, globalEpoch, cuts)
      && FlightsOk(flights, cuts)
      && CacheOk(cache, flights, cuts)
      && InFlightOk(inFlight, flights, cuts)
      && WaitersOk(waiters, flights, cuts)
    }

    constructor (cacheTtlMs: nat)
      ensures Valid() && cuts == [] && flights == [] && waiters == [] && cache == map[] && this.cacheTtlMs == cacheTtlMs
      ensures inFlight == map[]
    {
      this.cacheTtlMs := cacheTtlMs;
      cache, inFlight, epochs, globalEpoch, flights, waiters, cuts := map[], map[], map[], 0, [], [], [];
    }

    /** Serves unexpired cached material, joins the call in flight, or asks the provider. What
        is served or waited for comes from a call that no invalidation of the key has followed. */
    method Resolve(k: Key, now: int) returns (r: Resolution)
      requires Valid()
      modifies this`cache, this`inFlight, this`flights, this`waiters
      ensures Valid()
      ensures r.Hit? <==> k in old(cache) && old(cache)[k].expiresAt > now
      ensures r.Hit? ==>
                && flights == old(flights) && waiters == old(waiters) && inFlight == old(inFlight)
                && cache == old(cache)
                && old(cache)[k].flight < |flights| && flights[old(cache)[k].flight].phase == Delivered(r.material)
                && Uncut(cuts, k, flights[old(cache)[k].flight].startedAt, |cuts|)
      ensures r.Waits? ==>
                && k !in cache && r.waiter == |old(waiters)| && |waiters| == r.waiter + 1
                && waiters[..r.waiter] == old(waiters)
                && waiters[r.waiter].startedAt == |cuts| && !waiters[r.waiter].finished
                && waiters[r.waiter].flight < |flights| && flights[waiters[r.waiter].flight].key == k
                && Uncut(cuts, k, flights[waiters[r.waiter].flight].startedAt, |cuts|)
                && (if k in old(inFlight) then flights == old(flights) && waiters[r.waiter].flight == old(inFlight)[k]
                    else waiters[r.waiter].flight == |old(flights)| && |flights| == |old(flights)| + 1
                         && flights[..|old(flights)|] == old(flights) && flights[|old(flights)|].phase == Calling)
    {
      hide EpochsOk, FlightsOk, CacheOk, InFlightOk, WaitersOk, Uncut;
      if k in cache {
        if cache[k].expiresAt > now {
          CachedFacts(cache, flights, cuts, k);
          return Hit(cache[k].material);
        }
        CacheLess(cache, flights, cuts, k);
        cache := cache - {k};
      }
      var id := |waiters|;
      if k in inFlight {
        JoinFacts(inFlight, waiters, flights, cuts, k);
        waiters := waiters + [Waiter(inFlight[k], false, |cuts|, false)];
        return Waits(id);
      }
      var f := Flight(k, EpochOf(epochs, k), globalEpoch, Calling, |cuts|, 0);
      StartFacts(epochs, globalEpoch, cuts, f);
      FlightStarts(cache, inFlight, waiters, flights, cuts, f);
      waiters := waiters + [Waiter(|flights|, true, |cuts|, false)];
      inFlight := inFlight[k := |flights|];
      flights := flights + [f];
      r := Waits(id);
    }

    /** The provider answers; material for another key, or not of 32 bytes, is an error. */
    method ProviderSettled(i: nat, answer: Option<Received>)
      requires Valid() && i < |flights| && flights[i].phase == Calling
      modifies this`flights
      ensures Valid()
      ensures var ok := answer.Some? && answer.value.key == old(flights)[i].key && |answer.value.material| == 32;
              flights ==
                old(flights)[i := old(flights)[i].(phase := Settled(if ok then Some(answer.value.material) else None))]
    {
      hide EpochsOk, FlightsOk, CacheOk, InFlightOk, WaitersOk, Uncut;
      var f := flights[i];
      var ok := answer.Some? && answer.value.key == f.key && |answer.value.material| == 32;
      FlightFacts(flights, cuts, i);
      var g := f.(phase := Settled(if ok then Some(answer.value.material) else None));
      FlightMoves(cache, inFlight, waiters, flights, cuts, i, g);
      flights := flights[i := g];
    }

    /** The continuation of the provider call: it delivers, and caches, only when both epochs
        are those of its start, which is to say when no invalidation of the key came between.
        A clock that throws or is not finite makes it fail. */
    method Check(i: nat, clock: Option<int>)
      requires Valid() && i < |flights| && flights[i].phase.Settled?
      modifies this`flights, this`cache
      ensures Valid() && |flights| == |old(flights)|
      ensures forall j :: 0 <= j < |flights| && j != i ==> flights[j] == old(flights)[j]
      ensures flights[i].key == old(flights)[i].key && flights[i].startedAt == old(flights)[i].startedAt
      ensures flights[i].phase.Delivered? <==>
                && old(flights)[i].phase.answer.Some? && Uncut(cuts, flights[i].key, flights[i].startedAt, |cuts|)
                && (cacheTtlMs == 0 || clock.Some?)
      ensures flights[i].phase.Delivered? ==>
                flights[i].phase.material == old(flights)[i].phase.answer.value && flights[i].checkedAt == |cuts|
      ensures !flights[i].phase.Delivered? ==> flights[i].phase == Failed && cache == old(cache)
      ensures flights[i].phase.Delivered? && cacheTtlMs > 0 ==>
                cache == old(cache)[flights[i].key := Cached(flights[i].phase.material, clock.value + cacheTtlMs, i)]
      ensures cacheTtlMs == 0 ==> cache == old(cache)
    {
      hide EpochsOk, FlightsOk, CacheOk, InFlightOk, WaitersOk, Uncut;
      var f := flights[i];
      FlightFacts(flights, cuts, i);
      CurrentIff(epochs, globalEpoch, cuts, f);
      var stillCurrent := globalEpoch == f.globalEpoch && EpochOf(epochs, f.key) == f.epoch;
      if f.phase.answer == None || !stillCurrent || (cacheTtlMs > 0 && clock == None) {
        FlightMoves(cache, inFlight, waiters, flights, cuts, i, f.(phase := Failed));
        flights := flights[i := f.(phase := Failed)];
        return;
      }
      var material := f.phase.answer.value;
      var g := f.(phase := Delivered(material), checkedAt := |cuts|);
      FlightMoves(cache, inFlight, waiters, flights, cuts, i, g);
      flights := flights[i := g];
      if cacheTtlMs > 0 {
        CacheMore(cache, flights, cuts, i, clock.value + cacheTtlMs);
        cache := cache[f.key := Cached(material, clock.value + cacheTtlMs, i)];
      }
    }

    /** A waiting resolve returns. What it returns was current when it was checked, and had not
        been invalidated when this resolve began; it is still current now exactly when no
        invalidation came between the check and this return. */
    method Continue(w: nat) returns (r: Option<Bytes>)
      requires Valid() && w < |waiters| && !waiters[w].finished
      requires flights[waiters[w].flight].phase.Delivered? || flights[waiters[w].flight].phase.Failed?
      modifies this`waiters, this`inFlight
      ensures Valid() && waiters == old(waiters)[w := old(waiters)[w].(finished := true)]
      ensures var f := flights[waiters[w].flight];
              && (r.Some? <==> f.phase.Delivered?) && (r.Some? ==> f.phase == Delivered(r.value))
              && Uncut(cuts, f.key, f.startedAt, waiters[w].startedAt)
              && (r.Some? ==> Uncut(cuts, f.key, f.startedAt, f.checkedAt))
              && (r.Some? ==> (Uncut(cuts, f.key, f.startedAt, |cuts|) <==> Uncut(cuts, f.key, f.checkedAt, |cuts|)))
      ensures waiters[w].leads ==>
                !(flights[waiters[w].flight].key in inFlight &&
                  inFlight[flights[waiters[w].flight].key] == waiters[w].flight)
    {
      hide EpochsOk, CacheOk, InFlightOk;
      var waiter := waiters[w];
      var f := flights[waiter.flight];
      FlightFacts(flights, cuts, waiter.flight);
      waiters := waiters[w := waiter.(finished := true)];
      if waiter.leads && f.key in inFlight && inFlight[f.key] == waiter.flight {
        LandsOk(inFlight, flights, cuts, f.key);
        inFlight := inFlight - {f.key};
      }
      r := if f.phase.Delivered? then Some(f.phase.material) else None;
    }

    method Invalidate(k: Key)
      requires Valid()
      modifies this`cache, this`epochs, this`inFlight, this`cuts
      ensures Valid() && cuts == old(cuts) + [One(k)] && cache == old(cache) - {k} && inFlight == old(inFlight) - {k}
    {
      hide EpochsOk, FlightsOk, CacheOk, InFlightOk, WaitersOk, Uncut;
      EpochsStep(epochs, globalEpoch, cuts, k);
      CutKeeps(flights, waiters, cuts, One(k));
      CacheLess(cache, flights, cuts, k);
      LandsOk(inFlight, flights, cuts, k);
      CutDrops(cache - {k}, inFlight - {k}, flights, cuts, One(k));
      cache := cache - {k};
      epochs := epochs[k := EpochOf(epochs, k) + 1];
      inFlight := inFlight - {k};
      cuts := cuts + [One(k)];
    }

    method Clear()
      requires Valid()
      modifies this`cache, this`epochs, this`globalEpoch, this`inFlight, this`cuts
      ensures Valid() && cuts == old(cuts) + [All] && cache == map[] && inFlight == map[]
    {
      hide EpochsOk, FlightsOk, WaitersOk, Uncut;
      EpochsStep(epochs, globalEpoch, cuts, Key("", "", "", ""));
      CutKeeps(flights, waiters, cuts, All);
      cache, inFlight, epochs, globalEpoch := map[], map[], map[], globalEpoch + 1;
      cuts := cuts + [All];
    }
  }

  lemma CachedFacts(cache: map<Key, Cached>, flights: seq<Flight>, cuts: seq<Cut>, k: Key)
    requires CacheOk(cache, flights, cuts) && k in cache
    ensures cache[k].flight < |flights| && flights[cache[k].flight].phase == Delivered(cache[k].material)
    ensures Uncut(cuts, k, flights[cache[k].flight].startedAt, |cuts|)
  {}

  lemma CacheLess(cache: map<Key, Cached>, flights: seq<Flight>, cuts: seq<Cut>, k: Key)
    requires CacheOk(cache, flights, cuts)
    ensures CacheOk(cache - {k}, flights, cuts)
  {}

  lemma CacheMore(cache: map<Key, Cached>, flights: seq<Flight>, cuts: seq<Cut>, i: nat, expiresAt: int)
    requires CacheOk(cache, flights, cuts) && i < |flights| && flights[i].phase.Delivered?
    requires Uncut(cuts, flights[i].key, flights[i].startedAt, |cuts|)
    ensures CacheOk(cache[flights[i].key := Cached(flights[i].phase.material, expiresAt, i)], flights, cuts)
  {}

  lemma LandsOk(inFlight: map<Key, nat>, flights: seq<Flight>, cuts: seq<Cut>, k: Key)
    requires InFlightOk(inFlight, flights, cuts)
    ensures InFlightOk(inFlight - {k}, flights, cuts)
  {}

  lemma JoinFacts(inFlight: map<Key, nat>, waiters: seq<Waiter>, flights: seq<Flight>, cuts: seq<Cut>, k: Key)
    requires InFlightOk(inFlight, flights, cuts) && WaitersOk(waiters, flights, cuts) && k in inFlight
    ensures inFlight[k] < |flights| && flights[inFlight[k]].key == k
    ensures Uncut(cuts, k, flights[inFlight[k]].startedAt, |cuts|)
    ensures WaitersOk(waiters + [Waiter(inFlight[k], false, |cuts|, false)], flights, cuts)
  {}

  lemma FlightFacts(flights: seq<Flight>, cuts: seq<Cut>, i: nat)
    requires FlightsOk(flights, cuts) && i < |flights|
    ensures FlightOk(flights[i], cuts)
  {}

  lemma StartFacts(epochs: map<Key, nat>, globalEpoch: nat, cuts: seq<Cut>, f: Flight)
    requires EpochsOk(epochs, globalEpoch, cuts)
    requires f == Flight(f.key, EpochOf(epochs, f.key), globalEpoch, Calling, |cuts|, 0)
    ensures FlightOk(f, cuts) && Uncut(cuts, f.key, |cuts|, |cuts|)
  {
    assert cuts[..|cuts|] == cuts;
  }

  lemma CurrentIff(epochs: map<Key, nat>, globalEpoch: nat, cuts: seq<Cut>, f: Flight)
    requires EpochsOk(epochs, globalEpoch, cuts) && FlightOk(f, cuts)
    ensures globalEpoch == f.globalEpoch && EpochOf(epochs, f.key) == f.epoch <==>
              Uncut(cuts, f.key, f.startedAt, |cuts|)
  {
    EpochsNeverRepeat(cuts, f.key, f.startedAt);
  }

  /** An invalidation between the check and the return of a resolve does not stop it: the
      resolve completes after the invalidation with the material from before. */
  method ReturnAfterInvalidationWitness(k: Key, material: Bytes)
    returns (r: Option<Bytes>, resolver: ExternalKeyResolver)
    requires |material| == 32
    ensures fresh(resolver) && resolver.Valid() && k !in resolver.cache
    ensures |resolver.waiters| == 1 && resolver.waiters[0].finished && resolver.waiters[0].flight == 0
    ensures |resolver.flights| == 1 && resolver.flights[0].key == k && resolver.flights[0].phase == Delivered(material)
    ensures r == Some(material) && !Uncut(resolver.cuts, k, resolver.flights[0].startedAt, |resolver.cuts|)
  {
    resolver := new ExternalKeyResolver(1000);
    var started := resolver.Resolve(k, 0);
    resolver.ProviderSettled(0, Some(Received(k, material)));
    resolver.Check(0, Some(1));
    resolver.Invalidate(k);
    r := resolver.Continue(0);
    assert resolver.cuts[0] == One(k);
  }
}
