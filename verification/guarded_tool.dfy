/** Guarded tools that share one bounded idempotency store: a side effect runs at most once for
    each tenant and idempotency key, and only with a version from a ready proof. */
module GuardedTools {
  import opened Wrappers

  datatype Resource = Resource(tenantId: string, resource: string)

  datatype Version = Version(scheme: string, token: string)

  datatype State = FRESH | STALE | INVALID | UNKNOWN | MISSING

  datatype Outcome = APPLIED | VERSION_MISMATCH | REJECTED | UNKNOWN_OUTCOME

  datatype ActionResult = ActionResult(accepted: bool, outcome: Outcome, value: string, reason: string)

  /** Tenant and idempotency key. */
  datatype ActionKey = ActionKey(tenantId: string, idempotencyKey: string)

  /** The resource, the proven version and the canonical text of the action. */
  datatype Fingerprint = Fingerprint(resource: string, version: Version, action: string)

  datatype EntryState = Pending | Completed(result: ActionResult)

  datatype Entry = Entry(fingerprint: Fingerprint, state: EntryState)

  datatype Checked = Checked(resource: Resource, state: State, version: Option<Version>)

  datatype Proof = Proof(resource: Resource, version: Version)

  /** One object handed to a caller by one tool. */
  datatype Handle = Handle(tool: nat, id: nat)

  datatype Phase = Scheduled | Running | Responded(response: ActionResult) | Done(result: ActionResult)

  /** An action that claimed its key; runs counts the calls of the side effect. */
  datatype Action = Action(tool: nat, proof: nat, key: ActionKey, fingerprint: Fingerprint, phase: Phase, runs: nat)

  predicate Space(c: char) { c == ' ' || c == '\t' || c == '\n' || c == '\r' }

  predicate NonEmpty(s: string) { exists i :: 0 <= i < |s| && !Space(s[i]) }

  predicate ValidVersion(v: Version) { NonEmpty(v.scheme) && NonEmpty(v.token) }

  predicate ValidResource(r: Resource) { NonEmpty(r.tenantId) && NonEmpty(r.resource) }

  // ---- invariants -----------------------------------------------------------------------

  /** Each remembered key belongs to exactly one action, which has its fingerprint and result. */
  ghost predicate OwnersOk(entries: map<ActionKey, Entry>, owner: map<ActionKey, nat>, actions: seq<Action>) {
    && owner.Keys == entries.Keys
    && (forall k ::
          k in owner ==>
            owner[k] < |actions| && actions[owner[k]].key == k && entries[k] == EntryOf(actions[owner[k]]))
    && (forall i {:trigger actions[i]} :: 0 <= i < |actions| ==> actions[i].key in owner && owner[actions[i].key] == i)
  }

  function EntryOf(a: Action): Entry {
    Entry(a.fingerprint, if a.phase.Done? then Completed(a.phase.result) else Pending)
  }

  /** A side effect is called once, and only with what its tool's ready proof says. */
  ghost predicate ActionsOk(actions: seq<Action>, ready: map<Handle, Proof>) {
    forall i {:trigger actions[i]} :: 0 <= i < |actions| ==>
      var a := actions[i];
      && a.runs == (if a.phase == Scheduled then 0 else 1)
      && Handle(a.tool, a.proof) in ready
      && ready[Handle(a.tool, a.proof)].resource == Resource(a.key.tenantId, a.fingerprint.resource)
      && ready[Handle(a.tool, a.proof)].version == a.fingerprint.version
      && ValidVersion(a.fingerprint.version)
  }

  ghost predicate InFlightOk(inFlight: map<(nat, ActionKey), nat>, actions: seq<Action>) {
    forall t: nat, k: ActionKey :: (t, k) in inFlight ==>
      inFlight[(t, k)] < |actions| && actions[inFlight[(t, k)]].key == k
  }

  ghost predicate ReadyOk(ready: map<Handle, Proof>, checks: map<Handle, Checked>, issued: nat) {
    && (forall h :: h in ready ==> h.id < issued && ValidVersion(ready[h].version) && ValidResource(ready[h].resource))
    && (forall h :: h in checks ==> h.id < issued && ValidResource(checks[h].resource))
  }

  lemma Starts(entries: map<ActionKey, Entry>, owner: map<ActionKey, nat>, actions: seq<Action>,
               ready: map<Handle, Proof>, inFlight: map<(nat, ActionKey), nat>, a: Action)
    requires OwnersOk(entries, owner, actions) && ActionsOk(actions, ready) && InFlightOk(inFlight, actions)
    requires a.key !in entries && a.phase == Scheduled && a.runs == 0 && ActionsOk([a], ready)
    ensures OwnersOk(entries[a.key := Entry(a.fingerprint, Pending)], owner[a.key := |actions|], actions + [a])
    ensures ActionsOk(actions + [a], ready) && InFlightOk(inFlight[(a.tool, a.key) := |actions|], actions + [a])
  {
    var now := actions + [a];
    assert [a][0] == a;
    assert now[|actions|] == a && forall i :: 0 <= i < |actions| ==> now[i] == actions[i];
  }

  /** Action i moves on; it stays the same action. */
  lemma Moves(entries: map<ActionKey, Entry>, owner: map<ActionKey, nat>, actions: seq<Action>,
              ready: map<Handle, Proof>, inFlight: map<(nat, ActionKey), nat>, i: nat, a: Action)
    requires OwnersOk(entries, owner, actions) && ActionsOk(actions, ready) && InFlightOk(inFlight, actions)
    requires i < |actions| && a.tool == actions[i].tool && a.proof == actions[i].proof && a.key == actions[i].key
    requires a.fingerprint == actions[i].fingerprint
    requires a.runs == (if a.phase == Scheduled then 0 else 1)
    ensures OwnersOk(entries[a.key := EntryOf(a)], owner, actions[i := a])
    ensures ActionsOk(actions[i := a], ready) && InFlightOk(inFlight, actions[i := a])
    ensures a.key in entries && entries[a.key] == EntryOf(actions[i])
  {
    var now := actions[i := a];
    assert owner[a.key] == i;
    assert forall j :: 0 <= j < |actions| && j != i ==> now[j] == actions[j];
  }

  lemma ProofAdded(actions: seq<Action>, ready: map<Handle, Proof>, h: Handle, p: Proof)
    requires ActionsOk(actions, ready) && h !in ready
    ensures ActionsOk(actions, ready[h := p])
  {}

  // ---- the tools ------------------------------------------------------------------------

  datatype Acted = Immediate(result: ActionResult) | Joined(action: nat) | Started(action: nat)

  function Reject(reason: string): (r: ActionResult)
    ensures !r.accepted && r.outcome == REJECTED && r.reason == reason
  {
    ActionResult(false, REJECTED, "", reason)
  }

  /** All tools that share one store; a tool's own maps are the entries under its number. */
  class GuardedToolSet {
    const maxEntries: nat
    var entries: map<ActionKey, Entry>
    var checks: map<Handle, Checked>
    var ready: map<Handle, Proof>
    var inFlight: map<(nat, ActionKey), nat>
    var actions: seq<Action>
    var issued: nat
    ghost var owner: map<ActionKey, nat>

    ghost predicate Valid()
      reads this
    {
      && |entries| <= maxEntries
      && OwnersOk(entries, owner, actions)
      && ActionsOk(actions, ready)
      && InFlightOk(inFlight, actions)
      && ReadyOk(ready, checks, issued)
    }

    /** No remembered key is forgotten, and no completed result changes. */
    twostate predicate Remembers()
      reads this
    {
      && (forall k :: k in old(entries) ==>
            k in entries && entries[k].fingerprint == old(entries)[k].fingerprint
            && (old(entries)[k].state.Completed? ==> entries[k] == old(entries)[k]))
      && |old(actions)| <= |actions|
      && (forall i {:trigger actions[i]} :: 0 <= i < |old(actions)| ==>
            actions[i].key == old(actions)[i].key && actions[i].fingerprint == old(actions)[i].fingerprint &&
              actions[i].runs >= old(actions)[i].runs)
    }

    constructor (maxEntries: nat)
      requires maxEntries >= 1
      ensures Valid() && this.maxEntries == maxEntries && entries == map[] && actions == []
    {
      this.maxEntries := maxEntries;
      entries, checks, ready, inFlight, actions, issued, owner := map[], map[], map[], map[], [], 0, map[];
    }

    /** The check callback has answered; a proof is issued only for a consistent answer. */
    method Check(tool: nat, resource: Resource, answer: Option<Checked>) returns (h: Option<Handle>)
      requires Valid() && ValidResource(resource)
      modifies this`checks, this`issued
      ensures Valid() && Remembers()
      ensures h.Some? <==> answer.Some? && answer.value.resource == resource
                           && (answer.value.state == FRESH || answer.value.state == STALE ==>
                                 answer.value.version.Some?)
                           && (answer.value.version.Some? ==> ValidVersion(answer.value.version.value))
      ensures h.Some? ==>
                h.value.tool == tool && h.value !in old(checks) && checks == old(checks)[h.value := answer.value]
      ensures h == None ==> checks == old(checks)
    {
      hide OwnersOk, ActionsOk, InFlightOk;
      if answer == None || answer.value.resource != resource { return None; }
      if (answer.value.state == FRESH || answer.value.state == STALE) && answer.value.version == None { return None; }
      if answer.value.version != None && !ValidVersion(answer.value.version.value) { return None; }
      h := Some(Handle(tool, issued));
      checks := checks[h.value := answer.value];
      issued := issued + 1;
    }

    /** The revalidation callback has answered: FRESH with the observed version is what makes a
        proof, and only for an issued check of a fresh or stale resource. */
    method Revalidate(check: Handle, presented: Resource, answered: Option<Resource>, answeredFresh: bool,
                      observed: Option<Version>)
      returns (h: Option<Handle>)
      requires Valid()
      modifies this`ready, this`issued
      ensures Valid() && Remembers()
      ensures h.Some? <==>
                && check in checks && checks[check].resource == presented
                && (checks[check].state == FRESH || checks[check].state == STALE)
                && checks[check].version.Some? && ValidVersion(checks[check].version.value)
                && answered == Some(presented) && answeredFresh && observed.Some? && ValidVersion(observed.value)
      ensures h.Some? ==>
                && h.value.tool == check.tool && h.value !in old(ready)
                && ready == old(ready)[h.value := Proof(presented, observed.value)]
      ensures h == None ==> ready == old(ready)
    {
      hide OwnersOk, ActionsOk, InFlightOk;
      if check !in checks || checks[check].resource != presented { return None; }
      var stored := checks[check];
      if stored.state == MISSING || stored.state == UNKNOWN || stored.state == INVALID { return None; }
      if stored.version == None || !ValidVersion(stored.version.value) { return None; }
      if answered != Some(presented) { return None; }
      if observed != None && !ValidVersion(observed.value) { return None; }
      if !answeredFresh || observed == None { return None; }
      h := Some(Handle(check.tool, issued));
      ProofAdded(actions, ready, h.value, Proof(presented, observed.value));
      ready := ready[h.value := Proof(presented, observed.value)];
      issued := issued + 1;
    }

    /** The synchronous part of act. Nothing is scheduled unless the key is new, the store has
        room, and the caller presents a ready proof of this tool for the resource. */
    method Act(proof: Handle, presented: Resource, versionPresented: bool, action: Option<string>,
               idempotencyKey: string)
      returns (r: Acted)
      requires Valid()
      modifies this`entries, this`actions, this`inFlight, this`owner
      ensures Valid() && Remembers()
      ensures var known := proof in ready && ready[proof].resource == presented && versionPresented;
              var key := ActionKey(presented.tenantId, idempotencyKey);
              if !known then r == Immediate(Reject("INVALID_REVALIDATION"))
              else if !NonEmpty(idempotencyKey) then r == Immediate(Reject("IDEMPOTENCY_KEY_REQUIRED"))
              else if action == None then r == Immediate(Reject("INVALID_ACTION"))
              else
                var fingerprint := Fingerprint(presented.resource, ready[proof].version, action.value);
                if (proof.tool, key) in old(inFlight) then
                  var i := old(inFlight)[(proof.tool, key)];
                  r == if old(actions)[i].fingerprint == fingerprint then Joined(i)
                    else Immediate(Reject("IDEMPOTENCY_CONFLICT"))
                else if key in old(entries) && old(entries)[key].fingerprint != fingerprint then
                  r == Immediate(Reject("IDEMPOTENCY_CONFLICT"))
                else if key in old(entries) && old(entries)[key].state == Pending then
                  r == Immediate(ActionResult(false, UNKNOWN_OUTCOME, "", "IDEMPOTENCY_IN_PROGRESS"))
                else if key in old(entries) then r == Immediate(old(entries)[key].state.result)
                else if |old(entries)| >= maxEntries then r == Immediate(Reject("IDEMPOTENCY_RETENTION_FULL"))
                else
                  && r == Started(|old(actions)|)
                  && actions == old(actions) + [Action(proof.tool, proof.id, key, fingerprint, Scheduled, 0)]
      ensures !r.Started? ==> actions == old(actions) && entries == old(entries)
    {
      hide OwnersOk, ActionsOk, InFlightOk;
      if proof !in ready || ready[proof].resource != presented || !versionPresented {
        return Immediate(Reject("INVALID_REVALIDATION"));
      }
      if !NonEmpty(idempotencyKey) { return Immediate(Reject("IDEMPOTENCY_KEY_REQUIRED")); }
      if action == None { return Immediate(Reject("INVALID_ACTION")); }
      var stored := ready[proof];
      var fingerprint := Fingerprint(presented.resource, stored.version, action.value);
      var key := ActionKey(presented.tenantId, idempotencyKey);
      if (proof.tool, key) in inFlight {
        JoinedAction(inFlight, actions, proof.tool, key);
        var i := inFlight[(proof.tool, key)];
        return if actions[i].fingerprint == fingerprint then Joined(i) else Immediate(Reject("IDEMPOTENCY_CONFLICT"));
      }
      if key in entries {
        if entries[key].fingerprint != fingerprint { return Immediate(Reject("IDEMPOTENCY_CONFLICT")); }
        match entries[key].state {
          case Pending => return Immediate(ActionResult(false, UNKNOWN_OUTCOME, "", "IDEMPOTENCY_IN_PROGRESS"));
          case Completed(result) => return Immediate(result);
        }
      }
      if |entries| >= maxEntries { return Immediate(Reject("IDEMPOTENCY_RETENTION_FULL")); }
      var a := Action(proof.tool, proof.id, key, fingerprint, Scheduled, 0);
      NewActionOk(a, ready);
      Starts(entries, owner, actions, ready, inFlight, a);
      r := Started(|actions|);
      entries := entries[key := Entry(fingerprint, Pending)];
      owner := owner[key := |actions|];
      inFlight := inFlight[(proof.tool, key) := |actions|];
      actions := actions + [a];
    }

    /** The scheduled microtask calls the side effect. */
    method PerformAction(i: nat)
      requires Valid() && i < |actions| && actions[i].phase == Scheduled
      modifies this`actions
      ensures Valid() && Remembers() && actions[i].runs == 1
      ensures actions == old(actions)[i := old(actions)[i].(phase := Running, runs := 1)]
    {
      hide OwnersOk, ActionsOk, InFlightOk;
      NotYetRun(actions, ready, i);
      var a := actions[i].(phase := Running, runs := actions[i].runs + 1);
      Moves(entries, owner, actions, ready, inFlight, i, a);
      assert entries[a.key := EntryOf(a)] == entries;
      actions := actions[i := a];
    }

    /** The side effect has answered, thrown or timed out. */
    method ActionResponded(i: nat, response: ActionResult)
      requires Valid() && i < |actions| && actions[i].phase == Running
      modifies this`actions
      ensures Valid() && Remembers()
      ensures actions == old(actions)[i := old(actions)[i].(phase := Responded(response))]
    {
      hide OwnersOk, ActionsOk, InFlightOk;
      RunOnce(actions, ready, i);
      var a := actions[i].(phase := Responded(response));
      Moves(entries, owner, actions, ready, inFlight, i, a);
      assert entries[a.key := EntryOf(a)] == entries;
      actions := actions[i := a];
    }

    /** The result is stored; the claim is pending under the same fingerprint, so that this
        never fails. */
    method CompleteAction(i: nat)
      requires Valid() && i < |actions| && actions[i].phase.Responded?
      modifies this`actions, this`entries
      ensures Valid() && Remembers()
      ensures actions == old(actions)[i := old(actions)[i].(phase := Done(old(actions)[i].phase.response))]
      ensures entries ==
                old(entries)[actions[i].key := Entry(actions[i].fingerprint, Completed(old(actions)[i].phase.response))]
    {
      hide OwnersOk, ActionsOk, InFlightOk;
      RunOnce(actions, ready, i);
      var result := actions[i].phase.response;
      var a := actions[i].(phase := Done(result));
      Moves(entries, owner, actions, ready, inFlight, i, a);
      var pending := a.key in entries && entries[a.key].fingerprint == a.fingerprint && entries[a.key].state == Pending;
      assert pending;
      assert |entries[a.key := EntryOf(a)]| == |entries| by {
        assert entries[a.key := EntryOf(a)].Keys == entries.Keys;
        SameSize(entries, entries[a.key := EntryOf(a)]);
      }
      entries := entries[a.key := Entry(a.fingerprint, Completed(result))];
      actions := actions[i := a];
    }

    /** The action leaves its tool's in-flight map. */
    method Land(i: nat)
      requires Valid() && i < |actions| && actions[i].phase.Done?
      modifies this`inFlight
      ensures Valid() && Remembers() && actions == old(actions) && entries == old(entries)
      ensures (actions[i].tool, actions[i].key) !in inFlight || inFlight[(actions[i].tool, actions[i].key)] != i
    {
      hide OwnersOk, ActionsOk;
      var slot := (actions[i].tool, actions[i].key);
      if slot in inFlight && inFlight[slot] == i { inFlight := inFlight - {slot}; }
    }
  }

  lemma SameSize(a: map<ActionKey, Entry>, b: map<ActionKey, Entry>)
    requires a.Keys == b.Keys
    ensures |a| == |b|
  {
    assert |a.Keys| == |a| && |b.Keys| == |b|;
  }

  lemma JoinedAction(inFlight: map<(nat, ActionKey), nat>, actions: seq<Action>, tool: nat, key: ActionKey)
    requires InFlightOk(inFlight, actions) && (tool, key) in inFlight
    ensures inFlight[(tool, key)] < |actions|
  {}

  lemma NewActionOk(a: Action, ready: map<Handle, Proof>)
    requires a.phase == Scheduled && a.runs == 0 && Handle(a.tool, a.proof) in ready
    requires ready[Handle(a.tool, a.proof)] ==
               Proof(Resource(a.key.tenantId, a.fingerprint.resource), a.fingerprint.version)
    requires ValidVersion(a.fingerprint.version)
    ensures ActionsOk([a], ready)
  {}

  lemma NotYetRun(actions: seq<Action>, ready: map<Handle, Proof>, i: nat)
    requires ActionsOk(actions, ready) && i < |actions| && actions[i].phase == Scheduled
    ensures actions[i].runs == 0
  {}

  lemma RunOnce(actions: seq<Action>, ready: map<Handle, Proof>, i: nat)
    requires ActionsOk(actions, ready) && i < |actions| && actions[i].phase != Scheduled
    ensures actions[i].runs == 1
  {}

  // ---- at most once ---------------------------------------------------------------------

  /** How often the side effect was called for a key, over all tools and all actions. */
  function Runs(actions: seq<Action>, key: ActionKey): nat {
    if actions == [] then 0
    else
      var last := actions[|actions| - 1];
      Runs(actions[..|actions| - 1], key) + (if last.key == key then last.runs else 0)
  }

  lemma {:induction false} RunsElsewhere(actions: seq<Action>, key: ActionKey)
    requires forall i {:trigger actions[i]} :: 0 <= i < |actions| ==> actions[i].key != key
    ensures Runs(actions, key) == 0
  {
    if actions != [] { RunsElsewhere(actions[..|actions| - 1], key); }
  }

  lemma {:induction false} RunsAtMostOnce(actions: seq<Action>, key: ActionKey)
    requires forall i, j {:trigger actions[i], actions[j]} ::
               0 <= i < j < |actions| ==> actions[i].key != actions[j].key
    requires forall i {:trigger actions[i]} :: 0 <= i < |actions| ==> actions[i].runs <= 1
    ensures Runs(actions, key) <= 1
  {
    if actions != [] {
      var n := |actions| - 1;
      if actions[n].key == key { RunsElsewhere(actions[..n], key); } else { RunsAtMostOnce(actions[..n], key); }
    }
  }

  /** In every reachable state the side effect was called at most once for each tenant and
      idempotency key, whatever tools and calls were interleaved. */
  lemma AtMostOnce(entries: map<ActionKey, Entry>, owner: map<ActionKey, nat>, actions: seq<Action>,
                   ready: map<Handle, Proof>, key: ActionKey)
    requires OwnersOk(entries, owner, actions) && ActionsOk(actions, ready)
    ensures Runs(actions, key) <= 1
    ensures Runs(actions, key) == 1 ==> key in entries
  {
    forall i, j | 0 <= i < j < |actions| ensures actions[i].key != actions[j].key {
      assert owner[actions[i].key] == i && owner[actions[j].key] == j;
    }
    RunsAtMostOnce(actions, key);
    if key !in entries { RunsElsewhere(actions, key); }
  }

  /** A call with another fingerprint under a remembered key never gets to run. */
  lemma OtherFingerprintNeverRuns(entries: map<ActionKey, Entry>, owner: map<ActionKey, nat>, actions: seq<Action>,
                                  key: ActionKey, fingerprint: Fingerprint)
    requires OwnersOk(entries, owner, actions) && key in entries && entries[key].fingerprint != fingerprint
    ensures forall i {:trigger actions[i]} ::
              0 <= i < |actions| && actions[i].key == key ==> actions[i].fingerprint != fingerprint
  {}
}
