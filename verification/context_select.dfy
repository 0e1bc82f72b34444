/** Greedy selection of context units under a token budget and limits. */
module ContextSelect {
  import opened ContextOrder
  import opened ContextTurns
  import opened Wrappers

  datatype Reason =
    | EMPTY | INVALID_FRESHNESS | STALE | EXPIRED | UNKNOWN_FRESHNESS | PARENT_MISSING | HIERARCHY_CYCLE
    | DUPLICATE | PARENT_NOT_SELECTED | MAX_SOURCES | BUDGET | MAX_CHUNKS

  datatype Trace = Pending | Selected(order: nat) | Skipped(reason: Reason, duplicateOf: Option<nat>)

  /** usable is the budget without the reserved tokens; a limit of None is no limit. */
  datatype Limits = Limits(usable: nat, maxChunks: Option<nat>, maxSources: Option<nat>)

  /** Units are known by their place. */
  ghost predicate InPlaces(units: seq<Unit>) {
    forall i {:trigger units[i]} :: 0 <= i < |units| ==> units[i].ordinal == i
  }

  // ---- duplicates -----------------------------------------------------------------------

  /** Of two units with one key a is kept: it has the higher score, or else is less deep, or else is a
      summary where b is none, or else comes earlier. */
  ghost predicate KeptOver(a: Unit, b: Unit) {
    || a.score > b.score
    || (a.score == b.score && a.depth < b.depth)
    || (a.score == b.score && a.depth == b.depth && a.kind == SUMMARY && b.kind == DETAIL)
    || (a.score == b.score && a.depth == b.depth && a.kind == b.kind && a.ordinal < b.ordinal)
  }

  predicate Better(left: Unit, right: Unit): (better: bool)
    ensures better <==> KeptOver(left, right)
  {
    if left.score != right.score then left.score > right.score
    else if left.depth != right.depth then left.depth < right.depth
    else if left.kind != right.kind then left.kind == SUMMARY
    else left.ordinal < right.ordinal
  }

  lemma BetterTransitive(a: Unit, b: Unit, c: Unit)
    requires Better(a, b) && Better(b, c)
    ensures Better(a, c)
  {}

  lemma BetterTotal(a: Unit, b: Unit)
    requires a.ordinal != b.ordinal
    ensures Better(a, b) || Better(b, a)
  {}

  /** The first n units have been looked at: blocked ones are skipped for their reason, and of
      the others the best of each dedupe key is pending and the rest are its duplicates. */
  ghost predicate Deduplicated(units: seq<Unit>, blocked: seq<Option<Reason>>, trace: seq<Trace>,
                               winners: map<string, nat>, n: nat) {
    && |trace| == |units| == |blocked| && n <= |units|
    && (forall k :: k in winners ==> winners[k] < n && units[winners[k]].dedupeKey == k && blocked[winners[k]] == None)
    && (forall j {:trigger trace[j]} :: n <= j < |units| ==> trace[j] == Pending)
    && (forall j {:trigger trace[j]} :: 0 <= j < n ==> Settled(units, blocked, trace, winners, j))
  }

  ghost predicate Settled(units: seq<Unit>, blocked: seq<Option<Reason>>, trace: seq<Trace>, winners: map<string, nat>,
                          j: nat)
    requires j < |trace| == |units| == |blocked|
  {
    if blocked[j].Some? then trace[j] == Skipped(blocked[j].value, None)
    else
      && units[j].dedupeKey in winners && winners[units[j].dedupeKey] < |units|
      && (if winners[units[j].dedupeKey] == j then trace[j] == Pending
          else trace[j].Skipped? && trace[j].reason == DUPLICATE && trace[j].duplicateOf.Some?
               && trace[j].duplicateOf.value < |units|
               && units[trace[j].duplicateOf.value].dedupeKey == units[j].dedupeKey
               && Better(units[winners[units[j].dedupeKey]], units[j]))
  }

  lemma SettleBlocked(units: seq<Unit>, blocked: seq<Option<Reason>>, trace: seq<Trace>, winners: map<string, nat>,
                      n: nat)
    requires Deduplicated(units, blocked, trace, winners, n) && n < |units| && blocked[n].Some?
    ensures Deduplicated(units, blocked, trace[n := Skipped(blocked[n].value, None)], winners, n + 1)
  {
    var now := trace[n := Skipped(blocked[n].value, None)];
    forall j | 0 <= j < n + 1 ensures Settled(units, blocked, now, winners, j) {
      if j < n { SettledStays(units, blocked, trace, winners, n, j, now); }
    }
  }

  lemma SettledAt(units: seq<Unit>, blocked: seq<Option<Reason>>, trace: seq<Trace>, winners: map<string, nat>,
                  n: nat, j: nat)
    requires Deduplicated(units, blocked, trace, winners, n) && j < n
    ensures Settled(units, blocked, trace, winners, j)
  {
    hide Settled;
    var t := trace[j];
  }

  lemma SettledStays(units: seq<Unit>, blocked: seq<Option<Reason>>, trace: seq<Trace>, winners: map<string, nat>,
                     n: nat, j: nat, now: seq<Trace>)
    requires Deduplicated(units, blocked, trace, winners, n) && j < n && |now| == |trace| && now[j] == trace[j]
    ensures Settled(units, blocked, now, winners, j)
  {
    SettledAt(units, blocked, trace, winners, n, j);
    hide Deduplicated;
  }

  lemma SettleFirst(units: seq<Unit>, blocked: seq<Option<Reason>>, trace: seq<Trace>, winners: map<string, nat>,
                    n: nat)
    requires Deduplicated(units, blocked, trace, winners, n) && n < |units| && blocked[n] == None
    requires units[n].dedupeKey !in winners
    ensures Deduplicated(units, blocked, trace, winners[units[n].dedupeKey := n], n + 1)
  {
    var more := winners[units[n].dedupeKey := n];
    forall j | 0 <= j < n + 1 ensures Settled(units, blocked, trace, more, j) {
      if j < n { SettledAt(units, blocked, trace, winners, n, j); }
    }
  }

  lemma SettleBetter(units: seq<Unit>, blocked: seq<Option<Reason>>, trace: seq<Trace>, winners: map<string, nat>,
                     n: nat)
    requires Deduplicated(units, blocked, trace, winners, n) && n < |units| && blocked[n] == None
    requires units[n].dedupeKey in winners && Better(units[n], units[winners[units[n].dedupeKey]])
    ensures var k := units[n].dedupeKey;
            Deduplicated(units, blocked, trace[winners[k] := Skipped(DUPLICATE, Some(n))], winners[k := n], n + 1)
  {
    var k := units[n].dedupeKey;
    var p := winners[k];
    var now, more := trace[p := Skipped(DUPLICATE, Some(n))], winners[k := n];
    forall j | 0 <= j < n + 1 ensures Settled(units, blocked, now, more, j) {
      if j < n {
        SettledAt(units, blocked, trace, winners, n, j);
        if blocked[j] == None && units[j].dedupeKey == k && j != p { BetterTransitive(units[n], units[p], units[j]); }
      }
    }
  }

  lemma SettleWorse(units: seq<Unit>, blocked: seq<Option<Reason>>, trace: seq<Trace>, winners: map<string, nat>,
                    n: nat)
    requires InPlaces(units) && Deduplicated(units, blocked, trace, winners, n) && n < |units| && blocked[n] == None
    requires units[n].dedupeKey in winners && !Better(units[n], units[winners[units[n].dedupeKey]])
    ensures Deduplicated(units, blocked, trace[n := Skipped(DUPLICATE, Some(winners[units[n].dedupeKey]))], winners,
                         n + 1)
  {
    var p := winners[units[n].dedupeKey];
    assert units[n].ordinal == n && units[p].ordinal == p;
    BetterTotal(units[n], units[p]);
    var now := trace[n := Skipped(DUPLICATE, Some(p))];
    forall j | 0 <= j < n + 1 ensures Settled(units, blocked, now, winners, j) {
      if j < n { SettledStays(units, blocked, trace, winners, n, j, now); }
    }
  }

  method Deduplicate(units: seq<Unit>, blocked: seq<Option<Reason>>)
    returns (trace: seq<Trace>, winners: map<string, nat>)
    requires InPlaces(units) && |blocked| == |units|
    ensures Deduplicated(units, blocked, trace, winners, |units|)
  {
    hide Deduplicated, Settled;
    trace := seq(|units|, _ => Pending);
    winners := map[];
    NothingSettled(units, blocked, trace);
    for n := 0 to |units|
      invariant |trace| == |units| && Deduplicated(units, blocked, trace, winners, n)
    {
      WinnersKnown(units, blocked, trace, winners, n);
      var unit := units[n];
      if blocked[n] != None {
        SettleBlocked(units, blocked, trace, winners, n);
        trace := trace[n := Skipped(blocked[n].value, None)];
        continue;
      }
      if unit.dedupeKey !in winners {
        SettleFirst(units, blocked, trace, winners, n);
        winners := winners[unit.dedupeKey := n];
      } else {
        var previous := winners[unit.dedupeKey];
        if Better(unit, units[previous]) {
          SettleBetter(units, blocked, trace, winners, n);
          trace := trace[previous := Skipped(DUPLICATE, Some(n))];
          winners := winners[unit.dedupeKey := n];
        } else {
          SettleWorse(units, blocked, trace, winners, n);
          trace := trace[n := Skipped(DUPLICATE, Some(previous))];
        }
      }
    }
  }

  lemma NothingSettled(units: seq<Unit>, blocked: seq<Option<Reason>>, trace: seq<Trace>)
    requires |trace| == |units| == |blocked| && forall j :: 0 <= j < |trace| ==> trace[j] == Pending
    ensures Deduplicated(units, blocked, trace, map[], 0)
  {}

  lemma WinnersKnown(units: seq<Unit>, blocked: seq<Option<Reason>>, trace: seq<Trace>, winners: map<string, nat>,
                     n: nat)
    requires Deduplicated(units, blocked, trace, winners, n)
    ensures forall k :: k in winners ==> winners[k] < |units|
  {}

  /** Two pending units never share a dedupe key. */
  lemma PendingDistinct(units: seq<Unit>, blocked: seq<Option<Reason>>, trace: seq<Trace>, winners: map<string, nat>,
                        i: nat, j: nat)
    requires Deduplicated(units, blocked, trace, winners, |units|) && i < |units| && j < |units|
    requires trace[i] == Pending && trace[j] == Pending && units[i].dedupeKey == units[j].dedupeKey
    ensures i == j
  {
    SettledAt(units, blocked, trace, winners, |units|, i);
    SettledAt(units, blocked, trace, winners, |units|, j);
  }

  /** The units still pending, in their places' order. */
  function Eligible(units: seq<Unit>, trace: seq<Trace>): seq<Unit>
    requires |trace| == |units|
  {
    if units == [] then []
    else
      Eligible(units[..|units| - 1], trace[..|units| - 1])
      + (if trace[|units| - 1] == Pending then [units[|units| - 1]] else [])
  }

  ghost predicate IsEligible(units: seq<Unit>, trace: seq<Trace>, u: Unit)
    requires |trace| == |units|
  {
    u.ordinal < |units| && units[u.ordinal] == u && trace[u.ordinal] == Pending
  }

  lemma CountPush(rest: seq<Unit>, last: Unit, u: Unit)
    ensures multiset(rest + [last])[u] == multiset(rest)[u] + (if u == last then 1 else 0)
  {}

  lemma EligibleStep(units: seq<Unit>, trace: seq<Trace>, u: Unit)
    requires |trace| == |units| && InPlaces(units) && units != []
    ensures var n := |units| - 1;
            IsEligible(units, trace, u) <==>
              IsEligible(units[..n], trace[..n], u) || (trace[n] == Pending && u == units[n])
    ensures IsEligible(units[..|units| - 1], trace[..|units| - 1], u) ==> u != units[|units| - 1]
  {
    var n := |units| - 1;
    assert units[n].ordinal == n;
  }

  lemma {:induction false} EligibleIs(units: seq<Unit>, trace: seq<Trace>, u: Unit)
    requires |trace| == |units| && InPlaces(units)
    ensures multiset(Eligible(units, trace))[u] == if IsEligible(units, trace, u) then 1 else 0
  {
    if units != [] {
      var n := |units| - 1;
      assert InPlaces(units[..n]) by { assert forall j :: 0 <= j < n ==> units[..n][j] == units[j]; }
      EligibleIs(units[..n], trace[..n], u);
      EligibleStep(units, trace, u);
      hide IsEligible, InPlaces;
      if trace[n] == Pending { CountPush(Eligible(units[..n], trace[..n]), units[n], u); }
    }
  }

  lemma {:induction false} EligibleApart(units: seq<Unit>, trace: seq<Trace>)
    requires |trace| == |units| && InPlaces(units)
    ensures Apart(Eligible(units, trace))
    ensures forall u :: u in Eligible(units, trace) ==> u.ordinal < |units|
  {
    if units != [] {
      var n := |units| - 1;
      assert InPlaces(units[..n]) by { assert forall j :: 0 <= j < n ==> units[..n][j] == units[j]; }
      EligibleApart(units[..n], trace[..n]);
      var before := Eligible(units[..n], trace[..n]);
      assert forall i :: 0 <= i < |before| ==> before[i] in before;
      assert units[n].ordinal == n;
    }
  }

  /** What the order of the eligible units is made of. */
  ghost predicate Competes(units: seq<Unit>, trace: seq<Trace>, ordered: seq<Unit>) {
    && |trace| == |units|
    && (forall t {:trigger ordered[t]} :: 0 <= t < |ordered| ==>
          ordered[t].ordinal < |units| && units[ordered[t].ordinal] == ordered[t] &&
            trace[ordered[t].ordinal] == Pending)
    && (forall s, t {:trigger ordered[s], ordered[t]} ::
          0 <= s < t < |ordered| ==> ordered[s].ordinal != ordered[t].ordinal)
    && (forall j {:trigger trace[j]} :: 0 <= j < |units| && trace[j] == Pending ==> units[j] in ordered)
  }

  lemma OrderedCompetes(units: seq<Unit>, trace: seq<Trace>, ordered: seq<Unit>)
    requires |trace| == |units| && InPlaces(units) && multiset(ordered) == multiset(Eligible(units, trace))
    ensures Competes(units, trace, ordered)
  {
    forall u ensures multiset(ordered)[u] == if IsEligible(units, trace, u) then 1 else 0 {
      EligibleIs(units, trace, u);
    }
    CountedOnce(units, trace, ordered);
  }

  lemma CountedOnce(units: seq<Unit>, trace: seq<Trace>, ordered: seq<Unit>)
    requires |trace| == |units| && InPlaces(units)
    requires forall u :: multiset(ordered)[u] == if IsEligible(units, trace, u) then 1 else 0
    ensures Competes(units, trace, ordered)
  {
    forall t | 0 <= t < |ordered| ensures IsEligible(units, trace, ordered[t]) {
      assert ordered[t] in multiset(ordered);
    }
    forall s, t | 0 <= s < t < |ordered| ensures ordered[s].ordinal != ordered[t].ordinal {
      if ordered[s].ordinal == ordered[t].ordinal {
        assert IsEligible(units, trace, ordered[s]) && IsEligible(units, trace, ordered[t]);
        assert ordered[s] == ordered[t];
        TwiceCounts(ordered, s, t);
        assert false;
      }
    }
    forall j | 0 <= j < |units| && trace[j] == Pending ensures units[j] in ordered {
      assert units[j].ordinal == j;
      assert IsEligible(units, trace, units[j]);
      assert units[j] in multiset(ordered);
    }
  }

  lemma TwiceCounts(s: seq<Unit>, i: nat, j: nat)
    requires i < j < |s| && s[i] == s[j]
    ensures multiset(s)[s[i]] >= 2
  {
    assert s == s[..j] + [s[j]] + s[j + 1..];
    assert s[i] in multiset(s[..j]);
  }

  // ---- packing --------------------------------------------------------------------------

  function Tokens(units: seq<Unit>): nat {
    if units == [] then 0 else Tokens(units[..|units| - 1]) + units[|units| - 1].tokens
  }

  function Sources(units: seq<Unit>): set<string> { set i | 0 <= i < |units| :: units[i].sourceId }

  lemma PushTotals(units: seq<Unit>, u: Unit)
    ensures Tokens(units + [u]) == Tokens(units) + u.tokens
    ensures Sources(units + [u]) == Sources(units) + {u.sourceId}
  {
    var more := units + [u];
    assert more[..|units|] == units;
    forall s | s in Sources(units) ensures s in Sources(more) {
      var i :| 0 <= i < |units| && units[i].sourceId == s;
      assert more[i] == units[i];
    }
    assert more[|units|] == u;
    forall s | s in Sources(more) ensures s in Sources(units) + {u.sourceId} {
      var i :| 0 <= i < |more| && more[i].sourceId == s;
      assert i < |units| ==> more[i] == units[i];
    }
  }

  /** Within budget and limits, each child after a unit of its parent source. */
  ghost predicate Fits(selected: seq<Unit>, limits: Limits) {
    && Tokens(selected) <= limits.usable
    && (limits.maxChunks.Some? ==> |selected| <= limits.maxChunks.value)
    && (limits.maxSources.Some? ==> |Sources(selected)| <= limits.maxSources.value)
    && ParentsFirst(selected)
  }

  ghost predicate ParentsFirst(selected: seq<Unit>) {
    forall i {:trigger selected[i]} :: 0 <= i < |selected| ==> ParentBefore(selected[..i], selected[i])
  }

  ghost predicate ParentBefore(before: seq<Unit>, u: Unit) { u.parentId.Some? ==> u.parentId.value in Sources(before) }

  lemma ParentsFirstMore(selected: seq<Unit>, u: Unit)
    requires ParentsFirst(selected) && ParentBefore(selected, u)
    ensures ParentsFirst(selected + [u])
  {
    hide ParentBefore;
    var more := selected + [u];
    forall i | 0 <= i < |more| ensures ParentBefore(more[..i], more[i]) {
      assert more[..i] == selected[..i];
      if i < |selected| { assert more[i] == selected[i]; } else { assert selected[..i] == selected; }
    }
  }

  /** Why a competing unit was left out: a unit left out for the budget would still not fit. */
  ghost predicate LeftOut(u: Unit, reason: Reason, selected: seq<Unit>, limits: Limits) {
    match reason
    case BUDGET => u.tokens > limits.usable - Tokens(selected)
    case MAX_SOURCES => limits.maxSources.Some? && |Sources(selected)| >= limits.maxSources.value &&
      u.sourceId !in Sources(selected)
    case MAX_CHUNKS => limits.maxChunks.Some? && |selected| >= limits.maxChunks.value
    case PARENT_NOT_SELECTED => u.parentId.Some?
    case _ => false
  }

  /** The trace agrees with what was selected. */
  ghost predicate Agrees(units: seq<Unit>, base: seq<Trace>, trace: seq<Trace>, selected: seq<Unit>, limits: Limits) {
    && |trace| == |base| == |units|
    && (forall j {:trigger trace[j]} :: 0 <= j < |trace| && base[j] != Pending ==> trace[j] == base[j])
    && (forall j {:trigger trace[j]} :: 0 <= j < |trace| && trace[j].Selected? ==>
          base[j] == Pending && trace[j].order < |selected| && selected[trace[j].order] == units[j])
    && (forall i {:trigger selected[i]} :: 0 <= i < |selected| ==>
          selected[i].ordinal < |units| && units[selected[i].ordinal] == selected[i] &&
            trace[selected[i].ordinal] == Selected(i))
    && (forall j {:trigger trace[j]} :: 0 <= j < |trace| && base[j] == Pending && trace[j].Skipped? ==>
          trace[j].duplicateOf == None && LeftOut(units[j], trace[j].reason, selected, limits))
  }

  /** The first n competing units have been decided and the others have not. */
  ghost predicate DecidedTo(ordered: seq<Unit>, trace: seq<Trace>, n: nat) {
    && n <= |ordered|
    && (forall t {:trigger ordered[t]} :: 0 <= t < |ordered| ==> ordered[t].ordinal < |trace|)
    && (forall t {:trigger ordered[t]} :: 0 <= t < n ==> trace[ordered[t].ordinal] != Pending)
    && (forall t {:trigger ordered[t]} :: n <= t < |ordered| ==> trace[ordered[t].ordinal] == Pending)
  }

  /** The verdict on a unit, given what was selected before it: the first check that fails. */
  function Verdict(u: Unit, before: seq<Unit>, limits: Limits): Trace {
    if limits.maxChunks.Some? && |before| >= limits.maxChunks.value then Skipped(MAX_CHUNKS, None)
    else if u.parentId.Some? && u.parentId.value !in Sources(before) then Skipped(PARENT_NOT_SELECTED, None)
    else if u.sourceId !in Sources(before) && limits.maxSources.Some? &&
      |Sources(before)| >= limits.maxSources.value then Skipped(MAX_SOURCES, None)
    else if u.tokens > limits.usable - Tokens(before) then Skipped(BUDGET, None)
    else Selected(|before|)
  }

  /** The selected ones among the first n competing units. */
  ghost function SelectedBefore(ordered: seq<Unit>, trace: seq<Trace>, n: nat): seq<Unit>
    requires n <= |ordered|
  {
    if n == 0 then []
    else
      var u := ordered[n - 1];
      SelectedBefore(ordered, trace, n - 1) + (if u.ordinal < |trace| && trace[u.ordinal].Selected? then [u] else [])
  }

  /** Each of the first n competing units has the verdict that follows from those before it. */
  ghost predicate Judged(ordered: seq<Unit>, trace: seq<Trace>, limits: Limits, n: nat) {
    n <= |ordered| && forall t {:trigger ordered[t]} :: 0 <= t < n ==> JudgedAt(ordered, trace, limits, t)
  }

  ghost predicate JudgedAt(ordered: seq<Unit>, trace: seq<Trace>, limits: Limits, t: nat)
    requires t < |ordered|
  {
    ordered[t].ordinal < |trace| &&
      trace[ordered[t].ordinal] == Verdict(ordered[t], SelectedBefore(ordered, trace, t), limits)
  }

  lemma {:induction false} SelectedBeforeSame(ordered: seq<Unit>, trace: seq<Trace>, i: nat, v: Trace, n: nat)
    requires n <= |ordered| && i < |trace| && forall t {:trigger ordered[t]} :: 0 <= t < n ==> ordered[t].ordinal != i
    ensures SelectedBefore(ordered, trace[i := v], n) == SelectedBefore(ordered, trace, n)
  {
    if n > 0 { SelectedBeforeSame(ordered, trace, i, v, n - 1); }
  }

  lemma JudgeOne(ordered: seq<Unit>, trace: seq<Trace>, limits: Limits, n: nat, v: Trace)
    requires Judged(ordered, trace, limits, n) && n < |ordered| && ordered[n].ordinal < |trace|
    requires forall t {:trigger ordered[t]} :: 0 <= t < n ==> ordered[t].ordinal != ordered[n].ordinal
    requires v == Verdict(ordered[n], SelectedBefore(ordered, trace, n), limits)
    ensures var now := trace[ordered[n].ordinal := v];
            && Judged(ordered, now, limits, n + 1)
            && SelectedBefore(ordered, now, n + 1) ==
                 SelectedBefore(ordered, trace, n) + (if v.Selected? then [ordered[n]] else [])
  {
    hide Verdict, JudgedAt;
    var i := ordered[n].ordinal;
    var now := trace[i := v];
    SelectedBeforeSame(ordered, trace, i, v, n);
    forall t: nat | t < n ensures JudgedAt(ordered, now, limits, t) {
      assert ordered[t].ordinal != i;
      assert JudgedAt(ordered, trace, limits, t);
      JudgedStays(ordered, trace, limits, i, v, t);
    }
    JudgedNow(ordered, trace, limits, n, v);
  }

  lemma JudgedNow(ordered: seq<Unit>, trace: seq<Trace>, limits: Limits, n: nat, v: Trace)
    requires n < |ordered| && ordered[n].ordinal < |trace|
    requires v == Verdict(ordered[n], SelectedBefore(ordered, trace, n), limits)
    requires SelectedBefore(ordered, trace[ordered[n].ordinal := v], n) == SelectedBefore(ordered, trace, n)
    ensures JudgedAt(ordered, trace[ordered[n].ordinal := v], limits, n)
  {}

  lemma JudgedStays(ordered: seq<Unit>, trace: seq<Trace>, limits: Limits, i: nat, v: Trace, t: nat)
    requires t < |ordered| && i < |trace| && JudgedAt(ordered, trace, limits, t)
    requires forall s {:trigger ordered[s]} :: 0 <= s <= t ==> ordered[s].ordinal != i
    ensures JudgedAt(ordered, trace[i := v], limits, t)
  {
    hide Verdict;
    SelectedBeforeSame(ordered, trace, i, v, t);
  }

  lemma NothingJudged(ordered: seq<Unit>, trace: seq<Trace>, limits: Limits)
    ensures Judged(ordered, trace, limits, 0) && SelectedBefore(ordered, trace, 0) == []
  {}

  lemma VerdictIs(u: Unit, before: seq<Unit>, limits: Limits, reason: Reason)
    ensures reason == MAX_CHUNKS && limits.maxChunks.Some? && |before| >= limits.maxChunks.value ==>
              Verdict(u, before, limits) == Skipped(reason, None)
    ensures !(limits.maxChunks.Some? && |before| >= limits.maxChunks.value) ==>
              Verdict(u, before, limits) ==
              if u.parentId.Some? && u.parentId.value !in Sources(before) then Skipped(PARENT_NOT_SELECTED, None)
              else if u.sourceId !in Sources(before) && limits.maxSources.Some? &&
                |Sources(before)| >= limits.maxSources.value then Skipped(MAX_SOURCES, None)
              else if u.tokens > limits.usable - Tokens(before) then Skipped(BUDGET, None)
              else Selected(|before|)
  {}

  lemma SelectOne(units: seq<Unit>, base: seq<Trace>, trace: seq<Trace>, selected: seq<Unit>, limits: Limits,
                  ordered: seq<Unit>, n: nat)
    requires Competes(units, base, ordered) && Agrees(units, base, trace, selected, limits) && Fits(selected, limits)
    requires DecidedTo(ordered, trace, n) && n < |ordered|
    requires limits.maxChunks.Some? ==> |selected| < limits.maxChunks.value
    requires ordered[n].parentId.Some? ==> ordered[n].parentId.value in Sources(selected)
    requires limits.maxSources.Some? ==>
               ordered[n].sourceId in Sources(selected) || |Sources(selected)| < limits.maxSources.value
    requires ordered[n].tokens <= limits.usable - Tokens(selected)
    ensures var now, more := trace[ordered[n].ordinal := Selected(|selected|)], selected + [ordered[n]];
            Agrees(units, base, now, more, limits) && Fits(more, limits) && DecidedTo(ordered, now, n + 1)
  {
    SelectedAgrees(units, base, trace, selected, limits, ordered[n]);
    FitsMore(selected, limits, ordered[n]);
    hide Agrees, Fits, Tokens, Sources;
    DecideOne(units, base, ordered, trace, n, Selected(|selected|));
  }

  lemma FitsMore(selected: seq<Unit>, limits: Limits, u: Unit)
    requires Fits(selected, limits) && u.tokens <= limits.usable - Tokens(selected)
    requires limits.maxChunks.Some? ==> |selected| < limits.maxChunks.value
    requires u.parentId.Some? ==> u.parentId.value in Sources(selected)
    requires limits.maxSources.Some? ==>
               u.sourceId in Sources(selected) || |Sources(selected)| < limits.maxSources.value
    ensures Fits(selected + [u], limits)
  {
    var more := selected + [u];
    PushTotals(selected, u);
    ParentsFirstMore(selected, u);
    hide Tokens, Sources, ParentsFirst;
    if u.sourceId in Sources(selected) { assert Sources(selected) + {u.sourceId} == Sources(selected); }
  }

  lemma SelectedAgrees(units: seq<Unit>, base: seq<Trace>, trace: seq<Trace>, selected: seq<Unit>, limits: Limits,
                       u: Unit)
    requires Agrees(units, base, trace, selected, limits)
    requires u.ordinal < |units| && units[u.ordinal] == u && trace[u.ordinal] == Pending && base[u.ordinal] == Pending
    requires limits.maxSources.Some? ==>
               u.sourceId in Sources(selected) || |Sources(selected)| < limits.maxSources.value
    ensures Agrees(units, base, trace[u.ordinal := Selected(|selected|)], selected + [u], limits)
  {
    hide LeftOut, Sources;
    var now, more := trace[u.ordinal := Selected(|selected|)], selected + [u];
    assert forall j :: 0 <= j < |trace| && j != u.ordinal ==> now[j] == trace[j];
    assert more[|selected|] == u && forall i :: 0 <= i < |selected| ==> more[i] == selected[i];
    forall j | 0 <= j < |now| && base[j] == Pending && now[j].Skipped?
      ensures now[j].duplicateOf == None && LeftOut(units[j], now[j].reason, more, limits)
    {
      assert trace[j] == now[j];
      StillLeftOut(units[j], now[j].reason, selected, limits, u);
    }
  }

  lemma StillLeftOut(v: Unit, reason: Reason, selected: seq<Unit>, limits: Limits, u: Unit)
    requires LeftOut(v, reason, selected, limits)
    requires limits.maxSources.Some? ==>
               u.sourceId in Sources(selected) || |Sources(selected)| < limits.maxSources.value
    ensures LeftOut(v, reason, selected + [u], limits)
  {
    PushTotals(selected, u);
    if u.sourceId in Sources(selected) { assert Sources(selected) + {u.sourceId} == Sources(selected); }
  }

  lemma DecideOne(units: seq<Unit>, base: seq<Trace>, ordered: seq<Unit>, trace: seq<Trace>, n: nat, verdict: Trace)
    requires Competes(units, base, ordered) && DecidedTo(ordered, trace, n) && n < |ordered| && verdict != Pending
    requires |trace| == |units|
    ensures DecidedTo(ordered, trace[ordered[n].ordinal := verdict], n + 1)
  {}

  lemma SkipOne(units: seq<Unit>, base: seq<Trace>, trace: seq<Trace>, selected: seq<Unit>, limits: Limits,
                ordered: seq<Unit>, n: nat, reason: Reason)
    requires Competes(units, base, ordered) && Agrees(units, base, trace, selected, limits)
    requires DecidedTo(ordered, trace, n) && n < |ordered|
    requires LeftOut(ordered[n], reason, selected, limits)
    ensures var now := trace[ordered[n].ordinal := Skipped(reason, None)];
            Agrees(units, base, now, selected, limits) && DecidedTo(ordered, now, n + 1)
  {
    var u := ordered[n];
    var now := trace[u.ordinal := Skipped(reason, None)];
    DecideOne(units, base, ordered, trace, n, Skipped(reason, None));
    assert trace[u.ordinal] == Pending && base[u.ordinal] == Pending;
    hide Competes, DecidedTo, LeftOut;
    assert forall j :: 0 <= j < |trace| && j != u.ordinal ==> now[j] == trace[j];
  }

  /** Takes competing units in order as long as they fit. */
  method Pack(units: seq<Unit>, base: seq<Trace>, ordered: seq<Unit>, limits: Limits)
    returns (trace: seq<Trace>, selected: seq<Unit>, tokensUsed: nat)
    requires Competes(units, base, ordered) && forall j {:trigger base[j]} :: 0 <= j < |base| ==> !base[j].Selected?
    ensures Agrees(units, base, trace, selected, limits) && Fits(selected, limits) && tokensUsed == Tokens(selected)
    ensures forall t {:trigger ordered[t]} ::
              0 <= t < |ordered| ==> ordered[t].ordinal < |trace| && trace[ordered[t].ordinal] != Pending
    ensures |trace| == |units| && Judged(ordered, trace, limits, |ordered|)
    ensures selected == SelectedBefore(ordered, trace, |ordered|)
  {
    hide Competes, Agrees, Fits, DecidedTo, LeftOut, Sources, Tokens, Verdict, Judged, SelectedBefore;
    NothingJudged(ordered, base, limits);
    trace, selected, tokensUsed := base, [], 0;
    var selectedSources: set<string> := {};
    PackStarts(units, base, ordered, limits);
    var n := 0;
    while n < |ordered|
      invariant 0 <= n <= |ordered| && |trace| == |units|
      invariant Agrees(units, base, trace, selected, limits) && Fits(selected, limits) && DecidedTo(ordered, trace, n)
      invariant tokensUsed == Tokens(selected) && selectedSources == Sources(selected)
      invariant Judged(ordered, trace, limits, n) && selected == SelectedBefore(ordered, trace, n)
    {
      var unit := ordered[n];
      CompetingPlace(units, base, ordered, n);
      if limits.maxChunks != None && |selected| >= limits.maxChunks.value { break; }
      VerdictIs(unit, selected, limits, BUDGET);
      JudgeOne(ordered, trace, limits, n, Verdict(unit, selected, limits));
      if unit.parentId != None && unit.parentId.value !in selectedSources {
        SkipReason(unit, PARENT_NOT_SELECTED, selected, limits);
        SkipOne(units, base, trace, selected, limits, ordered, n, PARENT_NOT_SELECTED);
        trace := trace[unit.ordinal := Skipped(PARENT_NOT_SELECTED, None)];
      } else if unit.sourceId !in selectedSources && limits.maxSources != None &&
        |selectedSources| >= limits.maxSources.value {
        SkipReason(unit, MAX_SOURCES, selected, limits);
        SkipOne(units, base, trace, selected, limits, ordered, n, MAX_SOURCES);
        trace := trace[unit.ordinal := Skipped(MAX_SOURCES, None)];
      } else if unit.tokens > limits.usable - tokensUsed {
        SkipReason(unit, BUDGET, selected, limits);
        SkipOne(units, base, trace, selected, limits, ordered, n, BUDGET);
        trace := trace[unit.ordinal := Skipped(BUDGET, None)];
      } else {
        SelectOne(units, base, trace, selected, limits, ordered, n);
        PushTotals(selected, unit);
        trace := trace[unit.ordinal := Selected(|selected|)];
        selected := selected + [unit];
        selectedSources := selectedSources + {unit.sourceId};
        tokensUsed := tokensUsed + unit.tokens;
      }
      n := n + 1;
    }
    while n < |ordered|
      invariant 0 <= n <= |ordered| && |trace| == |units|
      invariant n < |ordered| ==> limits.maxChunks.Some? && |selected| >= limits.maxChunks.value
      invariant Agrees(units, base, trace, selected, limits) && DecidedTo(ordered, trace, n)
      invariant Judged(ordered, trace, limits, n) && selected == SelectedBefore(ordered, trace, n)
    {
      CompetingPlace(units, base, ordered, n);
      VerdictIs(ordered[n], selected, limits, MAX_CHUNKS);
      JudgeOne(ordered, trace, limits, n, Verdict(ordered[n], selected, limits));
      SkipReason(ordered[n], MAX_CHUNKS, selected, limits);
      SkipOne(units, base, trace, selected, limits, ordered, n, MAX_CHUNKS);
      trace := trace[ordered[n].ordinal := Skipped(MAX_CHUNKS, None)];
      n := n + 1;
    }
    AllDecided(ordered, trace);
  }

  lemma PackStarts(units: seq<Unit>, base: seq<Trace>, ordered: seq<Unit>, limits: Limits)
    requires Competes(units, base, ordered)
    requires forall j {:trigger base[j]} :: 0 <= j < |base| ==> !base[j].Selected?
    ensures Agrees(units, base, base, [], limits) && Fits([], limits) && DecidedTo(ordered, base, 0)
    ensures Tokens([]) == 0 && Sources([]) == {}
  {}

  lemma CompetingPlace(units: seq<Unit>, base: seq<Trace>, ordered: seq<Unit>, n: nat)
    requires Competes(units, base, ordered) && n < |ordered|
    ensures ordered[n].ordinal < |units|
    ensures forall t {:trigger ordered[t]} :: 0 <= t < n ==> ordered[t].ordinal != ordered[n].ordinal
  {}

  lemma SkipReason(u: Unit, reason: Reason, selected: seq<Unit>, limits: Limits)
    ensures reason == PARENT_NOT_SELECTED && u.parentId.Some? ==> LeftOut(u, reason, selected, limits)
    ensures reason == MAX_SOURCES && limits.maxSources.Some? && |Sources(selected)| >= limits.maxSources.value &&
            u.sourceId !in Sources(selected) ==>
              LeftOut(u, reason, selected, limits)
    ensures reason == BUDGET && u.tokens > limits.usable - Tokens(selected) ==> LeftOut(u, reason, selected, limits)
    ensures reason == MAX_CHUNKS && limits.maxChunks.Some? && |selected| >= limits.maxChunks.value ==>
              LeftOut(u, reason, selected, limits)
  {}

  lemma AllDecided(ordered: seq<Unit>, trace: seq<Trace>)
    requires DecidedTo(ordered, trace, |ordered|)
    ensures forall t {:trigger ordered[t]} ::
              0 <= t < |ordered| ==> ordered[t].ordinal < |trace| && trace[ordered[t].ordinal] != Pending
  {}

  // ---- parents that are selected later -------------------------------------------------------

  /** The sources selected so far are those of the selected units so far. */
  lemma {:induction false} SourcesBefore(ordered: seq<Unit>, trace: seq<Trace>, n: nat, source: string)
    requires n <= |ordered|
    ensures source in Sources(SelectedBefore(ordered, trace, n)) <==> SelectedFrom(ordered, trace, 0, n, source)
  {
    if n > 0 {
      var u := ordered[n - 1];
      SourcesBefore(ordered, trace, n - 1, source);
      PushTotals(SelectedBefore(ordered, trace, n - 1), u);
      assert SelectedBefore(ordered, trace, n - 1) + [] == SelectedBefore(ordered, trace, n - 1);
      hide Sources;
      assert SelectedFrom(ordered, trace, 0, n, source) <==>
        SelectedFrom(ordered, trace, 0, n - 1, source) || (IsSelected(trace, u) && u.sourceId == source);
    }
  }

  ghost predicate IsSelected(trace: seq<Trace>, u: Unit) { u.ordinal < |trace| && trace[u.ordinal].Selected? }

  /** One of these units of the order is selected, and of this source. */
  ghost predicate SelectedFrom(ordered: seq<Unit>, trace: seq<Trace>, from: nat, to: nat, source: string) {
    to <= |ordered| && exists s {:trigger ordered[s]} ::
      from <= s < to && ordered[s].sourceId == source && IsSelected(trace, ordered[s])
  }

  lemma SkippedForParent(ordered: seq<Unit>, trace: seq<Trace>, limits: Limits, t: nat)
    requires Judged(ordered, trace, limits, |ordered|) && t < |ordered| && ordered[t].ordinal < |trace|
    requires trace[ordered[t].ordinal] == Skipped(PARENT_NOT_SELECTED, None)
    ensures var u, before := ordered[t], SelectedBefore(ordered, trace, t);
            u.parentId.Some? && u.parentId.value !in Sources(before)
  {
    assert JudgedAt(ordered, trace, limits, t);
    hide Judged, SelectedBefore, Sources;
  }

  /** A unit was skipped because its parent had not been selected: that source is selected in the
      end if and only if a unit of it that comes later is. */
  lemma ParentSkipIff(ordered: seq<Unit>, trace: seq<Trace>, limits: Limits, t: nat)
    requires Judged(ordered, trace, limits, |ordered|) && t < |ordered| && ordered[t].ordinal < |trace|
    requires trace[ordered[t].ordinal] == Skipped(PARENT_NOT_SELECTED, None)
    ensures ordered[t].parentId.Some?
    ensures ordered[t].parentId.value in Sources(SelectedBefore(ordered, trace, |ordered|)) <==>
              SelectedFrom(ordered, trace, t + 1, |ordered|, ordered[t].parentId.value)
  {
    hide Judged, SelectedBefore, Sources, Verdict;
    SkippedForParent(ordered, trace, limits, t);
    var parent := ordered[t].parentId.value;
    SourcesBefore(ordered, trace, t, parent);
    SourcesBefore(ordered, trace, |ordered|, parent);
    NotAmongEarlier(ordered, trace, t, parent);
  }

  lemma NotAmongEarlier(ordered: seq<Unit>, trace: seq<Trace>, t: nat, source: string)
    requires t < |ordered| && !IsSelected(trace, ordered[t]) && !SelectedFrom(ordered, trace, 0, t, source)
    ensures SelectedFrom(ordered, trace, 0, |ordered|, source) <==>
              SelectedFrom(ordered, trace, t + 1, |ordered|, source)
  {}

  /** Every unit has an earlier phase than those that name its source as their parent. */
  ghost predicate ParentsEarly(units: seq<Unit>) {
    forall u, v {:trigger u in units, v in units} ::
      u in units && v in units && v.parentId == Some(u.sourceId) ==> u.phase < v.phase
  }

  lemma ParentSkipFinal(ordered: seq<Unit>, trace: seq<Trace>, limits: Limits, t: nat)
    requires Judged(ordered, trace, limits, |ordered|) && t < |ordered| && ordered[t].ordinal < |trace|
    requires trace[ordered[t].ordinal] == Skipped(PARENT_NOT_SELECTED, None)
    requires ByPhase(ordered) && ParentsEarly(ordered)
    ensures ordered[t].parentId.Some?
    ensures ordered[t].parentId.value !in Sources(SelectedBefore(ordered, trace, |ordered|))
  {
    ParentSkipIff(ordered, trace, limits, t);
    hide Judged, SelectedBefore, Sources;
    forall s | t + 1 <= s < |ordered| ensures ordered[s].sourceId != ordered[t].parentId.value {
      assert ordered[s] in ordered && ordered[t] in ordered;
      assert ordered[t].phase <= ordered[s].phase;
    }
  }

  /** No unit was skipped for a parent that is selected in the end. */
  ghost predicate ParentSkipsFinal(units: seq<Unit>, blocked: seq<Option<Reason>>, trace: seq<Trace>,
                                   selected: seq<Unit>) {
    |units| == |blocked| == |trace| && forall j {:trigger trace[j]} ::
      0 <= j < |trace| && blocked[j] == None && trace[j] == Skipped(PARENT_NOT_SELECTED, None) ==>
        units[j].parentId.Some? && units[j].parentId.value !in Sources(selected)
  }

  lemma SkipsAreFinal(units: seq<Unit>, blocked: seq<Option<Reason>>, base: seq<Trace>, ordered: seq<Unit>,
                      trace: seq<Trace>, limits: Limits)
    requires InPlaces(units) && |units| == |blocked| == |base| == |trace| && Competes(units, base, ordered)
    requires forall j :: 0 <= j < |units| ==>
      (base[j] == Pending <==> blocked[j] == None && !(trace[j].Skipped? && trace[j].reason == DUPLICATE))
    requires Judged(ordered, trace, limits, |ordered|) && ByPhase(ordered) && ParentsEarly(ordered)
    ensures ParentSkipsFinal(units, blocked, trace, SelectedBefore(ordered, trace, |ordered|))
  {
    hide Judged, SelectedBefore, Sources, ByPhase, ParentsEarly;
    forall j | 0 <= j < |trace| && blocked[j] == None && trace[j] == Skipped(PARENT_NOT_SELECTED, None)
      ensures units[j].parentId.Some?
      ensures units[j].parentId.value !in Sources(SelectedBefore(ordered, trace, |ordered|))
    {
      assert base[j] == Pending;
      var t :| 0 <= t < |ordered| && ordered[t] == units[j];
      assert units[j].ordinal == j;
      ParentSkipFinal(ordered, trace, limits, t);
    }
  }

  // ---- selection ------------------------------------------------------------------------

  /** What a selection promises. */
  ghost predicate Chosen(units: seq<Unit>, blocked: seq<Option<Reason>>, limits: Limits, trace: seq<Trace>,
                         selected: seq<Unit>) {
    && |trace| == |units| == |blocked|
    && (forall j {:trigger trace[j]} :: 0 <= j < |trace| ==> trace[j].Selected? || trace[j].Skipped?)
    && (forall j {:trigger trace[j]} ::
          0 <= j < |trace| && blocked[j].Some? ==> trace[j] == Skipped(blocked[j].value, None))
    && (forall j {:trigger trace[j]} ::
          0 <= j < |trace| && trace[j].Selected? ==>
            trace[j].order < |selected| && selected[trace[j].order] == units[j])
    && (forall i {:trigger selected[i]} :: 0 <= i < |selected| ==>
          selected[i].ordinal < |units| && units[selected[i].ordinal] == selected[i] &&
            trace[selected[i].ordinal] == Selected(i))
    && (forall i, j {:trigger selected[i], selected[j]} ::
          0 <= i < j < |selected| ==> selected[i].dedupeKey != selected[j].dedupeKey)
    && (forall j {:trigger trace[j]} ::
        0 <= j < |trace| && trace[j].Skipped? && blocked[j] == None && trace[j].reason != DUPLICATE ==>
          LeftOut(units[j], trace[j].reason, selected, limits))
    && (forall j {:trigger trace[j]} ::
        0 <= j < |trace| && trace[j].Skipped? && blocked[j] == None && trace[j].reason == DUPLICATE ==>
          BeatenByCompetitor(units, blocked, trace, j))
  }

  /** A duplicate lost to a better unit of its key that was itself neither blocked nor a duplicate. */
  ghost predicate BeatenByCompetitor(units: seq<Unit>, blocked: seq<Option<Reason>>, trace: seq<Trace>, j: nat)
    requires j < |units| == |blocked| == |trace|
  {
    exists w {:trigger units[w]} ::
      0 <= w < |units| && units[w].dedupeKey == units[j].dedupeKey && KeptOver(units[w], units[j])
      && blocked[w] == None && !(trace[w].Skipped? && trace[w].reason == DUPLICATE)
  }

  /** The units that were neither blocked nor duplicates. */
  function Competing(units: seq<Unit>, blocked: seq<Option<Reason>>, trace: seq<Trace>): seq<Unit>
    requires |units| == |blocked| == |trace|
  {
    if units == [] then []
    else
      var n := |units| - 1;
      Competing(units[..n], blocked[..n], trace[..n])
      + (if blocked[n] == None && !(trace[n].Skipped? && trace[n].reason == DUPLICATE) then [units[n]] else [])
  }

  lemma {:induction false} CompetingAreEligible(units: seq<Unit>, blocked: seq<Option<Reason>>, base: seq<Trace>,
                                                trace: seq<Trace>)
    requires |units| == |blocked| == |base| == |trace|
    requires forall j {:trigger base[j]} ::
               0 <= j < |units| ==>
                 (base[j] == Pending <==> blocked[j] == None && !(trace[j].Skipped? && trace[j].reason == DUPLICATE))
    ensures Eligible(units, base) == Competing(units, blocked, trace)
  {
    if units != [] {
      var n := |units| - 1;
      assert forall j :: 0 <= j < n ==>
        base[..n][j] == base[j] && blocked[..n][j] == blocked[j] && trace[..n][j] == trace[j];
      CompetingAreEligible(units[..n], blocked[..n], base[..n], trace[..n]);
      assert base[n] == base[n];
    }
  }

  lemma PendingCompete(units: seq<Unit>, blocked: seq<Option<Reason>>, base: seq<Trace>, winners: map<string, nat>,
                       trace: seq<Trace>, selected: seq<Unit>, limits: Limits, j: nat)
    requires Deduplicated(units, blocked, base, winners, |units|) && Agrees(units, base, trace, selected, limits)
    requires j < |units|
    ensures base[j] == Pending <==> blocked[j] == None && !(trace[j].Skipped? && trace[j].reason == DUPLICATE)
  {
    SettledAt(units, blocked, base, winners, |units|, j);
    var t := trace[j];
  }

  /** Every unit is selected or skipped exactly once; what is selected is within the budget and
      the limits, shares no dedupe key, and has each child after its parent; what competed and
      was skipped for the budget or a limit could not be added to the result. */
  method Select(units: seq<Unit>, blocked: seq<Option<Reason>>, limits: Limits, diversity: bool)
    returns (trace: seq<Trace>, selected: seq<Unit>, tokensUsed: nat, ghost ordered: seq<Unit>)
    requires InPlaces(units) && |blocked| == |units| && forall j :: 0 <= j < |blocked| ==> blocked[j] != Some(DUPLICATE)
    ensures Chosen(units, blocked, limits, trace, selected)
    ensures Fits(selected, limits) && tokensUsed == Tokens(selected)
    ensures ByPhase(ordered) && multiset(ordered) == multiset(Competing(units, blocked, trace))
    ensures forall p :: InPhases(ordered, {p}) == StageOrder(InPhases(Competing(units, blocked, trace), {p}), diversity)
    ensures Judged(ordered, trace, limits, |ordered|) && selected == SelectedBefore(ordered, trace, |ordered|)
    ensures OrderTells(ordered, diversity)
    ensures ParentsEarly(ordered) ==> ParentSkipsFinal(units, blocked, trace, selected)
  {
    hide OrderTells, Apart;
    hide Deduplicated, Competes, Agrees, Fits, Chosen, Tokens, Eligible, ByPhase, Judged, SelectedBefore, Competing,
         InPhases, StageOrder, ParentsEarly, ParentSkipsFinal;
    var base, winners := Deduplicate(units, blocked);
    BaseShape(units, blocked, base, winners);
    var pending := EligibleUnits(units, base);
    var order := OrderedUnits(pending, diversity);
    ordered := order;
    EligibleApart(units, base);
    OrderTold(pending, ordered, diversity);
    OrderedCompetes(units, base, ordered);
    trace, selected, tokensUsed := Pack(units, base, order, limits);
    forall j | 0 <= j < |units| ensures base[j] == Pending <==>
      blocked[j] == None && !(trace[j].Skipped? && trace[j].reason == DUPLICATE) {
      PendingCompete(units, blocked, base, winners, trace, selected, limits, j);
    }
    CompetingAreEligible(units, blocked, base, trace);
    SelectionChosen(units, blocked, base, winners, ordered, limits, trace, selected);
    if ParentsEarly(ordered) { SkipsAreFinal(units, blocked, base, ordered, trace, limits); }
  }

  method EligibleUnits(units: seq<Unit>, trace: seq<Trace>) returns (pending: seq<Unit>)
    requires |trace| == |units|
    ensures pending == Eligible(units, trace)
  {
    pending := [];
    for j := 0 to |units|
      invariant pending == Eligible(units[..j], trace[..j])
    {
      assert units[..j + 1][..j] == units[..j] && trace[..j + 1][..j] == trace[..j];
      if trace[j] == Pending { pending := pending + [units[j]]; }
    }
    assert units[..|units|] == units && trace[..|units|] == trace;
  }

  lemma BaseShape(units: seq<Unit>, blocked: seq<Option<Reason>>, base: seq<Trace>, winners: map<string, nat>)
    requires Deduplicated(units, blocked, base, winners, |units|)
    ensures |base| == |units| == |blocked| && forall j {:trigger base[j]} :: 0 <= j < |base| ==> !base[j].Selected?
  {
    forall j | 0 <= j < |base| ensures !base[j].Selected? { SettledAt(units, blocked, base, winners, |units|, j); }
  }

  lemma SelectionChosen(units: seq<Unit>, blocked: seq<Option<Reason>>, base: seq<Trace>, winners: map<string, nat>,
                        ordered: seq<Unit>,
                        limits: Limits, trace: seq<Trace>, selected: seq<Unit>)
    requires InPlaces(units) && Deduplicated(units, blocked, base, winners, |units|) && Competes(units, base, ordered)
    requires forall j :: 0 <= j < |blocked| ==> blocked[j] != Some(DUPLICATE)
    requires Agrees(units, base, trace, selected, limits)
    requires forall t {:trigger ordered[t]} ::
               0 <= t < |ordered| ==> ordered[t].ordinal < |trace| && trace[ordered[t].ordinal] != Pending
    ensures Chosen(units, blocked, limits, trace, selected)
  {
    hide LeftOut;
    forall j | 0 <= j < |trace| ensures trace[j] != Pending {
      if base[j] == Pending { assert units[j] in ordered; assert units[j].ordinal == j; }
    }
    forall j | 0 <= j < |trace| && blocked[j].Some? ensures trace[j] == Skipped(blocked[j].value, None) {
      SettledAt(units, blocked, base, winners, |units|, j);
    }
    forall i, j | 0 <= i < j < |selected| ensures selected[i].dedupeKey != selected[j].dedupeKey {
      SelectedDistinct(units, blocked, base, winners, trace, selected, limits, i, j);
    }
    forall j | 0 <= j < |trace| && trace[j].Skipped? && blocked[j] == None && trace[j].reason != DUPLICATE
      ensures LeftOut(units[j], trace[j].reason, selected, limits)
    {
      SettledAt(units, blocked, base, winners, |units|, j);
    }
    forall j | 0 <= j < |trace| && trace[j].Skipped? && blocked[j] == None && trace[j].reason == DUPLICATE
      ensures BeatenByCompetitor(units, blocked, trace, j)
    {
      DuplicateBeaten(units, blocked, base, winners, trace, selected, limits, j);
    }
  }

  lemma SelectedDistinct(units: seq<Unit>, blocked: seq<Option<Reason>>, base: seq<Trace>, winners: map<string, nat>,
                         trace: seq<Trace>, selected: seq<Unit>, limits: Limits, i: nat, j: nat)
    requires Deduplicated(units, blocked, base, winners, |units|) && Agrees(units, base, trace, selected, limits)
    requires i < j < |selected|
    ensures selected[i].dedupeKey != selected[j].dedupeKey
  {
    var a, b := selected[i].ordinal, selected[j].ordinal;
    assert trace[a] == Selected(i) && trace[b] == Selected(j);
    assert base[a] == Pending && base[b] == Pending;
    if units[a].dedupeKey == units[b].dedupeKey { PendingDistinct(units, blocked, base, winners, a, b); }
  }

  lemma DuplicateBeaten(units: seq<Unit>, blocked: seq<Option<Reason>>, base: seq<Trace>, winners: map<string, nat>,
                        trace: seq<Trace>, selected: seq<Unit>, limits: Limits, j: nat)
    requires InPlaces(units) && Deduplicated(units, blocked, base, winners, |units|)
    requires Agrees(units, base, trace, selected, limits) && j < |units|
    requires blocked[j] == None && trace[j].Skipped? && trace[j].reason == DUPLICATE
    ensures BeatenByCompetitor(units, blocked, trace, j)
  {
    assert base[j] != Pending;
    SettledAt(units, blocked, base, winners, |units|, j);
    var w := winners[units[j].dedupeKey];
    SettledAt(units, blocked, base, winners, |units|, w);
    assert base[w] == Pending;
    assert trace[w].Skipped? ==> LeftOut(units[w], trace[w].reason, selected, limits);
  }
}
