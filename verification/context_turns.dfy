/** What the order of the units comes to: by phase, and within a phase by rank, or in turns over the
    topics. */
module ContextTurns {
  import opened ContextOrder
  import opened Wrappers

  /** Summaries first, then the higher score, the fewer tokens and the earlier place. */
  ghost predicate ComesBefore(a: Unit, b: Unit) {
    if a.kind != b.kind then a.kind == SUMMARY
    else if a.score != b.score then a.score > b.score
    else if a.tokens != b.tokens then a.tokens < b.tokens
    else a.ordinal < b.ordinal
  }

  /** How many units of its topic in its phase come before it. */
  ghost function Turn(units: seq<Unit>, u: Unit): nat {
    |set v | v in units && v.phase == u.phase && v.topic == u.topic && ComesBefore(v, u)|
  }

  /** The first unit of a's topic comes before all of b's topic, in their phase. */
  ghost predicate Leads(units: seq<Unit>, a: Unit, b: Unit) {
    exists v :: v in units && v.phase == a.phase && v.topic == a.topic
                && forall w :: w in units && w.phase == b.phase && w.topic == b.topic ==> ComesBefore(v, w)
  }

  ghost predicate Precedes(units: seq<Unit>, a: Unit, b: Unit, diversity: bool) {
    a.phase < b.phase ||
    (a.phase == b.phase &&
     if !diversity then ComesBefore(a, b)
     else Turn(units, a) < Turn(units, b) || (Turn(units, a) == Turn(units, b) && Leads(units, a, b)))
  }

  /** Each unit precedes all later ones. */
  ghost predicate OrderTells(ordered: seq<Unit>, diversity: bool) {
    forall i, j :: 0 <= i < j < |ordered| ==> Precedes(ordered, ordered[i], ordered[j], diversity)
  }

  ghost predicate Apart(units: seq<Unit>) {
    forall i, j :: 0 <= i < j < |units| ==> units[i].ordinal != units[j].ordinal
  }

  ghost predicate Ranked(units: seq<Unit>) { forall i, j :: 0 <= i < j < |units| ==> ComesBefore(units[i], units[j]) }

  // ---- units with different places -----------------------------------------------------------

  lemma NotAfterIff(a: Unit, b: Unit)
    requires a.ordinal != b.ordinal
    ensures NotAfter(a, b) <==> ComesBefore(a, b)
    ensures NotAfter(a, b) <==> !ComesBefore(b, a)
  {}

  lemma {:induction false} OnceApart(units: seq<Unit>, u: Unit)
    requires Apart(units)
    ensures multiset(units)[u] <= 1
  {
    if units != [] {
      var n := |units| - 1;
      OnceApart(units[..n], u);
      assert units == units[..n] + [units[n]];
      if u == units[n] { assert u !in units[..n]; }
    }
  }

  lemma ApartSame(a: seq<Unit>, b: seq<Unit>)
    requires Apart(a) && multiset(a) == multiset(b)
    ensures Apart(b)
  {
    forall i, j | 0 <= i < j < |b| ensures b[i].ordinal != b[j].ordinal {
      assert b[i] in multiset(a) && b[j] in multiset(a);
      var k :| 0 <= k < |a| && a[k] == b[i];
      var l :| 0 <= l < |a| && a[l] == b[j];
      OnceApart(a, b[i]);
      TwiceIn(b, i, j);
      assert k != l;
    }
  }

  lemma TwiceIn(b: seq<Unit>, i: nat, j: nat)
    requires i < j < |b|
    ensures b[i] == b[j] ==> multiset(b)[b[i]] >= 2
  {
    assert b == b[..i] + [b[i]] + b[i + 1..j] + [b[j]] + b[j + 1..];
    assert multiset(b) == multiset(b[..i]) + multiset([b[i]]) + multiset(b[i + 1..j]) + multiset([b[j]])
                          + multiset(b[j + 1..]);
  }

  lemma SortedRanked(units: seq<Unit>)
    requires Apart(units) && Sorted(units)
    ensures Ranked(units)
  {
    forall i, j | 0 <= i < j < |units| ensures ComesBefore(units[i], units[j]) { NotAfterIff(units[i], units[j]); }
  }

  // ---- groups ----------------------------------------------------------------------------------

  /** A group has units of one topic, ranked. */
  ghost predicate GroupOk(g: seq<Unit>) {
    g != [] && Ranked(g) && forall r :: 0 <= r < |g| ==> g[r].topic == g[0].topic
  }

  /** The groups have different topics, and each leader comes before those of later groups. */
  ghost predicate GroupsOk(groups: seq<seq<Unit>>) {
    && (forall i :: 0 <= i < |groups| ==> groups[i] != [] && GroupOk(groups[i]))
    && (forall i, j :: 0 <= i < j < |groups| ==>
          groups[i][0].topic != groups[j][0].topic && ComesBefore(groups[i][0], groups[j][0]))
  }

  lemma {:induction false} OfTopicRanked(units: seq<Unit>, topic: string)
    requires Ranked(units)
    ensures Ranked(OfTopic(units, topic))
    ensures forall u :: u in OfTopic(units, topic) <==> u in units && u.topic == topic
  {
    if units != [] {
      var n := |units| - 1;
      OfTopicRanked(units[..n], topic);
      assert units == units[..n] + [units[n]];
      forall u | u in units[..n] ensures ComesBefore(u, units[n]) {
        var i :| 0 <= i < n && units[i] == u;
      }
    }
  }

  lemma {:induction false} InsertGroupOk(g: seq<Unit>, groups: seq<seq<Unit>>)
    requires g != [] && GroupOk(g) && GroupsOk(groups)
    requires forall i :: 0 <= i < |groups| ==>
               groups[i][0].topic != g[0].topic && groups[i][0].ordinal != g[0].ordinal
    ensures GroupsOk(InsertGroup(g, groups))
    ensures forall h :: h in InsertGroup(g, groups) <==> h == g || h in groups
  {
    hide GroupOk;
    if groups == [] {
      assert InsertGroup(g, groups) == [g];
    } else if NotAfter(g[0], groups[0][0]) {
      NotAfterIff(g[0], groups[0][0]);
    } else {
      NotAfterIff(g[0], groups[0][0]);
      InsertGroupOk(g, groups[1..]);
      var rest, all := InsertGroup(g, groups[1..]), InsertGroup(g, groups);
      assert groups == [groups[0]] + groups[1..] && all == [groups[0]] + rest;
      forall j | 0 <= j < |rest|
        ensures groups[0][0].topic != rest[j][0].topic && ComesBefore(groups[0][0], rest[j][0])
      {
        assert rest[j] in rest;
        if rest[j] != g { var i :| 0 <= i < |groups| - 1 && groups[1..][i] == rest[j]; }
      }
    }
  }

  /** Groups with different topics, their leaders with different places. */
  ghost predicate GroupsApart(groups: seq<seq<Unit>>) {
    && (forall i :: 0 <= i < |groups| ==> groups[i] != [] && GroupOk(groups[i]))
    && (forall i, j :: 0 <= i < j < |groups| ==>
          groups[i][0].topic != groups[j][0].topic && groups[i][0].ordinal != groups[j][0].ordinal)
  }

  lemma {:induction false} SortGroupsOk(groups: seq<seq<Unit>>)
    requires GroupsApart(groups)
    ensures GroupsOk(SortGroups(groups))
    ensures forall h :: h in SortGroups(groups) <==> h in groups
  {
    hide GroupOk;
    if groups != [] {
      var rest: seq<seq<Unit>> := SortGroups(groups[1..]);
      SortGroupsOk(groups[1..]);
      forall i | 0 <= i < |rest|
        ensures rest[i][0].topic != groups[0][0].topic && rest[i][0].ordinal != groups[0][0].ordinal
      {
        assert rest[i] in rest;
        var j :| 0 <= j < |groups| - 1 && groups[1..][j] == rest[i];
      }
      InsertGroupOk(groups[0], rest);
      assert groups == [groups[0]] + groups[1..];
    }
  }

  lemma GroupsOfApart(sorted: seq<Unit>)
    requires Apart(sorted) && Ranked(sorted)
    ensures GroupsApart(GroupsOf(sorted))
  {
    GroupsAre(sorted);
    var topics, groups := TopicsOf(sorted), GroupsOf(sorted);
    forall i | 0 <= i < |groups| ensures GroupOk(groups[i]) { OfTopicRanked(sorted, topics[i]); }
    forall i, j | 0 <= i < j < |groups|
      ensures groups[i][0].topic != groups[j][0].topic && groups[i][0].ordinal != groups[j][0].ordinal
    {
      OfTopicRanked(sorted, topics[i]);
      OfTopicRanked(sorted, topics[j]);
      assert groups[i][0] in groups[i] && groups[j][0] in groups[j];
      var k :| 0 <= k < |sorted| && sorted[k] == groups[i][0];
      var l :| 0 <= l < |sorted| && sorted[l] == groups[j][0];
    }
  }

  // ---- turns -----------------------------------------------------------------------------------

  /** Where the heads come from. */
  lemma {:induction false} HeadPlaces(queues: seq<seq<Unit>>) returns (at: seq<nat>)
    ensures |at| == |Heads(queues)|
    ensures forall k :: 0 <= k < |at| ==>
              at[k] < |queues| && queues[at[k]] != [] && Heads(queues)[k] == queues[at[k]][0]
    ensures forall k, l :: 0 <= k < l < |at| ==> at[k] < at[l]
  {
    if queues == [] { return []; }
    var n := |queues| - 1;
    at := HeadPlaces(queues[..n]);
    if queues[n] != [] { at := at + [n]; }
  }

  lemma {:induction false} TailAt(queues: seq<seq<Unit>>, q: nat)
    requires q < |queues|
    ensures |Tails(queues)| == |queues|
    ensures Tails(queues)[q] == if queues[q] == [] then [] else queues[q][1..]
  {
    RoundKeepsAll(queues);
    RoundKeepsAll(queues[..|queues| - 1]);
    if q < |queues| - 1 { TailAt(queues[..|queues| - 1], q); }
  }

  /** Taking turns goes round by round, and in each round through the queues in order. */
  ghost predicate InTurns(queues: seq<seq<Unit>>, taken: seq<Unit>, places: seq<(nat, nat)>) {
    && |places| == |taken|
    && (forall k {:trigger places[k]} :: 0 <= k < |places| ==>
          places[k].0 < |queues| && places[k].1 < |queues[places[k].0]| &&
            taken[k] == queues[places[k].0][places[k].1])
    && (forall k, l {:trigger places[k], places[l]} :: 0 <= k < l < |places| ==>
          places[k].1 < places[l].1 || (places[k].1 == places[l].1 && places[k].0 < places[l].0))
  }

  lemma {:induction false} TurnsInOrder(queues: seq<seq<Unit>>) returns (places: seq<(nat, nat)>)
    ensures InTurns(queues, RoundRobin(queues), places)
    decreases |All(queues)|
  {
    hide All, Heads, Tails, RoundRobin, InTurns;
    RoundRobinStep(queues);
    if |All(queues)| == 0 {
      places := [];
      NoTurns(queues);
    } else {
      var at := HeadPlaces(queues);
      var later := TurnsInOrder(Tails(queues));
      places := OneMoreRound(queues, at, RoundRobin(Tails(queues)), later);
    }
  }

  lemma NoTurns(queues: seq<seq<Unit>>)
    ensures InTurns(queues, [], [])
  {}

  lemma OneMoreRound(queues: seq<seq<Unit>>, at: seq<nat>, taken: seq<Unit>, later: seq<(nat, nat)>)
    returns (places: seq<(nat, nat)>)
    requires |at| == |Heads(queues)| && InTurns(Tails(queues), taken, later)
    requires forall k :: 0 <= k < |at| ==>
               at[k] < |queues| && queues[at[k]] != [] && Heads(queues)[k] == queues[at[k]][0]
    requires forall k, l :: 0 <= k < l < |at| ==> at[k] < at[l]
    ensures InTurns(queues, Heads(queues) + taken, places)
  {
    hide Heads, Tails;
    var first := seq(|at|, k requires 0 <= k < |at| => (at[k], 0));
    var next := seq(|later|, k requires 0 <= k < |later| => (later[k].0, later[k].1 + 1));
    places := first + next;
    TailsAt(queues);
    PlacesTell(queues, at, Heads(queues), taken, later, places);
    PlacesAscend(at, later, places);
  }

  lemma TailsAt(queues: seq<seq<Unit>>)
    ensures |Tails(queues)| == |queues|
    ensures forall q :: 0 <= q < |queues| ==> Tails(queues)[q] == if queues[q] == [] then [] else queues[q][1..]
  {
    RoundKeepsAll(queues);
    hide Tails;
    forall q | 0 <= q < |queues| ensures Tails(queues)[q] == if queues[q] == [] then [] else queues[q][1..] {
      TailAt(queues, q);
    }
  }

  /** The heads at these places, and then what the later places in the tails become. */
  ghost predicate Follow(at: seq<nat>, later: seq<(nat, nat)>, places: seq<(nat, nat)>) {
    && |places| == |at| + |later|
    && (forall k {:trigger places[k]} :: 0 <= k < |at| ==> places[k] == (at[k], 0))
    && (forall k {:trigger places[k]} :: |at| <= k < |places| ==>
          places[k] == (later[k - |at|].0, later[k - |at|].1 + 1))
  }

  lemma PlacesTell(queues: seq<seq<Unit>>, at: seq<nat>, heads: seq<Unit>, taken: seq<Unit>, later: seq<(nat, nat)>,
                   places: seq<(nat, nat)>)
    requires |at| == |heads| && InTurns(Tails(queues), taken, later) && Follow(at, later, places)
    requires |Tails(queues)| == |queues|
    requires forall q :: 0 <= q < |queues| ==> Tails(queues)[q] == if queues[q] == [] then [] else queues[q][1..]
    requires forall k :: 0 <= k < |at| ==> at[k] < |queues| && queues[at[k]] != [] && heads[k] == queues[at[k]][0]
    ensures forall k {:trigger places[k]} :: 0 <= k < |places| ==>
              places[k].0 < |queues| && places[k].1 < |queues[places[k].0]| &&
                (heads + taken)[k] == queues[places[k].0][places[k].1]
  {
    hide Tails;
    forall k | 0 <= k < |places|
      ensures places[k].0 < |queues| && places[k].1 < |queues[places[k].0]|
      ensures (heads + taken)[k] == queues[places[k].0][places[k].1]
    {
      if k >= |at| {
        var l := later[k - |at|];
        assert l.0 < |Tails(queues)| && l.1 < |Tails(queues)[l.0]|;
        assert taken[k - |at|] == Tails(queues)[l.0][l.1] == queues[l.0][1..][l.1];
      }
    }
  }

  lemma PlacesAscend(at: seq<nat>, later: seq<(nat, nat)>, places: seq<(nat, nat)>)
    requires Follow(at, later, places) && forall k, l :: 0 <= k < l < |at| ==> at[k] < at[l]
    requires forall k, l {:trigger later[k], later[l]} :: 0 <= k < l < |later| ==>
               later[k].1 < later[l].1 || (later[k].1 == later[l].1 && later[k].0 < later[l].0)
    ensures forall k, l {:trigger places[k], places[l]} :: 0 <= k < l < |places| ==>
              places[k].1 < places[l].1 || (places[k].1 == places[l].1 && places[k].0 < places[l].0)
  {
    forall k, l | 0 <= k < l < |places|
      ensures places[k].1 < places[l].1 || (places[k].1 == places[l].1 && places[k].0 < places[l].0)
    {
      if k >= |at| {
        assert places[k] == (later[k - |at|].0, later[k - |at|].1 + 1);
        assert places[l] == (later[l - |at|].0, later[l - |at|].1 + 1);
      }
    }
  }

  lemma {:induction false} InAll(queues: seq<seq<Unit>>, u: Unit)
    ensures u in All(queues) <==> exists q :: 0 <= q < |queues| && u in queues[q]
  {
    if queues != [] {
      var n := |queues| - 1;
      InAll(queues[..n], u);
      if q :| 0 <= q < n && u in queues[..n][q] { assert u in queues[q]; }
      if q :| 0 <= q < |queues| && u in queues[q] { assert q < n ==> u in queues[..n][q]; }
    }
  }

  lemma {:induction false} SizeOfRanked(units: seq<Unit>)
    requires Ranked(units)
    ensures |set u | u in units| == |units|
  {
    if units != [] {
      var n := |units| - 1;
      SizeOfRanked(units[..n]);
      var before := set u | u in units[..n];
      assert units == units[..n] + [units[n]];
      assert units[n] !in before by {
        assert forall i :: 0 <= i < n ==> ComesBefore(units[i], units[n]);
      }
      assert (set u | u in units) == before + {units[n]};
    }
  }

  /** A unit's turn is its place in its group. */
  lemma TurnIsPlace(groups: seq<seq<Unit>>, taken: seq<Unit>, q: nat, r: nat)
    requires GroupsOk(groups) && multiset(taken) == All(groups) && q < |groups| && r < |groups[q]|
    requires forall u, v :: u in taken && v in taken ==> u.phase == v.phase
    ensures Turn(taken, groups[q][r]) == r
  {
    var g, u := groups[q], groups[q][r];
    AllTaken(groups, taken);
    GroupHas(groups, taken, q);
    hide GroupsOk, All;
    forall v | v in g ensures ComesBefore(v, u) <==> v in g[..r] { BeforeInGroup(g, r, v); }
    TurnSet(taken, g, u, r);
    SizeOfRanked(g[..r]);
  }

  lemma BeforeInGroup(g: seq<Unit>, r: nat, v: Unit)
    requires Ranked(g) && r < |g| && v in g
    ensures ComesBefore(v, g[r]) <==> v in g[..r]
  {
    var s :| 0 <= s < |g| && g[s] == v;
    if s < r { assert g[..r][s] == v; }
    assert r < s ==> ComesBefore(g[r], v);
    if v in g[..r] {
      var t :| 0 <= t < r && g[t] == v;
    }
  }

  lemma TurnSet(taken: seq<Unit>, g: seq<Unit>, u: Unit, r: nat)
    requires r < |g| && g[r] == u && forall v :: v in taken && v.topic == u.topic <==> v in g
    requires forall v, w :: v in taken && w in taken ==> v.phase == w.phase
    requires forall v :: v in g ==> (ComesBefore(v, u) <==> v in g[..r])
    ensures Turn(taken, u) == |set v | v in g[..r]|
  {
    hide ComesBefore;
    assert u in g && u in taken;
    forall v | v in g[..r] ensures v in g {}
    assert (set v | v in taken && v.phase == u.phase && v.topic == u.topic && ComesBefore(v, u))
      == set v | v in g[..r];
  }

  lemma AllTaken(groups: seq<seq<Unit>>, taken: seq<Unit>)
    requires multiset(taken) == All(groups)
    ensures forall u :: u in taken <==> exists q :: 0 <= q < |groups| && u in groups[q]
  {
    forall u ensures u in taken <==> exists q :: 0 <= q < |groups| && u in groups[q] {
      InAll(groups, u);
      assert u in taken <==> u in multiset(taken);
    }
  }

  /** The units of a topic are those of its group. */
  lemma GroupHas(groups: seq<seq<Unit>>, taken: seq<Unit>, q: nat)
    requires GroupsOk(groups) && q < |groups|
    requires forall u :: u in taken <==> exists q :: 0 <= q < |groups| && u in groups[q]
    ensures GroupOk(groups[q])
    ensures forall v :: v in taken && v.topic == groups[q][0].topic <==> v in groups[q]
  {
    forall v | v in taken && v.topic == groups[q][0].topic ensures v in groups[q] {
      var p :| 0 <= p < |groups| && v in groups[p];
      assert GroupOk(groups[p]) && v.topic == groups[p][0].topic;
    }
    forall v | v in groups[q] ensures v in taken && v.topic == groups[q][0].topic {
      assert GroupOk(groups[q]);
    }
  }

  /** Taken in turns from groups, each unit precedes the later ones. */
  lemma TurnsPrecede(groups: seq<seq<Unit>>, taken: seq<Unit>, places: seq<(nat, nat)>, k: nat, l: nat)
    requires GroupsOk(groups) && multiset(taken) == All(groups) && InTurns(groups, taken, places) && k < l < |taken|
    requires forall u, v :: u in taken && v in taken ==> u.phase == v.phase
    ensures Precedes(taken, taken[k], taken[l], true)
  {
    var a, b := places[k], places[l];
    TurnIsPlace(groups, taken, a.0, a.1);
    TurnIsPlace(groups, taken, b.0, b.1);
    AllTaken(groups, taken);
    GroupHas(groups, taken, a.0);
    GroupHas(groups, taken, b.0);
    hide Turn, All;
    if a.1 == b.1 {
      var v := groups[a.0][0];
      assert v in taken && taken[k] in groups[a.0] && taken[l] in groups[b.0];
      forall w | w in taken && w.phase == taken[l].phase && w.topic == taken[l].topic ensures ComesBefore(v, w) {
        var s :| 0 <= s < |groups[b.0]| && groups[b.0][s] == w;
        LeaderBefore(groups, a.0, b.0, s);
      }
      assert Leads(taken, taken[k], taken[l]);
    }
  }

  lemma LeaderBefore(groups: seq<seq<Unit>>, p: nat, q: nat, s: nat)
    requires GroupsOk(groups) && p < q < |groups| && s < |groups[q]|
    ensures ComesBefore(groups[p][0], groups[q][s])
  {
    assert GroupOk(groups[q]);
    assert ComesBefore(groups[p][0], groups[q][0]);
    assert s > 0 ==> ComesBefore(groups[q][0], groups[q][s]);
  }

  // ---- stages and the whole order --------------------------------------------------------------

  lemma StageTells(units: seq<Unit>, stage: seq<Unit>, diversity: bool)
    requires Apart(units) && stage == StageOrder(units, diversity)
    requires forall u, v :: u in units && v in units ==> u.phase == v.phase
    ensures multiset(stage) == multiset(units) && OrderTells(stage, diversity)
  {
    var sorted := SortUnits(units);
    SortUnitsOk(units);
    ApartSame(units, sorted);
    SortedRanked(sorted);
    forall u ensures u in sorted <==> u in units { assert u in multiset(sorted) <==> u in multiset(units); }
    if diversity {
      GroupsAre(sorted);
      GroupsOfApart(sorted);
      var groups := SortGroups(GroupsOf(sorted));
      SortGroupsOk(GroupsOf(sorted));
      SortGroupsAll(GroupsOf(sorted));
      RoundRobinPermutes(groups);
      var places := TurnsInOrder(groups);
      hide GroupsOk, All, RoundRobin, SortGroups, GroupsOf, InTurns, Precedes;
      forall u ensures u in stage <==> u in units { assert u in multiset(stage) <==> u in multiset(units); }
      forall k, l | 0 <= k < l < |stage| ensures Precedes(stage, stage[k], stage[l], true) {
        TurnsPrecede(groups, stage, places, k, l);
      }
    }
  }

  lemma {:induction false} PhaseKeeps(units: seq<Unit>, p: nat, i: nat, j: nat) returns (k: nat, l: nat)
    requires i < j < |units| && units[i].phase == p == units[j].phase
    ensures k < l < |InPhases(units, {p})|
    ensures InPhases(units, {p})[k] == units[i] && InPhases(units, {p})[l] == units[j]
  {
    var n := |units| - 1;
    if j < n {
      k, l := PhaseKeeps(units[..n], p, i, j);
    } else {
      k := PhaseHas(units[..n], p, i);
      l := |InPhases(units[..n], {p})|;
    }
  }

  lemma {:induction false} PhaseHas(units: seq<Unit>, p: nat, i: nat) returns (k: nat)
    requires i < |units| && units[i].phase == p
    ensures k < |InPhases(units, {p})| && InPhases(units, {p})[k] == units[i]
  {
    var n := |units| - 1;
    if i < n { k := PhaseHas(units[..n], p, i); } else { k := |InPhases(units[..n], {p})|; }
  }

  lemma {:induction false} PhaseMembers(units: seq<Unit>, p: nat)
    ensures forall u :: u in InPhases(units, {p}) <==> u in units && u.phase == p
    ensures Apart(units) ==> Apart(InPhases(units, {p}))
  {
    if units != [] {
      var n := |units| - 1;
      PhaseMembers(units[..n], p);
      assert units == units[..n] + [units[n]];
      if Apart(units) {
        forall u: Unit | u in units[..n] ensures u.ordinal != units[n].ordinal {
          var i :| 0 <= i < n && units[i] == u;
        }
      }
    }
  }

  /** What precedes within a phase precedes in the whole order. */
  lemma PhasePrecedes(ordered: seq<Unit>, stage: seq<Unit>, p: nat, a: Unit, b: Unit, diversity: bool)
    requires forall u :: u in stage <==> u in ordered && u.phase == p
    requires a.phase == b.phase == p && Precedes(stage, a, b, diversity)
    ensures Precedes(ordered, a, b, diversity)
  {
    forall u: Unit | u.phase == p ensures Turn(stage, u) == Turn(ordered, u) {
      assert (set v | v in stage && v.phase == u.phase && v.topic == u.topic && ComesBefore(v, u))
        == set v | v in ordered && v.phase == u.phase && v.topic == u.topic && ComesBefore(v, u);
    }
    hide Turn, ComesBefore;
    if Leads(stage, a, b) {
      var v :| v in stage && v.phase == a.phase && v.topic == a.topic
        && forall w :: w in stage && w.phase == b.phase && w.topic == b.topic ==> ComesBefore(v, w);
      assert v in ordered;
    }
  }

  /** The whole order: by phase, and within a phase by rank or in turns. */
  lemma OrderTold(units: seq<Unit>, ordered: seq<Unit>, diversity: bool)
    requires Apart(units) && ByPhase(ordered) && multiset(ordered) == multiset(units)
    requires forall p :: InPhases(ordered, {p}) == StageOrder(InPhases(units, {p}), diversity)
    ensures OrderTells(ordered, diversity)
  {
    hide StageOrder, InPhases, Precedes, OrderTells, Apart;
    forall i, j | 0 <= i < j < |ordered| ensures Precedes(ordered, ordered[i], ordered[j], diversity) {
      if ordered[i].phase < ordered[j].phase {
        EarlierPhase(ordered, ordered[i], ordered[j], diversity);
      } else {
        assert ordered[i].phase == ordered[j].phase;
        SamePhaseTold(units, ordered, i, j, diversity);
      }
    }
    AllPrecede(ordered, diversity);
  }

  lemma EarlierPhase(units: seq<Unit>, a: Unit, b: Unit, diversity: bool)
    requires a.phase < b.phase
    ensures Precedes(units, a, b, diversity)
  {}

  lemma AllPrecede(ordered: seq<Unit>, diversity: bool)
    requires forall i, j :: 0 <= i < j < |ordered| ==> Precedes(ordered, ordered[i], ordered[j], diversity)
    ensures OrderTells(ordered, diversity)
  {}

  lemma SamePhaseTold(units: seq<Unit>, ordered: seq<Unit>, i: nat, j: nat, diversity: bool)
    requires Apart(units) && i < j < |ordered| && ordered[i].phase == ordered[j].phase
    requires InPhases(ordered, {ordered[i].phase}) == StageOrder(InPhases(units, {ordered[i].phase}), diversity)
    ensures Precedes(ordered, ordered[i], ordered[j], diversity)
  {
    hide StageOrder, InPhases, Precedes, Apart;
    var p := ordered[i].phase;
    var stage := InPhases(ordered, {p});
    PhaseMembers(units, p);
    PhaseMembers(ordered, p);
    StageTells(InPhases(units, {p}), stage, diversity);
    var k, l := PhaseKeeps(ordered, p, i, j);
    PhasePrecedes(ordered, stage, p, stage[k], stage[l], diversity);
  }
}
