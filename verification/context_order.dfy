/** The order in which units compete: by phase, and within a phase round robin over topics. */
module ContextOrder {
  import opened ContextHierarchy
  import opened Wrappers

  datatype Kind = SUMMARY | DETAIL

  /** A piece of context. The ordinal is its place among all units, and identifies it. */
  datatype Unit = Unit(
    ordinal: nat, sourceId: string, topic: string, tokens: nat, kind: Kind, parentId: Option<string>,
    dedupeKey: string, score: real, depth: nat, phase: nat)

  function CompareUnits(left: Unit, right: Unit): int {
    if left.kind != right.kind then (if left.kind == SUMMARY then -1 else 1)
    else if left.score != right.score then (if left.score > right.score then -1 else 1)
    else if left.tokens != right.tokens then left.tokens - right.tokens
    else left.ordinal - right.ordinal
  }

  predicate NotAfter(a: Unit, b: Unit) { CompareUnits(a, b) <= 0 }

  lemma NotAfterTransitive(a: Unit, b: Unit, c: Unit)
    requires NotAfter(a, b) && NotAfter(b, c)
    ensures NotAfter(a, c)
  {}

  lemma NotAfterTotal(a: Unit, b: Unit)
    ensures NotAfter(a, b) || NotAfter(b, a)
  {}

  ghost predicate Sorted(units: seq<Unit>) { forall i, j :: 0 <= i < j < |units| ==> NotAfter(units[i], units[j]) }

  function InsertUnit(u: Unit, units: seq<Unit>): seq<Unit> {
    if units == [] || NotAfter(u, units[0]) then [u] + units else [units[0]] + InsertUnit(u, units[1..])
  }

  function SortUnits(units: seq<Unit>): seq<Unit> {
    if units == [] then [] else InsertUnit(units[0], SortUnits(units[1..]))
  }

  lemma {:induction false} InsertUnitOk(u: Unit, units: seq<Unit>)
    requires Sorted(units)
    ensures Sorted(InsertUnit(u, units)) && multiset(InsertUnit(u, units)) == multiset(units) + multiset{u}
  {
    if units == [] {
    } else if NotAfter(u, units[0]) {
      forall j | 0 <= j < |units| ensures NotAfter(u, units[j]) {
        if j > 0 { NotAfterTransitive(u, units[0], units[j]); }
      }
    } else {
      NotAfterTotal(u, units[0]);
      InsertUnitOk(u, units[1..]);
      assert units == [units[0]] + units[1..];
      var rest := InsertUnit(u, units[1..]);
      forall j | 0 <= j < |rest| ensures NotAfter(units[0], rest[j]) {
        assert rest[j] in multiset(rest);
        if rest[j] != u { assert rest[j] in units[1..]; }
      }
    }
  }

  lemma {:induction false} SortUnitsOk(units: seq<Unit>)
    ensures Sorted(SortUnits(units)) && multiset(SortUnits(units)) == multiset(units)
  {
    if units != [] {
      SortUnitsOk(units[1..]);
      InsertUnitOk(units[0], SortUnits(units[1..]));
      assert units == [units[0]] + units[1..];
    }
  }

  // ---- round robin ----------------------------------------------------------------------

  /** The first unit of every queue that still has one. */
  function Heads(queues: seq<seq<Unit>>): seq<Unit> {
    if queues == [] then []
    else Heads(queues[..|queues| - 1]) + (if queues[|queues| - 1] == [] then [] else [queues[|queues| - 1][0]])
  }

  function Tails(queues: seq<seq<Unit>>): seq<seq<Unit>> {
    if queues == [] then []
    else Tails(queues[..|queues| - 1]) + [if queues[|queues| - 1] == [] then [] else queues[|queues| - 1][1..]]
  }

  function All(queues: seq<seq<Unit>>): multiset<Unit> {
    if queues == [] then multiset{} else All(queues[..|queues| - 1]) + multiset(queues[|queues| - 1])
  }

  lemma Sums(a: multiset<Unit>, h: multiset<Unit>, t: multiset<Unit>, q: multiset<Unit>, x: multiset<Unit>,
             y: multiset<Unit>)
    requires a == h + t && q == x + y
    ensures a + q == (h + x) + (t + y)
  {}

  lemma HeadAndTail(q: seq<Unit>)
    requires q != []
    ensures multiset(q) == multiset([q[0]]) + multiset(q[1..])
  {
    assert q == [q[0]] + q[1..];
  }

  lemma HeadsPush(queues: seq<seq<Unit>>, q: seq<Unit>)
    ensures q == [] ==>
              && multiset(Heads(queues + [q])) == multiset(Heads(queues)) + multiset{}
              && Tails(queues + [q]) == Tails(queues) + [[]]
    ensures q != [] ==>
              && multiset(Heads(queues + [q])) == multiset(Heads(queues)) + multiset([q[0]])
              && Tails(queues + [q]) == Tails(queues) + [q[1..]]
    ensures Heads(queues + [q]) == [] <==> Heads(queues) == [] && q == []
  {
    assert (queues + [q])[..|queues|] == queues;
  }

  /** A round takes the head of each queue and keeps the rest. */
  ghost predicate RoundExact(queues: seq<seq<Unit>>) {
    && All(queues) == multiset(Heads(queues)) + All(Tails(queues))
    && |Tails(queues)| == |queues|
    && (Heads(queues) == [] <==> |All(queues)| == 0)
  }

  lemma RoundOfNone()
    ensures RoundExact([])
  {}

  lemma RoundOfMore(before: seq<seq<Unit>>, q: seq<Unit>)
    requires RoundExact(before)
    ensures RoundExact(before + [q])
  {
    hide All, Heads, Tails;
    AllPush(before, q);
    HeadsPush(before, q);
    var tail := if q == [] then [] else q[1..];
    AllPush(Tails(before), tail);
    if q != [] { HeadAndTail(q); }
    Sums(All(before), multiset(Heads(before)), All(Tails(before)), multiset(q),
         if q == [] then multiset{} else multiset([q[0]]), multiset(tail));
  }

  lemma {:induction false} RoundKeepsAll(queues: seq<seq<Unit>>)
    ensures All(queues) == multiset(Heads(queues)) + All(Tails(queues))
    ensures |Tails(queues)| == |queues| && |All(queues)| == |Heads(queues)| + |All(Tails(queues))|
    ensures Heads(queues) == [] <==> |All(queues)| == 0
  {
    hide All, Heads, Tails;
    if queues == [] {
      RoundOfNone();
    } else {
      RoundKeepsAll(queues[..|queues| - 1]);
      RoundOfMore(queues[..|queues| - 1], queues[|queues| - 1]);
      assert queues == queues[..|queues| - 1] + [queues[|queues| - 1]];
    }
    Counted(All(queues), Heads(queues), All(Tails(queues)));
  }

  lemma Counted(a: multiset<Unit>, h: seq<Unit>, t: multiset<Unit>)
    requires a == multiset(h) + t
    ensures |a| == |h| + |t|
  {
    assert |multiset(h)| == |h|;
  }

  /** One unit from each queue in turn until all are empty. */
  function RoundRobin(queues: seq<seq<Unit>>): seq<Unit>
    decreases |All(queues)|
  {
    RoundKeepsAll(queues);
    if |All(queues)| == 0 then [] else Heads(queues) + RoundRobin(Tails(queues))
  }

  lemma {:induction false} RoundRobinPermutes(queues: seq<seq<Unit>>)
    ensures multiset(RoundRobin(queues)) == All(queues)
    decreases |All(queues)|
  {
    RoundKeepsAll(queues);
    if |All(queues)| > 0 { RoundRobinPermutes(Tails(queues)); }
  }

  method OneRound(queues: seq<seq<Unit>>) returns (heads: seq<Unit>, rest: seq<seq<Unit>>)
    ensures heads == Heads(queues) && rest == Tails(queues)
  {
    heads, rest := [], [];
    for i := 0 to |queues|
      invariant heads == Heads(queues[..i]) && rest == Tails(queues[..i])
    {
      assert queues[..i + 1][..i] == queues[..i];
      if |queues[i]| == 0 {
        rest := rest + [[]];
      } else {
        heads := heads + [queues[i][0]];
        rest := rest + [queues[i][1..]];
      }
    }
    assert queues[..|queues|] == queues;
  }

  method TakeTurns(groups: seq<seq<Unit>>, total: nat) returns (ordered: seq<Unit>)
    requires total == |All(groups)|
    ensures ordered == RoundRobin(groups)
  {
    hide All, Heads, Tails, RoundRobin;
    ordered := [];
    var queues, remaining := groups, total;
    RoundAppends([], [], RoundRobin(groups));
    while remaining > 0
      invariant remaining == |All(queues)|
      invariant ordered + RoundRobin(queues) == RoundRobin(groups)
      decreases remaining
    {
      RoundRobinStep(queues);
      RoundAppends(ordered, Heads(queues), RoundRobin(Tails(queues)));
      var heads, rest := OneRound(queues);
      ordered := ordered + heads;
      queues, remaining := rest, remaining - |heads|;
    }
    RoundRobinStep(queues);
    RoundAppends([], ordered, RoundRobin(queues));
  }

  lemma RoundRobinStep(queues: seq<seq<Unit>>)
    ensures |All(queues)| > 0 ==> RoundRobin(queues) == Heads(queues) + RoundRobin(Tails(queues))
    ensures |All(queues)| > 0 ==> |Heads(queues)| > 0
    ensures |All(queues)| == 0 ==> RoundRobin(queues) == []
    ensures |All(queues)| == |Heads(queues)| + |All(Tails(queues))|
  {
    RoundKeepsAll(queues);
  }

  lemma RoundAppends(a: seq<Unit>, b: seq<Unit>, c: seq<Unit>)
    ensures (a + b) + c == a + (b + c) && [] + b == b && b + [] == b
  {}

  // ---- topics ---------------------------------------------------------------------------

  /** One queue a topic, each in the order of the units. */
  ghost predicate Grouped(topics: seq<string>, groups: seq<seq<Unit>>) {
    && |topics| == |groups|
    && (forall i, j :: 0 <= i < j < |topics| ==> topics[i] != topics[j])
    && (forall i, j :: 0 <= i < |groups| && 0 <= j < |groups[i]| ==> groups[i][j].topic == topics[i])
    && (forall i :: 0 <= i < |groups| ==> groups[i] != [])
  }

  lemma {:induction false} AllUpdate(groups: seq<seq<Unit>>, i: nat, u: Unit)
    requires i < |groups|
    ensures All(groups[i := groups[i] + [u]]) == All(groups) + multiset{u}
  {
    var n := |groups| - 1;
    var now := groups[i := groups[i] + [u]];
    if i == n {
      assert now[..n] == groups[..n];
    } else {
      assert now[..n] == groups[..n][i := groups[..n][i] + [u]];
      AllUpdate(groups[..n], i, u);
    }
  }

  lemma AllPush(groups: seq<seq<Unit>>, group: seq<Unit>)
    ensures All(groups + [group]) == All(groups) + multiset(group)
  {
    assert (groups + [group])[..|groups|] == groups;
  }

  /** The topics in the order of their first units. */
  function TopicsOf(units: seq<Unit>): seq<string> {
    if units == [] then []
    else
      var before, last := TopicsOf(units[..|units| - 1]), units[|units| - 1].topic;
      if last in before then before else before + [last]
  }

  function OfTopic(units: seq<Unit>, topic: string): seq<Unit> {
    if units == [] then []
    else OfTopic(units[..|units| - 1], topic) + (if units[|units| - 1].topic == topic then [units[|units| - 1]] else [])
  }

  function GroupsOf(units: seq<Unit>): (groups: seq<seq<Unit>>)
    ensures |groups| == |TopicsOf(units)|
    ensures forall i :: 0 <= i < |groups| ==> groups[i] == OfTopic(units, TopicsOf(units)[i])
  {
    var topics := TopicsOf(units);
    seq(|topics|, i requires 0 <= i < |topics| => OfTopic(units, topics[i]))
  }

  method FindTopic(topics: seq<string>, topic: string) returns (i: nat)
    ensures i <= |topics| && (i < |topics| ==> topics[i] == topic) && (i == |topics| ==> topic !in topics)
  {
    i := 0;
    while i < |topics| && topics[i] != topic
      invariant i <= |topics| && forall j :: 0 <= j < i ==> topics[j] != topic
    { i := i + 1; }
  }

  lemma {:induction false} NoUnitOf(units: seq<Unit>, topic: string)
    requires topic !in TopicsOf(units)
    ensures OfTopic(units, topic) == []
  {
    if units != [] { NoUnitOf(units[..|units| - 1], topic); }
  }

  lemma OfTopicPush(units: seq<Unit>, u: Unit, topic: string)
    ensures OfTopic(units + [u], topic)
            == if u.topic == topic then OfTopic(units, topic) + [u] else OfTopic(units, topic)
  {
    assert (units + [u])[..|units|] == units;
  }

  lemma PushTopic(units: seq<Unit>, u: Unit)
    ensures TopicsOf(units + [u]) == if u.topic in TopicsOf(units) then TopicsOf(units) else TopicsOf(units) + [u.topic]
  {
    assert (units + [u])[..|units|] == units;
  }

  /** One more unit of a known topic goes to the end of its group. */
  lemma KnownTopic(units: seq<Unit>, u: Unit, i: nat)
    requires Grouped(TopicsOf(units), GroupsOf(units)) && i < |TopicsOf(units)| && TopicsOf(units)[i] == u.topic
    ensures TopicsOf(units + [u]) == TopicsOf(units)
    ensures GroupsOf(units + [u]) == GroupsOf(units)[i := GroupsOf(units)[i] + [u]]
  {
    PushTopic(units, u);
    hide OfTopic, TopicsOf;
    var topics, more, want := TopicsOf(units), GroupsOf(units + [u]), GroupsOf(units)[i := GroupsOf(units)[i] + [u]];
    assert |more| == |want|;
    forall j | 0 <= j < |more| ensures more[j] == want[j] { OfTopicPush(units, u, topics[j]); }
  }

  /** One more unit of a new topic makes a group of its own. */
  lemma NewTopic(units: seq<Unit>, u: Unit)
    requires Grouped(TopicsOf(units), GroupsOf(units)) && u.topic !in TopicsOf(units)
    ensures TopicsOf(units + [u]) == TopicsOf(units) + [u.topic] && GroupsOf(units + [u]) == GroupsOf(units) + [[u]]
  {
    PushTopic(units, u);
    NoUnitOf(units, u.topic);
    hide OfTopic, TopicsOf;
    var topics, more, want := TopicsOf(units), GroupsOf(units + [u]), GroupsOf(units) + [[u]];
    assert |more| == |want|;
    forall j | 0 <= j < |more| ensures more[j] == want[j] {
      OfTopicPush(units, u, TopicsOf(units + [u])[j]);
      if j < |topics| { assert TopicsOf(units + [u])[j] == topics[j]; }
    }
  }

  lemma GroupedPush(topics: seq<string>, groups: seq<seq<Unit>>, i: nat, u: Unit)
    requires Grouped(topics, groups)
    ensures i < |topics| && topics[i] == u.topic ==>
              Grouped(topics, groups[i := groups[i] + [u]]) &&
                All(groups[i := groups[i] + [u]]) == All(groups) + multiset{u}
    ensures u.topic !in topics ==>
              Grouped(topics + [u.topic], groups + [[u]]) && All(groups + [[u]]) == All(groups) + multiset{u}
  {
    hide All, Grouped;
    OneGroupEach(topics, groups);
    if i < |topics| { AllUpdate(groups, i, u); }
    AllPush(groups, [u]);
    GroupGrows(topics, groups, i, u);
    GroupAdded(topics, groups, u);
  }

  lemma OneGroupEach(topics: seq<string>, groups: seq<seq<Unit>>)
    requires Grouped(topics, groups)
    ensures |topics| == |groups|
  {}

  lemma GroupGrows(topics: seq<string>, groups: seq<seq<Unit>>, i: nat, u: Unit)
    requires Grouped(topics, groups)
    ensures i < |topics| && topics[i] == u.topic ==> Grouped(topics, groups[i := groups[i] + [u]])
  {}

  lemma GroupAdded(topics: seq<string>, groups: seq<seq<Unit>>, u: Unit)
    requires Grouped(topics, groups)
    ensures u.topic !in topics ==> Grouped(topics + [u.topic], groups + [[u]])
  {}

  lemma {:induction false} GroupsAre(units: seq<Unit>)
    ensures Grouped(TopicsOf(units), GroupsOf(units)) && All(GroupsOf(units)) == multiset(units)
  {
    if units != [] {
      var before, u := units[..|units| - 1], units[|units| - 1];
      assert units == before + [u];
      GroupsAre(before);
      hide OfTopic, TopicsOf, GroupsOf, All, Grouped;
      var topics, groups := TopicsOf(before), GroupsOf(before);
      if u.topic in topics {
        var i :| 0 <= i < |topics| && topics[i] == u.topic;
        KnownTopic(before, u, i);
        GroupedPush(topics, groups, i, u);
      } else {
        NewTopic(before, u);
        GroupedPush(topics, groups, 0, u);
      }
    }
  }

  /** The units of each topic, in order, for each topic in the order of its first unit. */
  method GroupByTopic(units: seq<Unit>) returns (topics: seq<string>, groups: seq<seq<Unit>>)
    ensures topics == TopicsOf(units) && groups == GroupsOf(units)
    ensures Grouped(topics, groups) && All(groups) == multiset(units)
  {
    hide Grouped, TopicsOf, OfTopic, GroupsOf;
    topics, groups := [], [];
    assert units[..0] == [];
    NoGroups();
    for k := 0 to |units|
      invariant topics == TopicsOf(units[..k]) && groups == GroupsOf(units[..k]) && |topics| == |groups|
    {
      assert units[..k + 1] == units[..k] + [units[k]];
      GroupsAre(units[..k]);
      var i := FindTopic(topics, units[k].topic);
      if i < |topics| {
        KnownTopic(units[..k], units[k], i);
        groups := groups[i := groups[i] + [units[k]]];
      } else {
        NewTopic(units[..k], units[k]);
        topics := topics + [units[k].topic];
        groups := groups + [[units[k]]];
      }
    }
    assert units[..|units|] == units;
    GroupsAre(units);
  }

  lemma NoGroups()
    ensures TopicsOf([]) == [] && GroupsOf([]) == []
  {}

  /** The order of the groups: by their first units. */
  function InsertGroup(g: seq<Unit>, groups: seq<seq<Unit>>): seq<seq<Unit>>
    requires g != [] && forall i :: 0 <= i < |groups| ==> groups[i] != []
    ensures forall i :: 0 <= i < |InsertGroup(g, groups)| ==> InsertGroup(g, groups)[i] != []
  {
    if groups == [] || NotAfter(g[0], groups[0][0]) then [g] + groups else [groups[0]] + InsertGroup(g, groups[1..])
  }

  function SortGroups(groups: seq<seq<Unit>>): seq<seq<Unit>>
    requires forall i :: 0 <= i < |groups| ==> groups[i] != []
    ensures forall i :: 0 <= i < |SortGroups(groups)| ==> SortGroups(groups)[i] != []
  {
    if groups == [] then [] else InsertGroup(groups[0], SortGroups(groups[1..]))
  }

  lemma {:induction false} AllFront(g: seq<Unit>, groups: seq<seq<Unit>>)
    ensures All([g] + groups) == multiset(g) + All(groups)
  {
    if groups == [] {
      assert [g] + groups == [g] && [g][..0] == [];
      assert All([g]) == All([g][..0]) + multiset(g);
    } else {
      var n := |groups| - 1;
      assert ([g] + groups)[..n + 1] == [g] + groups[..n];
      AllFront(g, groups[..n]);
    }
  }

  lemma {:induction false} InsertGroupAll(g: seq<Unit>, groups: seq<seq<Unit>>)
    requires g != [] && forall i :: 0 <= i < |groups| ==> groups[i] != []
    ensures All(InsertGroup(g, groups)) == multiset(g) + All(groups)
  {
    AllFront(g, groups);
    if groups != [] && !NotAfter(g[0], groups[0][0]) {
      InsertGroupAll(g, groups[1..]);
      AllFront(groups[0], InsertGroup(g, groups[1..]));
      AllFront(groups[0], groups[1..]);
      assert groups == [groups[0]] + groups[1..];
    }
  }

  lemma {:induction false} SortGroupsAll(groups: seq<seq<Unit>>)
    requires forall i :: 0 <= i < |groups| ==> groups[i] != []
    ensures All(SortGroups(groups)) == All(groups)
  {
    if groups != [] {
      SortGroupsAll(groups[1..]);
      InsertGroupAll(groups[0], SortGroups(groups[1..]));
      AllFront(groups[0], groups[1..]);
      assert groups == [groups[0]] + groups[1..];
    }
  }

  // ---- stages ---------------------------------------------------------------------------

  function InPhases(units: seq<Unit>, phases: set<nat>): seq<Unit> {
    if units == [] then []
    else
      InPhases(units[..|units| - 1], phases)
      + (if units[|units| - 1].phase in phases then [units[|units| - 1]] else [])
  }

  lemma {:induction false} InPhasesAdd(units: seq<Unit>, phases: set<nat>, p: nat)
    requires p !in phases
    ensures multiset(InPhases(units, phases + {p})) ==
              multiset(InPhases(units, phases)) + multiset(InPhases(units, {p}))
  {
    if units != [] { InPhasesAdd(units[..|units| - 1], phases, p); }
  }

  lemma InPhasesPush(units: seq<Unit>, u: Unit, phases: set<nat>)
    ensures InPhases(units + [u], phases) == InPhases(units, phases) + if u.phase in phases then [u] else []
  {
    assert (units + [u])[..|units|] == units;
  }

  lemma NoUnits(phases: set<nat>)
    ensures InPhases([], phases) == []
  {}

  lemma {:induction false} InPhasesAll(units: seq<Unit>, phases: set<nat>)
    ensures (forall i :: 0 <= i < |units| ==> units[i].phase in phases) ==> InPhases(units, phases) == units
    ensures forall u :: u in InPhases(units, phases) ==> u.phase in phases
  {
    hide InPhases;
    if units == [] {
      NoUnits(phases);
    } else {
      var before, u := units[..|units| - 1], units[|units| - 1];
      InPhasesAll(before, phases);
      InPhasesPush(before, u, phases);
      assert units == before + [u];
    }
  }

  ghost predicate ByPhase(units: seq<Unit>) { forall i, j :: 0 <= i < j < |units| ==> units[i].phase <= units[j].phase }

  lemma StageAdded(ordered: seq<Unit>, stage: seq<Unit>, p: nat)
    requires ByPhase(ordered) && (forall u :: u in ordered ==> u.phase <= p)
    requires (forall u :: u in stage ==> u.phase == p)
    ensures ByPhase(ordered + stage) && forall u :: u in ordered + stage ==> u.phase <= p
  {
    var all := ordered + stage;
    forall i, j | 0 <= i < j < |all| ensures all[i].phase <= all[j].phase {
      if i < |ordered| <= j { assert ordered[i] in ordered && stage[j - |ordered|] in stage; }
    }
  }

  /** The order within one phase: sorted, or round robin over the topics' sorted units. */
  function StageOrder(units: seq<Unit>, diversity: bool): seq<Unit> {
    var sorted := SortUnits(units);
    GroupsAre(sorted);
    if !diversity then sorted else RoundRobin(SortGroups(GroupsOf(sorted)))
  }

  method OrderStage(units: seq<Unit>, diversity: bool) returns (ordered: seq<Unit>)
    ensures ordered == StageOrder(units, diversity)
    ensures multiset(ordered) == multiset(units)
    ensures !diversity ==> Sorted(ordered)
  {
    var stageUnits := SortUnits(units);
    SortUnitsOk(units);
    if !diversity { return stageUnits; }
    GroupsAre(stageUnits);
    var topics, groups := GroupByTopic(stageUnits);
    var entries := SortGroups(groups);
    SortGroupsAll(groups);
    assert |multiset(stageUnits)| == |stageUnits|;
    ordered := TakeTurns(entries, |stageUnits|);
    RoundRobinPermutes(entries);
  }

  function PhasesOf(units: seq<Unit>): set<nat> { set i | 0 <= i < |units| :: units[i].phase }

  /** Orders all units: nothing is lost or repeated, and no unit comes before one of an
      earlier phase. */
  method OrderedUnits(units: seq<Unit>, diversity: bool) returns (ordered: seq<Unit>)
    ensures multiset(ordered) == multiset(units)
    ensures ByPhase(ordered)
    ensures forall p :: InPhases(ordered, {p}) == StageOrder(InPhases(units, {p}), diversity)
  {
    hide Placed, ByPhase, Earlier, PhasesOf, InPhases, StageOrder;
    ordered := [];
    NoneEarlier(units);
    var phases := PhasesOf(units);
    var left := phases;
    ghost var done: set<nat> := {};
    NothingPlaced(units, diversity);
    while left != {}
      invariant done + left == phases && done !! left
      invariant Earlier(done, left)
      invariant Placed(units, ordered, done, diversity)
      decreases |left|
    {
      var p := Least(left);
      NextEarlier(done, left, p);
      var stage := OrderStage(InPhases(units, {p}), diversity);
      PlaceStage(units, ordered, done, diversity, p, stage);
      ordered := ordered + stage;
      left, done := left - {p}, done + {p};
    }
    AllPlaced(units, ordered, done, diversity);
  }

  ghost predicate Earlier(done: set<nat>, left: set<nat>) { forall p, q :: p in done && q in left ==> p < q }

  lemma NoneEarlier(units: seq<Unit>)
    ensures forall left :: Earlier({}, left)
  {}

  lemma NextEarlier(done: set<nat>, left: set<nat>, p: nat)
    requires Earlier(done, left) && p in left && forall q :: q in left ==> p <= q
    ensures Earlier(done + {p}, left - {p}) && forall q :: q in done ==> q < p
  {}

  /** The unit has its depth and phase from a hierarchy in which its chain ends at a root. */
  ghost predicate PhasedBy(parents: Parents, u: Unit) {
    && UnitTells(parents, u.sourceId, u.parentId, Info(u.depth, None))
    && u.phase == u.depth * 2 + if u.kind == SUMMARY then 0 else 1
  }

  /** In every order by phase that has both units, u comes before v. */
  ghost predicate AlwaysBefore(u: Unit, v: Unit) {
    forall ordered: seq<Unit>, i, j {:trigger ordered[i], ordered[j], ByPhase(ordered)} ::
      ByPhase(ordered) && 0 <= i < |ordered| && 0 <= j < |ordered| && ordered[i] == u && ordered[j] == v ==> i < j
  }

  lemma AlwaysBeforeIff(u: Unit, v: Unit)
    ensures AlwaysBefore(u, v) <==> u.phase < v.phase
  {
    if u.phase >= v.phase {
      var ordered := [v, u];
      assert ByPhase(ordered) && ordered[1] == u && ordered[0] == v;
    }
  }

  /** A unit names the source of another one as its parent. It comes after that one in every order
      by phase if and only if the other is less deep, or is a summary as deep as a detail. */
  lemma ParentsCompeteFirstIff(parents: Parents, u: Unit, v: Unit)
    requires PhasedBy(parents, u) && PhasedBy(parents, v) && v.parentId == Some(u.sourceId)
    ensures AlwaysBefore(u, v) <==> u.depth < v.depth || (u.depth == v.depth && u.kind == SUMMARY && v.kind == DETAIL)
  {
    AlwaysBeforeIff(u, v);
  }

  /** It does so if the other unit has the parent of its own source: then it is one deeper. */
  lemma ParentsCompeteFirst(parents: Parents, u: Unit, v: Unit)
    requires PhasedBy(parents, u) && PhasedBy(parents, v) && v.parentId == Some(u.sourceId)
    requires !Overrides(parents, u)
    ensures u.depth + 1 == v.depth && AlwaysBefore(u, v)
  {
    UnitAsDeep(parents, u.sourceId, u.depth);
    var parent :| Tells(parents, u.sourceId, parent) && Info(v.depth, None) == Further(parent);
    OneVerdict(parents, u.sourceId, parent, Info(u.depth, None));
    AlwaysBeforeIff(u, v);
  }

  /** The unit has a parent that is not its source's. */
  predicate Overrides(parents: Parents, u: Unit) { u.sourceId !in parents || u.parentId != parents[u.sourceId] }

  /** B is a child of A, and C and D are roots. */
  const FAMILY: Parents := map["A" := None, "B" := Some("A"), "C" := None, "D" := None]

  /** A unit of C with the parent B is deeper than a unit of D with the parent C. */
  lemma ChildCompetesFirstWitness(u: Unit, v: Unit)
    requires u.sourceId == "C" && u.parentId == Some("B") && u.kind == DETAIL && u.depth == 2 && u.phase == 5
    requires v.sourceId == "D" && v.parentId == Some("C") && v.kind == DETAIL && v.depth == 1 && v.phase == 3
    ensures PhasedBy(FAMILY, u) && PhasedBy(FAMILY, v) && v.parentId == Some(u.sourceId)
    ensures ByPhase([v, u]) && !AlwaysBefore(u, v)
  {
    FamilyTells();
    assert Info(2, None) == Further(Info(1, None)) && Info(1, None) == Further(Info(0, None));
    AlwaysBeforeIff(u, v);
  }

  lemma FamilyTells()
    ensures Tells(FAMILY, "A", Info(0, None)) && Tells(FAMILY, "B", Info(1, None)) && Tells(FAMILY, "C", Info(0, None))
  {
    KnownEnds(FAMILY, "A");
    KnownEnds(FAMILY, "C");
    TellsParent(FAMILY, "B", Info(0, None));
  }

  /** The units of the phases done are in the order, phase by phase, each phase ordered. */
  ghost predicate Placed(units: seq<Unit>, ordered: seq<Unit>, done: set<nat>, diversity: bool) {
    && multiset(ordered) == multiset(InPhases(units, done))
    && ByPhase(ordered) && (forall u :: u in ordered ==> u.phase in done)
    && (forall p :: p in done ==> InPhases(ordered, {p}) == StageOrder(InPhases(units, {p}), diversity))
  }

  lemma NothingPlaced(units: seq<Unit>, diversity: bool)
    ensures Placed(units, [], {}, diversity)
  {
    InPhasesNone(units);
  }

  lemma {:induction false} InPhasesAppend(a: seq<Unit>, b: seq<Unit>, phases: set<nat>)
    ensures InPhases(a + b, phases) == InPhases(a, phases) + InPhases(b, phases)
  {
    if b == [] {
      assert a + b == a;
    } else {
      assert (a + b)[..|a + b| - 1] == a + b[..|b| - 1];
      InPhasesAppend(a, b[..|b| - 1], phases);
    }
  }

  lemma {:induction false} InNoPhase(units: seq<Unit>, phases: set<nat>)
    requires forall u :: u in units ==> u.phase !in phases
    ensures InPhases(units, phases) == []
  {
    if units != [] {
      assert units[|units| - 1] in units && forall u :: u in units[..|units| - 1] ==> u in units;
      InNoPhase(units[..|units| - 1], phases);
    }
  }

  lemma PlaceStage(units: seq<Unit>, ordered: seq<Unit>, done: set<nat>, diversity: bool, p: nat, stage: seq<Unit>)
    requires Placed(units, ordered, done, diversity) && p !in done && forall q :: q in done ==> q < p
    requires multiset(stage) == multiset(InPhases(units, {p})) && stage == StageOrder(InPhases(units, {p}), diversity)
    ensures Placed(units, ordered + stage, done + {p}, diversity)
  {
    InPhasesAll(units, {p});
    InPhasesAdd(units, done, p);
    SamePhase(InPhases(units, {p}), stage, p);
    forall q | q in done + {p} ensures InPhases(ordered + stage, {q}) == StageOrder(InPhases(units, {q}), diversity) {
      hide InPhases, StageOrder, ByPhase;
      PhaseAfter(ordered, stage, done, p, q);
    }
    hide InPhases, StageOrder;
    StageAdded(ordered, stage, p);
  }

  /** Adding the stage of p adds to no other phase. */
  lemma PhaseAfter(ordered: seq<Unit>, stage: seq<Unit>, done: set<nat>, p: nat, q: nat)
    requires p !in done && (forall u :: u in ordered ==> u.phase in done) && (forall u :: u in stage ==> u.phase == p)
    ensures InPhases(ordered + stage, {q}) == if q == p then stage else InPhases(ordered, {q})
  {
    InPhasesAppend(ordered, stage, {q});
    if q == p {
      InNoPhase(ordered, {q});
      InPhasesAll(stage, {q});
      forall i | 0 <= i < |stage| ensures stage[i].phase in {q} { assert stage[i] in stage; }
      assert [] + stage == stage;
    } else {
      InNoPhase(stage, {q});
      assert InPhases(ordered, {q}) + [] == InPhases(ordered, {q});
    }
  }

  lemma AllPlaced(units: seq<Unit>, ordered: seq<Unit>, phases: set<nat>, diversity: bool)
    requires Placed(units, ordered, phases, diversity) && phases == PhasesOf(units)
    ensures multiset(ordered) == multiset(units) && ByPhase(ordered)
    ensures forall p :: InPhases(ordered, {p}) == StageOrder(InPhases(units, {p}), diversity)
  {
    InPhasesAll(units, phases);
    assert forall i :: 0 <= i < |units| ==> units[i].phase in phases;
    forall p ensures InPhases(ordered, {p}) == StageOrder(InPhases(units, {p}), diversity) {
      if p !in phases {
        InNoPhase(units, {p});
        InNoPhase(ordered, {p});
        NoStage(diversity);
      }
    }
  }

  lemma NoStage(diversity: bool)
    ensures StageOrder([], diversity) == []
  {
    NoGroups();
  }

  lemma SamePhase(units: seq<Unit>, stage: seq<Unit>, p: nat)
    requires multiset(units) == multiset(stage) && forall u :: u in units ==> u.phase == p
    ensures forall u :: u in stage ==> u.phase == p
  {
    forall u | u in stage ensures u.phase == p {
      assert u in multiset(stage);
      assert u in multiset(units);
    }
  }

  lemma {:induction false} InPhasesNone(units: seq<Unit>)
    ensures InPhases(units, {}) == []
  {
    if units != [] { InPhasesNone(units[..|units| - 1]); }
  }

  method Least(s: set<nat>) returns (p: nat)
    requires s != {}
    ensures p in s && forall q :: q in s ==> p <= q
  {
    p :| p in s;
    var left := s - {p};
    ghost var seen := {p};
    while left != {}
      invariant seen + left == s && p in s && forall q :: q in seen ==> p <= q
      decreases |left|
    {
      var q :| q in left;
      left, seen := left - {q}, seen + {q};
      if q < p { p := q; }
    }
  }
}
