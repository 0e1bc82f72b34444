/** Selection in a hierarchy of sources: the phases come from the hierarchy, and decide whether a
    unit can be skipped for a parent that is selected after all. */
module ContextEngine {
  import opened ContextHierarchy
  import opened ContextOrder
  import opened ContextSelect
  import opened ContextTurns
  import opened Wrappers

  /** The reason for which a unit does not compete: the first of its freshness and its hierarchy. */
  function BlockedBy(gated: Option<Reason>, issue: Option<Issue>): Option<Reason> {
    if gated.Some? then gated
    else match issue
         case None => None
         case Some(PARENT_MISSING) => Some(Reason.PARENT_MISSING)
         case Some(HIERARCHY_CYCLE) => Some(Reason.HIERARCHY_CYCLE)
  }

  function Phased(u: Unit, depth: nat): Unit {
    u.(depth := depth, phase := depth * 2 + if u.kind == SUMMARY then 0 else 1)
  }

  /** The unit has the depth, the phase and the verdict that the hierarchy of sources gives it. */
  ghost predicate HasPhase(parents: Parents, u: Unit, gated: Option<Reason>, now: Unit,
                           blocked: Option<Reason>) {
    exists info :: UnitTells(parents, u.sourceId, u.parentId, info)
                   && now == u.(depth := now.depth, phase := now.phase) && now.depth == info.depth
                   && now.phase == info.depth + info.depth + (if u.kind == DETAIL then 1 else 0)
                   && BlockTells(gated, info.issue, blocked)
  }

  ghost predicate BlockTells(gated: Option<Reason>, issue: Option<Issue>, blocked: Option<Reason>) {
    && (gated.Some? ==> blocked == gated)
    && (gated.None? ==>
          && (blocked == None <==> issue == None)
          && (blocked == Some(Reason.PARENT_MISSING) <==> issue == Some(Issue.PARENT_MISSING))
          && (blocked == Some(Reason.HIERARCHY_CYCLE) <==> issue == Some(Issue.HIERARCHY_CYCLE)))
  }

  /** Gives every unit its phase. */
  method PhaseUnits(parents: Parents, units: seq<Unit>, gated: seq<Option<Reason>>)
    returns (phased: seq<Unit>, blocked: seq<Option<Reason>>)
    requires |gated| == |units| && InPlaces(units)
    ensures |phased| == |blocked| == |units| && InPlaces(phased)
    ensures forall j :: 0 <= j < |units| ==> HasPhase(parents, units[j], gated[j], phased[j], blocked[j])
  {
    var inspector := new HierarchyInspector(parents);
    phased, blocked := [], [];
    for j := 0 to |units|
      invariant |phased| == |blocked| == j && inspector.visiting == {}
      invariant MemoOk(parents, inspector.memo)
      invariant forall i {:trigger phased[i]} :: 0 <= i < j ==> phased[i].ordinal == i
      invariant forall i :: 0 <= i < j ==> HasPhase(parents, units[i], gated[i], phased[i], blocked[i])
    {
      hide HasPhase, UnitTells, MemoOk;
      var info := inspector.UnitHierarchy(units[j].sourceId, units[j].parentId);
      var now, block := Phased(units[j], info.depth), BlockedBy(gated[j], info.issue);
      PhaseGiven(parents, units[j], gated[j], info);
      phased := phased + [now];
      blocked := blocked + [block];
    }
  }

  lemma PhaseGiven(parents: Parents, u: Unit, gated: Option<Reason>, info: Info)
    requires UnitTells(parents, u.sourceId, u.parentId, info)
    ensures HasPhase(parents, u, gated, Phased(u, info.depth), BlockedBy(gated, info.issue))
  {}

  /** A unit that competes is phased by the hierarchy. */
  lemma CompetitorPhased(parents: Parents, u: Unit, gated: Option<Reason>, now: Unit)
    requires HasPhase(parents, u, gated, now, None)
    ensures PhasedBy(parents, now)
  {
    var info :| UnitTells(parents, u.sourceId, u.parentId, info)
      && now == u.(depth := now.depth, phase := now.phase) && now.depth == info.depth
      && now.phase == info.depth + info.depth + (if u.kind == DETAIL then 1 else 0)
      && BlockTells(gated, info.issue, None);
    hide UnitTells;
    assert info == Info(now.depth, None);
  }

  /** No unit that competes has a parent that is not its source's. */
  ghost predicate NoneOverrides(parents: Parents, units: seq<Unit>, blocked: seq<Option<Reason>>) {
    forall j {:trigger units[j]} :: 0 <= j < |units| && j < |blocked| && blocked[j] == None ==>
      !Overrides(parents, units[j])
  }

  /** Selection with the phases of the hierarchy. If no competing unit has a parent that is not its
      source's, then no unit is skipped for a parent that is selected after all. */
  method SelectInHierarchy(parents: Parents, units: seq<Unit>, gated: seq<Option<Reason>>,
                           limits: Limits, diversity: bool)
    returns (phased: seq<Unit>, blocked: seq<Option<Reason>>, trace: seq<Trace>, selected: seq<Unit>, tokensUsed: nat,
             ghost ordered: seq<Unit>)
    requires InPlaces(units) && |gated| == |units| && forall j :: 0 <= j < |gated| ==> gated[j] != Some(DUPLICATE)
    ensures |phased| == |blocked| == |units|
    ensures forall j :: 0 <= j < |units| ==> HasPhase(parents, units[j], gated[j], phased[j], blocked[j])
    ensures Chosen(phased, blocked, limits, trace, selected)
    ensures Fits(selected, limits) && tokensUsed == Tokens(selected)
    ensures ByPhase(ordered) && multiset(ordered) == multiset(Competing(phased, blocked, trace))
    ensures Judged(ordered, trace, limits, |ordered|) && selected == SelectedBefore(ordered, trace, |ordered|)
    ensures OrderTells(ordered, diversity)
    ensures NoneOverrides(parents, phased, blocked) ==> ParentSkipsFinal(phased, blocked, trace, selected)
  {
    hide HasPhase, Chosen, Fits, Tokens, ByPhase, Competing, Judged, SelectedBefore, InPlaces, ParentsEarly,
         ParentSkipsFinal, StageOrder, InPhases, NoneOverrides, OrderTells;
    phased, blocked := PhaseUnits(parents, units, gated);
    NeverDuplicate(parents, units, gated, phased, blocked);
    trace, selected, tokensUsed, ordered := Select(phased, blocked, limits, diversity);
    ChosenLengths(phased, blocked, limits, trace, selected);
    if NoneOverrides(parents, phased, blocked) {
      ParentsAreEarly(parents, units, gated, phased, blocked, trace, ordered);
    }
  }

  lemma ChosenLengths(units: seq<Unit>, blocked: seq<Option<Reason>>, limits: Limits, trace: seq<Trace>,
                      selected: seq<Unit>)
    requires Chosen(units, blocked, limits, trace, selected)
    ensures |trace| == |units| == |blocked|
  {}

  lemma NeverDuplicate(parents: Parents, units: seq<Unit>, gated: seq<Option<Reason>>,
                       phased: seq<Unit>, blocked: seq<Option<Reason>>)
    requires |units| == |gated| == |phased| == |blocked|
    requires forall j :: 0 <= j < |gated| ==> gated[j] != Some(DUPLICATE)
    requires forall j :: 0 <= j < |units| ==> HasPhase(parents, units[j], gated[j], phased[j], blocked[j])
    ensures forall j :: 0 <= j < |blocked| ==> blocked[j] != Some(DUPLICATE)
  {
    hide UnitTells;
    forall j | 0 <= j < |blocked| ensures blocked[j] != Some(DUPLICATE) {
      assert HasPhase(parents, units[j], gated[j], phased[j], blocked[j]);
      var info: Info :| BlockTells(gated[j], info.issue, blocked[j]);
      NotDuplicate(gated[j], info.issue, blocked[j]);
    }
  }

  lemma NotDuplicate(gated: Option<Reason>, issue: Option<Issue>, blocked: Option<Reason>)
    requires BlockTells(gated, issue, blocked) && gated != Some(DUPLICATE)
    ensures blocked != Some(DUPLICATE)
  {
    match (gated, issue)
    case (Some(reason), _) =>
    case (None, None) =>
    case (None, Some(PARENT_MISSING)) => assert blocked == Some(Reason.PARENT_MISSING);
    case (None, Some(HIERARCHY_CYCLE)) => assert blocked == Some(Reason.HIERARCHY_CYCLE);
  }

  lemma {:induction false} CompetingIs(units: seq<Unit>, blocked: seq<Option<Reason>>, trace: seq<Trace>, u: Unit)
    requires |units| == |blocked| == |trace| && u in Competing(units, blocked, trace)
    ensures exists j :: 0 <= j < |units| && units[j] == u && blocked[j] == None
  {
    var n := |units| - 1;
    if u in Competing(units[..n], blocked[..n], trace[..n]) {
      CompetingIs(units[..n], blocked[..n], trace[..n], u);
      var j :| 0 <= j < n && units[..n][j] == u && blocked[..n][j] == None;
      assert units[j] == u;
    } else {
      assert units[n] == u;
    }
  }

  lemma ParentsAreEarly(parents: Parents, units: seq<Unit>, gated: seq<Option<Reason>>,
                        phased: seq<Unit>, blocked: seq<Option<Reason>>, trace: seq<Trace>, ordered: seq<Unit>)
    requires |units| == |gated| == |phased| == |blocked| == |trace| && NoneOverrides(parents, phased, blocked)
    requires forall j :: 0 <= j < |units| ==> HasPhase(parents, units[j], gated[j], phased[j], blocked[j])
    requires multiset(ordered) == multiset(Competing(phased, blocked, trace))
    ensures ParentsEarly(ordered)
  {
    hide HasPhase, Competing, PhasedBy, Overrides, AlwaysBefore;
    forall u, v | u in ordered && v in ordered && v.parentId == Some(u.sourceId) ensures u.phase < v.phase {
      CompetitorIsPhased(parents, units, gated, phased, blocked, trace, ordered, u);
      CompetitorIsPhased(parents, units, gated, phased, blocked, trace, ordered, v);
      ParentsCompeteFirst(parents, u, v);
      AlwaysBeforeIff(u, v);
    }
  }

  lemma CompetitorIsPhased(parents: Parents, units: seq<Unit>, gated: seq<Option<Reason>>,
                           phased: seq<Unit>, blocked: seq<Option<Reason>>, trace: seq<Trace>, ordered: seq<Unit>,
                           u: Unit)
    requires |units| == |gated| == |phased| == |blocked| == |trace| && NoneOverrides(parents, phased, blocked)
    requires forall j :: 0 <= j < |units| ==> HasPhase(parents, units[j], gated[j], phased[j], blocked[j])
    requires multiset(ordered) == multiset(Competing(phased, blocked, trace)) && u in ordered
    ensures PhasedBy(parents, u) && !Overrides(parents, u)
  {
    hide HasPhase, Competing, PhasedBy, Overrides;
    assert u in multiset(ordered);
    CompetingIs(phased, blocked, trace, u);
    var j :| 0 <= j < |phased| && phased[j] == u && blocked[j] == None;
    CompetitorPhased(parents, units[j], gated[j], phased[j]);
  }

  // ---- a child that is judged before its parent ----------------------------------------------

  /** A unit of A, one of its child B, a detail of D that names C, and a detail of C that names B. */
  const FAMILY_UNITS: seq<Unit> :=
    [Unit(0, "A", "", 1, SUMMARY, None, "a", 0.0, 0, 0), Unit(1, "B", "", 1, SUMMARY, Some("A"), "b", 0.0, 0, 0),
     Unit(2, "D", "", 1, DETAIL, Some("C"), "v", 0.0, 0, 0), Unit(3, "C", "", 1, DETAIL, Some("B"), "u", 0.0, 0, 0)]

  const FAMILY_DEPTHS: seq<nat> := [0, 1, 1, 2]

  const ROOMY: Limits := Limits(4, None, None)

  /** The detail of D is skipped because C has not been selected, and then C is selected. */
  method ChildSkippedFirstWitness()
    returns (phased: seq<Unit>, blocked: seq<Option<Reason>>, trace: seq<Trace>, selected: seq<Unit>)
    ensures |phased| == |blocked| == 4
    ensures forall j :: 0 <= j < 4 ==> HasPhase(FAMILY, FAMILY_UNITS[j], None, phased[j], blocked[j])
    ensures Chosen(phased, blocked, ROOMY, trace, selected) && Fits(selected, ROOMY)
    ensures trace[2] == Skipped(PARENT_NOT_SELECTED, None) && phased[2].parentId == Some("C")
    ensures "C" in Sources(selected) && !ParentSkipsFinal(phased, blocked, trace, selected)
  {
    hide HasPhase, Chosen, Fits, Tokens, ByPhase, Competing, Judged, SelectedBefore, ParentSkipsFinal, NoneOverrides,
         Sources;
    var tokensUsed; ghost var ordered;
    phased, blocked, trace, selected, tokensUsed, ordered :=
      SelectInHierarchy(FAMILY, FAMILY_UNITS, [None, None, None, None], ROOMY, false);
    FamilyPhased(phased, blocked);
    ChosenLengths(phased, blocked, ROOMY, trace, selected);
    OwnKeysCompete(phased, blocked, ROOMY, trace, selected);
    InOrder(ordered, phased);
    JudgeFamily(phased, trace);
    SkipNotFinal(phased, blocked, trace, selected);
  }

  lemma SkipNotFinal(phased: seq<Unit>, blocked: seq<Option<Reason>>, trace: seq<Trace>, selected: seq<Unit>)
    requires |phased| == |blocked| == |trace| == 4 && blocked[2] == None
    requires trace[2] == Skipped(PARENT_NOT_SELECTED, None) && phased[2].parentId == Some("C")
    requires "C" in Sources(selected)
    ensures !ParentSkipsFinal(phased, blocked, trace, selected)
  {
    hide Sources;
  }

  lemma FamilyPhased(phased: seq<Unit>, blocked: seq<Option<Reason>>)
    requires |phased| == |blocked| == 4
    requires forall j :: 0 <= j < 4 ==> HasPhase(FAMILY, FAMILY_UNITS[j], None, phased[j], blocked[j])
    ensures forall j :: 0 <= j < 4 ==> phased[j] == Phased(FAMILY_UNITS[j], FAMILY_DEPTHS[j]) && blocked[j] == None
  {
    forall j | 0 <= j < 4
      ensures phased[j] == Phased(FAMILY_UNITS[j], FAMILY_DEPTHS[j]) && blocked[j] == None
    {
      FamilyTold(j);
      PhaseIs(FAMILY, FAMILY_UNITS[j], phased[j], blocked[j], FAMILY_DEPTHS[j]);
    }
  }

  lemma FamilyTold(j: nat)
    requires j < 4
    ensures var u := FAMILY_UNITS[j];
            UnitTells(FAMILY, u.sourceId, u.parentId, Info(FAMILY_DEPTHS[j], None))
  {
    FamilyTells();
    hide Tells;
    assert Further(Info(0, None)) == Info(1, None);
    assert Further(Info(1, None)) == Info(2, None);
  }

  lemma PhaseIs(parents: Parents, u: Unit, now: Unit, blocked: Option<Reason>, depth: nat)
    requires HasPhase(parents, u, None, now, blocked)
    requires UnitTells(parents, u.sourceId, u.parentId, Info(depth, None))
    ensures now == Phased(u, depth) && blocked == None
  {
    hide UnitTells;
    var info :| UnitTells(parents, u.sourceId, u.parentId, info)
      && now == u.(depth := now.depth, phase := now.phase) && now.depth == info.depth
      && now.phase == info.depth + info.depth + (if u.kind == DETAIL then 1 else 0)
      && BlockTells(None, info.issue, blocked);
    OneUnitVerdict(parents, u.sourceId, u.parentId, info, Info(depth, None));
  }

  /** Units with keys of their own all compete when none is blocked. */
  lemma OwnKeysCompete(units: seq<Unit>, blocked: seq<Option<Reason>>, limits: Limits, trace: seq<Trace>,
                       selected: seq<Unit>)
    requires |units| == |blocked| == |trace| && Chosen(units, blocked, limits, trace, selected)
    requires forall j :: 0 <= j < |units| ==> blocked[j] == None
    requires forall i, j :: 0 <= i < j < |units| ==> units[i].dedupeKey != units[j].dedupeKey
    ensures Competing(units, blocked, trace) == units
  {
    hide BeatenByCompetitor, LeftOut;
    forall j | 0 <= j < |units| ensures !(trace[j].Skipped? && trace[j].reason == DUPLICATE) {
      NotBeaten(units, blocked, trace, j);
    }
    AllCompete(units, blocked, trace);
  }

  lemma NotBeaten(units: seq<Unit>, blocked: seq<Option<Reason>>, trace: seq<Trace>, j: nat)
    requires |units| == |blocked| == |trace| && j < |units|
    requires forall i, k :: 0 <= i < k < |units| ==> units[i].dedupeKey != units[k].dedupeKey
    ensures !BeatenByCompetitor(units, blocked, trace, j)
  {
    assert forall w {:trigger units[w]} :: 0 <= w < |units| && units[w].dedupeKey == units[j].dedupeKey ==> w == j;
  }

  lemma {:induction false} AllCompete(units: seq<Unit>, blocked: seq<Option<Reason>>, trace: seq<Trace>)
    requires |units| == |blocked| == |trace|
    requires forall j :: 0 <= j < |units| ==> blocked[j] == None
    requires forall j :: 0 <= j < |units| ==> !(trace[j].Skipped? && trace[j].reason == DUPLICATE)
    ensures Competing(units, blocked, trace) == units
  {
    if units != [] {
      var n := |units| - 1;
      AllCompete(units[..n], blocked[..n], trace[..n]);
      assert units == units[..n] + [units[n]];
    }
  }

  /** Units of different phases have one order by phase. */
  lemma {:induction false} InOrder(a: seq<Unit>, b: seq<Unit>)
    requires multiset(a) == multiset(b) && ByPhase(a)
    requires forall i, j :: 0 <= i < j < |b| ==> b[i].phase < b[j].phase
    ensures a == b
    decreases |b|
  {
    assert |a| == |multiset(a)| == |multiset(b)| == |b|;
    if b != [] {
      SameFirst(a, b);
      assert a == [a[0]] + a[1..] && b == [b[0]] + b[1..];
      RestSame(a, b);
      InOrder(a[1..], b[1..]);
    }
  }

  lemma SameFirst(a: seq<Unit>, b: seq<Unit>)
    requires multiset(a) == multiset(b) && ByPhase(a) && a != [] && b != []
    requires forall i, j :: 0 <= i < j < |b| ==> b[i].phase < b[j].phase
    ensures a[0] == b[0]
  {
    assert b[0] in multiset(a) && a[0] in multiset(b);
    var i :| 0 <= i < |a| && a[i] == b[0];
    var j :| 0 <= j < |b| && b[j] == a[0];
    assert a[0].phase <= a[i].phase;
  }

  lemma RestSame(a: seq<Unit>, b: seq<Unit>)
    requires a != [] && b != [] && multiset(a) == multiset(b) && a[0] == b[0]
    requires a == [a[0]] + a[1..] && b == [b[0]] + b[1..]
    ensures multiset(a[1..]) == multiset(b[1..])
  {
    assert multiset(a[1..]) == multiset(a) - multiset{a[0]};
    assert multiset(b[1..]) == multiset(b) - multiset{b[0]};
  }

  lemma NextSelected(ordered: seq<Unit>, trace: seq<Trace>, limits: Limits, n: nat)
    requires Judged(ordered, trace, limits, |ordered|) && n < |ordered|
    ensures var before, u := SelectedBefore(ordered, trace, n), ordered[n];
            && u.ordinal < |trace| && trace[u.ordinal] == Verdict(u, before, limits)
            && SelectedBefore(ordered, trace, n + 1)
               == if Verdict(u, before, limits).Selected? then before + [u] else before
  {
    assert JudgedAt(ordered, trace, limits, n);
  }

  lemma JudgeFamily(ordered: seq<Unit>, trace: seq<Trace>)
    requires |ordered| == 4 && Judged(ordered, trace, ROOMY, 4)
    requires forall j :: 0 <= j < 4 ==> ordered[j] == Phased(FAMILY_UNITS[j], FAMILY_DEPTHS[j])
    ensures |trace| > 2 && trace[2] == Skipped(PARENT_NOT_SELECTED, None)
    ensures "C" in Sources(SelectedBefore(ordered, trace, 4))
  {
    hide Judged, SelectedBefore, Sources, Tokens, Verdict;
    var a, b, v, u := ordered[0], ordered[1], ordered[2], ordered[3];
    Totals(a, b, u);
    FamilyVerdicts(a, b, v, u);
    NothingJudged(ordered, trace, ROOMY);
    NextSelected(ordered, trace, ROOMY, 0);
    NextSelected(ordered, trace, ROOMY, 1);
    NextSelected(ordered, trace, ROOMY, 2);
    NextSelected(ordered, trace, ROOMY, 3);
  }

  lemma FamilyVerdicts(a: Unit, b: Unit, v: Unit, u: Unit)
    requires [a, b, v, u] == seq(4, j requires 0 <= j < 4 => Phased(FAMILY_UNITS[j], FAMILY_DEPTHS[j]))
    ensures Verdict(a, [], ROOMY).Selected? && Verdict(b, [a], ROOMY).Selected?
    ensures Verdict(v, [a, b], ROOMY) == Skipped(PARENT_NOT_SELECTED, None) && Verdict(u, [a, b], ROOMY).Selected?
  {
    Totals(a, b, u);
    hide Sources, Tokens;
    assert a == [a, b, v, u][0] && b == [a, b, v, u][1] && v == [a, b, v, u][2] && u == [a, b, v, u][3];
  }

  lemma Totals(a: Unit, b: Unit, u: Unit)
    ensures Tokens([]) == 0 && Sources([]) == {} && Tokens([a]) == a.tokens && Sources([a]) == {a.sourceId}
    ensures Tokens([a, b]) == a.tokens + b.tokens && Sources([a, b]) == {a.sourceId, b.sourceId}
    ensures Sources([a, b, u]) == {a.sourceId, b.sourceId, u.sourceId}
    ensures [] + [a] == [a] && [a] + [b] == [a, b] && [a, b] + [u] == [a, b, u]
  {
    PushTotals([], a);
    PushTotals([a], b);
    PushTotals([a, b], u);
    assert [] + [a] == [a] && [a] + [b] == [a, b] && [a, b] + [u] == [a, b, u];
  }
}
