/** From a source's segments to units with fresh ids and bounded token counts. */
module ContextUnits {
  import opened ContextChunks
  import opened Wrappers

  datatype Segment = Segment(requestedId: Option<string>, text: string, tokenCount: Option<nat>)

  datatype Piece = Piece(id: string, text: string, tokens: nat)

  function TrimStart(s: string): string { if s != "" && Space(s[0]) then TrimStart(s[1..]) else s }

  function TrimEnd(s: string): string
    decreases |s|
  {
    if s != "" && Space(s[|s| - 1]) then TrimEnd(s[..|s| - 1]) else s
  }

  function Trim(s: string): string { TrimEnd(TrimStart(s)) }

  /** Trimming takes white space off both ends, and nothing else. */
  ghost predicate Trimmed(s: string, t: string) {
    && (t != "" ==> !Space(t[0]) && !Space(t[|t| - 1]))
    && exists a, b :: 0 <= a <= b <= |s| && s[a..b] == t
                      && (forall i :: 0 <= i < a ==> Space(s[i])) && (forall i :: b <= i < |s| ==> Space(s[i]))
  }

  lemma {:induction false} TrimStartAt(s: string) returns (a: nat)
    ensures a <= |s| && TrimStart(s) == s[a..] && (forall i :: 0 <= i < a ==> Space(s[i]))
    ensures TrimStart(s) != "" ==> !Space(TrimStart(s)[0])
  {
    if s != "" && Space(s[0]) {
      a := TrimStartAt(s[1..]);
      a := a + 1;
    } else {
      a := 0;
    }
  }

  lemma {:induction false} TrimEndAt(s: string) returns (b: nat)
    ensures b <= |s| && TrimEnd(s) == s[..b] && (forall i :: b <= i < |s| ==> Space(s[i]))
    ensures TrimEnd(s) != "" ==> !Space(TrimEnd(s)[|TrimEnd(s)| - 1])
    decreases |s|
  {
    if s != "" && Space(s[|s| - 1]) {
      b := TrimEndAt(s[..|s| - 1]);
    } else {
      b := |s|;
    }
  }

  lemma TrimIsTrimmed(s: string)
    ensures Trimmed(s, Trim(s))
  {
    var a := TrimStartAt(s);
    var rest := s[a..];
    var b := TrimEndAt(rest);
    assert s[a..a + b] == rest[..b];
    assert forall i :: a + b <= i < |s| ==> s[i] == rest[i - a];
  }

  lemma {:induction false} TrimStartKeeps(s: string)
    ensures NonSpaces(TrimStart(s)) == NonSpaces(s)
  {
    if s != "" && Space(s[0]) { TrimStartKeeps(s[1..]); }
  }

  lemma {:induction false} TrimEndKeeps(s: string)
    ensures NonSpaces(TrimEnd(s)) == NonSpaces(s)
    decreases |s|
  {
    if s != "" && Space(s[|s| - 1]) {
      var before, last := s[..|s| - 1], s[|s| - 1..];
      TrimEndKeeps(before);
      NonSpacesAppend(before, last);
      assert s == before + last;
      assert last[1..] == "" && NonSpaces(last) == "";
    }
  }

  function Texts(pieces: seq<Piece>): seq<string> { seq(|pieces|, i requires 0 <= i < |pieces| => pieces[i].text) }

  function SegmentTexts(segments: seq<Segment>): seq<string> {
    seq(|segments|, i requires 0 <= i < |segments| => segments[i].text)
  }

  /** A unit's token count is within the chunk size, or its text is a single character. */
  predicate Bounded(p: Piece, chunkSize: nat) { p.tokens <= chunkSize || |p.text| == 1 }

  ghost predicate Fresh(pieces: seq<Piece>, before: set<string>, now: set<string>) {
    && before <= now
    && (forall i :: 0 <= i < |pieces| ==> pieces[i].id !in before && pieces[i].id in now)
    && (forall i, j :: 0 <= i < j < |pieces| ==> pieces[i].id != pieces[j].id)
  }

  lemma FreshPush(pieces: seq<Piece>, before: set<string>, now: set<string>, p: Piece)
    requires Fresh(pieces, before, now) && p.id !in now
    ensures Fresh(pieces + [p], before, now + {p.id})
  {}

  lemma FreshJoin(a: seq<Piece>, b: seq<Piece>, s: set<string>, t: set<string>, u: set<string>)
    requires Fresh(a, s, t) && Fresh(b, t, u)
    ensures Fresh(a + b, s, u)
  {
    var all := a + b;
    forall i, j | 0 <= i < j < |all| ensures all[i].id != all[j].id {
      if i < |a| <= j { assert a[i].id in t && b[j - |a|].id !in t; }
    }
  }

  /** The text fits, and so does the count that is declared for it, if there is one. */
  ghost predicate Whole(text: string, declared: Option<nat>, chunkSize: nat, estimator: string -> nat) {
    TokenCount(text, estimator) <= chunkSize && (declared.Some? ==> declared.value <= chunkSize)
  }

  /** The texts a segment is cut into. */
  method Cut(text: string, declared: Option<nat>, chunkSize: nat, estimator: string -> nat)
    returns (pieces: seq<string>)
    requires chunkSize >= 1
    ensures pieces != [] && NonSpaces(Concat(pieces)) == NonSpaces(text) && (text == "" ==> pieces == [""])
    ensures Whole(text, declared, chunkSize, estimator) ==> pieces == [text]
    ensures forall i :: 0 <= i < |pieces| ==> |pieces[i]| <= 1 || TokenCount(pieces[i], estimator) <= chunkSize
  {
    if |text| == 0 {
      OneText("");
      return [""];
    }
    var canUseDeclared := declared != None && declared.value <= chunkSize;
    if TokenCount(text, estimator) <= chunkSize && (declared == None || canUseDeclared) {
      OneText(text);
      return [text];
    }
    ghost var plan;
    pieces, plan := ChunkText(text, chunkSize, estimator);
    if |pieces| == 0 {
      OneText("");
      assert Concat([]) == "";
      pieces := [""];
    }
  }

  lemma OneText(text: string)
    ensures Concat([text]) == text
  {
    assert [text][..0] == [];
    assert Concat([text]) == Concat([text][..0]) + text;
  }

  function BaseId(sourceId: string, requestedId: Option<string>, count: nat, index: nat): string {
    if count == 1 && requestedId == None then sourceId
    else sourceId + "#" + (if requestedId == None then Decimal(index + 1) else requestedId.value)
  }

  /** What a unit counts: nothing for no text, the declared count when it was used, and else the estimate. */
  function CountOf(text: string, pieces: nat, declared: Option<nat>, chunkSize: nat, estimator: string -> nat): nat {
    if text == "" then 0
    else if pieces == 1 && declared.Some? && declared.value <= chunkSize then declared.value
    else TokenCount(text, estimator)
  }

  ghost function IdsOf(pieces: seq<Piece>): set<string> { set i | 0 <= i < |pieces| :: pieces[i].id }

  /** These are the units of one segment when the ids in used are taken: each has the first free
      id for its place, and the count that its place and the declared count call for. */
  ghost predicate MadeOf(sourceId: string, segment: Segment, pieces: seq<Piece>, used: set<string>, chunkSize: nat,
                         estimator: string -> nat) {
    && KeptWhole(segment, pieces, chunkSize, estimator)
    && forall i :: 0 <= i < |pieces| ==>
         PlacedAt(sourceId, segment, pieces[i], i, |pieces|, used + IdsOf(pieces[..i]), chunkSize, estimator)
  }

  /** A segment whose trimmed text fits, with its declared count if it has one, is one unit. */
  ghost predicate KeptWhole(segment: Segment, pieces: seq<Piece>, chunkSize: nat, estimator: string -> nat) {
    exists t :: Trimmed(segment.text, t) &&
                (Whole(t, segment.tokenCount, chunkSize, estimator) ==> |pieces| == 1 && pieces[0].text == t)
  }

  ghost predicate PlacedAt(sourceId: string, segment: Segment, p: Piece, index: nat, count: nat, taken: set<string>,
                           chunkSize: nat, estimator: string -> nat) {
    && (p.text == "" ==> p.tokens == 0)
    && (p.text != "" && count == 1 && segment.tokenCount.Some? && segment.tokenCount.value <= chunkSize ==>
          p.tokens == segment.tokenCount.value)
    && (p.text != "" && !(count == 1 && segment.tokenCount.Some? && segment.tokenCount.value <= chunkSize) ==>
          p.tokens == TokenCount(p.text, estimator))
    && FirstFree(if count == 1 && segment.requestedId == None then sourceId
                 else if segment.requestedId == None then sourceId + "#" + Decimal(index + 1)
                 else sourceId + "#" + segment.requestedId.value, taken, p.id)
  }

  lemma IdsPush(pieces: seq<Piece>, p: Piece)
    ensures IdsOf(pieces + [p]) == IdsOf(pieces) + {p.id}
    ensures forall i :: 0 <= i <= |pieces| ==> (pieces + [p])[..i] == pieces[..i]
  {
    assert (pieces + [p])[|pieces|] == p;
    assert forall i :: 0 <= i < |pieces| ==> (pieces + [p])[i] == pieces[i];
  }

  lemma IdsJoin(a: seq<Piece>, b: seq<Piece>)
    ensures IdsOf(a + b) == IdsOf(a) + IdsOf(b)
  {
    assert forall i :: 0 <= i < |b| ==> (a + b)[|a| + i] == b[i];
    assert forall i :: 0 <= i < |a| ==> (a + b)[i] == a[i];
  }

  method MaterializeSegment(sourceId: string, segment: Segment, chunkSize: nat, estimator: string -> nat,
                            usedIds: set<string>)
    returns (ok: bool, pieces: seq<Piece>, ids: set<string>)
    requires chunkSize >= 1
    ensures ok <==> !(Trim(segment.text) != "" && segment.tokenCount == Some(0))
    ensures ok ==> Fresh(pieces, usedIds, ids)
    ensures ok ==> NonSpaces(Concat(Texts(pieces))) == NonSpaces(segment.text)
    ensures ok ==> forall i :: 0 <= i < |pieces| ==> Bounded(pieces[i], chunkSize)
    ensures ok ==> MadeOf(sourceId, segment, pieces, usedIds, chunkSize, estimator) && ids == usedIds + IdsOf(pieces)
    ensures Trim(segment.text) == "" ==> |pieces| == 1 && pieces[0].text == "" && pieces[0].tokens == 0
  {
    hide Fresh, Concat, NonSpaces, Trim, IdsOf, PlacedAt, MadeTo, Texts, Whole, FirstFree, Bounded, Trimmed, MadeOf;
    var text := Trim(segment.text);
    var declared := segment.tokenCount;
    ids, pieces := usedIds, [];
    if |text| > 0 && declared == Some(0) { return false, [], ids; }
    TrimKeeps(segment.text);
    var outputs := Cut(text, declared, chunkSize, estimator);
    NothingMade(sourceId, segment, usedIds, outputs, chunkSize, estimator);
    var canUseDeclared := declared != None && declared.value <= chunkSize;
    for index := 0 to |outputs|
      invariant MadeTo(sourceId, segment, pieces, usedIds, ids, outputs, chunkSize, estimator) && |pieces| == index
    {
      var piece := outputs[index];
      var tokens :=
        if |piece| == 0 then 0
        else if |outputs| == 1 && canUseDeclared then declared.value
        else TokenCount(piece, estimator);
      var id := FreshId(BaseId(sourceId, segment.requestedId, |outputs|, index), ids);
      OneMade(sourceId, segment, pieces, usedIds, ids, outputs, chunkSize, estimator, Piece(id, piece, tokens));
      ids := ids + {id};
      pieces := pieces + [Piece(id, piece, tokens)];
    }
    AllMade(sourceId, segment, pieces, usedIds, ids, outputs, chunkSize, estimator);
    ok := true;
  }

  /** The units of the first outputs, with the ids that are taken then. */
  ghost predicate MadeTo(sourceId: string, segment: Segment, pieces: seq<Piece>, used: set<string>, ids: set<string>,
                         outputs: seq<string>, chunkSize: nat, estimator: string -> nat) {
    && |pieces| <= |outputs| && Fresh(pieces, used, ids) && Texts(pieces) == outputs[..|pieces|]
    && ids == used + IdsOf(pieces)
    && (forall i :: 0 <= i < |pieces| ==>
          PlacedAt(sourceId, segment, pieces[i], i, |outputs|, used + IdsOf(pieces[..i]), chunkSize, estimator))
    && (forall i :: 0 <= i < |pieces| ==> Bounded(pieces[i], chunkSize))
  }

  lemma NothingMade(sourceId: string, segment: Segment, used: set<string>, outputs: seq<string>, chunkSize: nat,
                    estimator: string -> nat)
    ensures MadeTo(sourceId, segment, [], used, used, outputs, chunkSize, estimator)
  {
    NoneFresh(used);
    NoIds();
  }

  lemma OneMade(sourceId: string, segment: Segment, pieces: seq<Piece>, used: set<string>, ids: set<string>,
                outputs: seq<string>, chunkSize: nat, estimator: string -> nat, p: Piece)
    requires MadeTo(sourceId, segment, pieces, used, ids, outputs, chunkSize, estimator) && |pieces| < |outputs|
    requires p.text == outputs[|pieces|]
    requires p.tokens == CountOf(p.text, |outputs|, segment.tokenCount, chunkSize, estimator)
    requires |p.text| <= 1 || TokenCount(p.text, estimator) <= chunkSize
    requires FirstFree(BaseId(sourceId, segment.requestedId, |outputs|, |pieces|), ids, p.id)
    ensures MadeTo(sourceId, segment, pieces + [p], used, ids + {p.id}, outputs, chunkSize, estimator)
  {
    hide FirstFree, PlacedAt, Fresh, IdsOf, CountOf, TokenCount, Texts, Bounded, BaseId;
    Placed(sourceId, segment, p, |pieces|, |outputs|, ids, chunkSize, estimator);
    FirstFreeIsFree(BaseId(sourceId, segment.requestedId, |outputs|, |pieces|), ids, p.id);
    CountBounded(p, |outputs|, segment.tokenCount, chunkSize, estimator);
    TextsPush(pieces, p);
    FreshPush(pieces, used, ids, p);
    IdsPush(pieces, p);
    assert outputs[..|pieces| + 1] == outputs[..|pieces|] + [p.text];
  }

  lemma CountBounded(p: Piece, count: nat, declared: Option<nat>, chunkSize: nat, estimator: string -> nat)
    requires p.tokens == CountOf(p.text, count, declared, chunkSize, estimator)
    requires |p.text| <= 1 || TokenCount(p.text, estimator) <= chunkSize
    ensures Bounded(p, chunkSize)
  {}

  lemma TextsPush(pieces: seq<Piece>, p: Piece)
    ensures Texts(pieces + [p]) == Texts(pieces) + [p.text]
  {}

  lemma FirstFreeIsFree(baseId: string, used: set<string>, id: string)
    requires FirstFree(baseId, used, id)
    ensures id !in used
  {}

  lemma AllMade(sourceId: string, segment: Segment, pieces: seq<Piece>, used: set<string>, ids: set<string>,
                outputs: seq<string>, chunkSize: nat, estimator: string -> nat)
    requires MadeTo(sourceId, segment, pieces, used, ids, outputs, chunkSize, estimator) && |pieces| == |outputs| > 0
    requires NonSpaces(Concat(outputs)) == NonSpaces(segment.text) && (Trim(segment.text) == "" ==> outputs == [""])
    requires Whole(Trim(segment.text), segment.tokenCount, chunkSize, estimator) ==> outputs == [Trim(segment.text)]
    ensures Fresh(pieces, used, ids) && ids == used + IdsOf(pieces)
    ensures NonSpaces(Concat(Texts(pieces))) == NonSpaces(segment.text)
    ensures forall i :: 0 <= i < |pieces| ==> Bounded(pieces[i], chunkSize)
    ensures MadeOf(sourceId, segment, pieces, used, chunkSize, estimator)
    ensures Trim(segment.text) == "" ==> |pieces| == 1 && pieces[0].text == "" && pieces[0].tokens == 0
  {
    TrimIsTrimmed(segment.text);
    assert outputs[..|outputs|] == outputs;
    assert Texts(pieces)[0] == pieces[0].text;
    hide Fresh, Concat, NonSpaces, IdsOf, Whole, FirstFree, Trim, Trimmed;
    if Trim(segment.text) == "" {
      assert PlacedAt(sourceId, segment, pieces[0], 0, |outputs|, used + IdsOf(pieces[..0]), chunkSize, estimator);
    }
    hide PlacedAt;
    assert KeptWhole(segment, pieces, chunkSize, estimator);
  }

  lemma TrimKeeps(s: string)
    ensures NonSpaces(Trim(s)) == NonSpaces(s)
  {
    TrimStartKeeps(s);
    TrimEndKeeps(TrimStart(s));
  }

  lemma Placed(sourceId: string, segment: Segment, p: Piece, index: nat, count: nat, taken: set<string>, chunkSize: nat,
               estimator: string -> nat)
    requires p.tokens == CountOf(p.text, count, segment.tokenCount, chunkSize, estimator)
    requires FirstFree(BaseId(sourceId, segment.requestedId, count, index), taken, p.id)
    ensures PlacedAt(sourceId, segment, p, index, count, taken, chunkSize, estimator)
  {}

  lemma NoIds()
    ensures IdsOf([]) == {}
  {}

  lemma NoneFresh(used: set<string>)
    ensures Fresh([], used, used)
  {}

  ghost function Flat(groups: seq<seq<Piece>>): seq<Piece> {
    if groups == [] then [] else Flat(groups[..|groups| - 1]) + groups[|groups| - 1]
  }

  /** One group of units for each segment, made when the ids of all earlier groups are taken. */
  ghost predicate Materialized(sourceId: string, segments: seq<Segment>, groups: seq<seq<Piece>>, used: set<string>,
                               chunkSize: nat, estimator: string -> nat) {
    |groups| == |segments| && forall k :: 0 <= k < |groups| ==>
      MadeOf(sourceId, segments[k], groups[k], used + IdsOf(Flat(groups[..k])), chunkSize, estimator)
  }

  lemma MaterializedMore(sourceId: string, segments: seq<Segment>, groups: seq<seq<Piece>>, used: set<string>,
                         chunkSize: nat, estimator: string -> nat, made: seq<Piece>)
    requires |groups| < |segments|
    requires Materialized(sourceId, segments[..|groups|], groups, used, chunkSize, estimator)
    requires MadeOf(sourceId, segments[|groups|], made, used + IdsOf(Flat(groups)), chunkSize, estimator)
    ensures Materialized(sourceId, segments[..|groups| + 1], groups + [made], used, chunkSize, estimator)
    ensures Flat(groups + [made]) == Flat(groups) + made
  {
    hide MadeOf, IdsOf;
    var more, longer := groups + [made], segments[..|groups| + 1];
    assert more[..|groups|] == groups && more[|groups|] == made;
    hide Flat;
    forall k | 0 <= k < |more|
      ensures MadeOf(sourceId, longer[k], more[k], used + IdsOf(Flat(more[..k])), chunkSize, estimator)
    {
      if k < |groups| {
        MadeEarlier(sourceId, segments[..|groups|], groups, used, chunkSize, estimator, k);
        assert more[k] == groups[k] && longer[k] == segments[..|groups|][k];
        assert more[..k] == groups[..k];
      }
    }
  }

  lemma MadeEarlier(sourceId: string, segments: seq<Segment>, groups: seq<seq<Piece>>, used: set<string>,
                    chunkSize: nat, estimator: string -> nat, k: nat)
    requires Materialized(sourceId, segments, groups, used, chunkSize, estimator) && k < |groups|
    ensures MadeOf(sourceId, segments[k], groups[k], used + IdsOf(Flat(groups[..k])), chunkSize, estimator)
  {
    hide MadeOf, IdsOf, Flat;
  }

  predicate Refused(segment: Segment) { Trim(segment.text) != "" && segment.tokenCount == Some(0) }

  /** All segments of a source: every unit has an id no other unit has, the texts together have
      the segments' characters other than white space in order, each count is bounded, and ids
      and counts are those that each unit's place in its segment calls for. */
  method MaterializeUnits(sourceId: string, segments: seq<Segment>, chunkSize: nat, estimator: string -> nat,
                          usedIds: set<string>)
    returns (ok: bool, pieces: seq<Piece>, ids: set<string>, ghost groups: seq<seq<Piece>>)
    requires chunkSize >= 1
    ensures ok <==> forall k :: 0 <= k < |segments| ==> !Refused(segments[k])
    ensures ok ==> Fresh(pieces, usedIds, ids) && ids == usedIds + IdsOf(pieces)
    ensures ok ==> NonSpaces(Concat(Texts(pieces))) == NonSpaces(Concat(SegmentTexts(segments)))
    ensures ok ==> forall i :: 0 <= i < |pieces| ==> Bounded(pieces[i], chunkSize)
    ensures ok && segments != [] ==>
              pieces == Flat(groups) && Materialized(sourceId, segments, groups, usedIds, chunkSize, estimator)
    ensures ok && segments == [] ==> |pieces| == 1 && pieces[0].text == "" && pieces[0].tokens == 0
    ensures ok && segments == [] ==> FirstFree(sourceId, usedIds, pieces[0].id)
  {
    hide Fresh, Concat, NonSpaces, Trim, Refused, Materialized, MadeOf, IdsOf, Flat;
    groups := [];
    if |segments| == 0 {
      EmptySegment();
      ok, pieces, ids := MaterializeSegment(sourceId, Segment(None, "", Some(0)), chunkSize, estimator, usedIds);
      OnlyUnit(sourceId, pieces, usedIds, chunkSize, estimator);
      return;
    }
    ids, pieces := usedIds, [];
    NoneFresh(usedIds);
    NoIds();
    NothingMaterialized(sourceId, usedIds, chunkSize, estimator);
    assert Texts(pieces) == [] == SegmentTexts(segments[..0]);
    for k := 0 to |segments|
      invariant Fresh(pieces, usedIds, ids) && ids == usedIds + IdsOf(pieces)
      invariant forall j :: 0 <= j < k ==> !Refused(segments[j])
      invariant NonSpaces(Concat(Texts(pieces))) == NonSpaces(Concat(SegmentTexts(segments[..k])))
      invariant forall i :: 0 <= i < |pieces| ==> Bounded(pieces[i], chunkSize)
      invariant |groups| == k && pieces == Flat(groups)
      invariant Materialized(sourceId, segments[..k], groups, usedIds, chunkSize, estimator)
    {
      var made, more;
      ok, made, more := MaterializeSegment(sourceId, segments[k], chunkSize, estimator, ids);
      RefusedIff(segments[k]);
      if !ok { return false, [], ids, []; }
      FreshJoin(pieces, made, usedIds, ids, more);
      JoinTexts(pieces, made, segments, k);
      IdsJoin(pieces, made);
      MaterializedMore(sourceId, segments, groups, usedIds, chunkSize, estimator, made);
      groups := groups + [made];
      pieces, ids := pieces + made, more;
    }
    assert segments[..|segments|] == segments;
    ok := true;
  }

  lemma RefusedIff(segment: Segment)
    ensures Refused(segment) <==> Trim(segment.text) != "" && segment.tokenCount == Some(0)
  {}

  lemma NothingMaterialized(sourceId: string, used: set<string>, chunkSize: nat, estimator: string -> nat)
    ensures Flat([]) == [] && Materialized(sourceId, [], [], used, chunkSize, estimator)
  {}

  lemma OnlyUnit(sourceId: string, pieces: seq<Piece>, used: set<string>, chunkSize: nat, estimator: string -> nat)
    requires |pieces| == 1 && MadeOf(sourceId, Segment(None, "", Some(0)), pieces, used, chunkSize, estimator)
    ensures FirstFree(sourceId, used, pieces[0].id)
  {
    assert PlacedAt(sourceId, Segment(None, "", Some(0)), pieces[0], 0, 1, used + IdsOf(pieces[..0]), chunkSize,
                    estimator);
    assert used + IdsOf(pieces[..0]) == used;
  }

  lemma EmptySegment()
    ensures Concat(SegmentTexts([])) == "" && NonSpaces("") == "" && Trim("") == ""
  {
    assert SegmentTexts([]) == [];
  }

  lemma JoinTexts(pieces: seq<Piece>, made: seq<Piece>, segments: seq<Segment>, k: nat)
    requires k < |segments| && NonSpaces(Concat(Texts(pieces))) == NonSpaces(Concat(SegmentTexts(segments[..k])))
    requires NonSpaces(Concat(Texts(made))) == NonSpaces(segments[k].text)
    ensures NonSpaces(Concat(Texts(pieces + made))) == NonSpaces(Concat(SegmentTexts(segments[..k + 1])))
  {
    assert Texts(pieces + made) == Texts(pieces) + Texts(made);
    ConcatAppend(Texts(pieces), Texts(made));
    NonSpacesAppend(Concat(Texts(pieces)), Concat(Texts(made)));
    assert SegmentTexts(segments[..k + 1]) == SegmentTexts(segments[..k]) + [segments[k].text];
    ConcatPush(SegmentTexts(segments[..k]), segments[k].text);
    NonSpacesAppend(Concat(SegmentTexts(segments[..k])), segments[k].text);
  }
}
