/** Chunking of text: nothing is lost or reordered, and every chunk fits or is one character. */
module ContextChunks {

  predicate Space(c: char) { c == ' ' || c == '\t' || c == '\n' || c == '\r' }

  function NonSpaces(s: string): string {
    if s == "" then "" else (if Space(s[0]) then "" else [s[0]]) + NonSpaces(s[1..])
  }

  function Concat(parts: seq<string>): string {
    if parts == [] then "" else Concat(parts[..|parts| - 1]) + parts[|parts| - 1]
  }

  lemma ConcatPush(parts: seq<string>, part: string)
    ensures Concat(parts + [part]) == Concat(parts) + part
  {
    assert (parts + [part])[..|parts|] == parts;
  }

  lemma TextAssoc(a: string, b: string, c: string)
    ensures (a + b) + c == a + (b + c)
  {}

  lemma {:induction false} ConcatAppend(a: seq<string>, b: seq<string>)
    ensures Concat(a + b) == Concat(a) + Concat(b)
  {
    if b == [] {
      assert a + b == a;
    } else {
      var n := |b| - 1;
      ConcatAppend(a, b[..n]);
      ConcatPush(b[..n], b[n]);
      ConcatPush(a + b[..n], b[n]);
      hide Concat;
      assert b == b[..n] + [b[n]];
      assert a + b == (a + b[..n]) + [b[n]];
      TextAssoc(Concat(a), Concat(b[..n]), b[n]);
    }
  }

  lemma {:induction false} NonSpacesAppend(a: string, b: string)
    ensures NonSpaces(a + b) == NonSpaces(a) + NonSpaces(b)
  {
    if a == "" {
      assert a + b == b;
    } else {
      assert (a + b)[1..] == a[1..] + b;
      NonSpacesAppend(a[1..], b);
    }
  }

  predicate Solid(s: string) { forall i :: 0 <= i < |s| ==> !Space(s[i]) }

  lemma {:induction false} SolidKept(s: string)
    requires Solid(s)
    ensures NonSpaces(s) == s
  {
    if s != "" { SolidKept(s[1..]); }
  }

  // ---- words ----------------------------------------------------------------------------

  function WordLength(s: string): (n: nat)
    ensures n <= |s| && Solid(s[..n]) && (n < |s| ==> Space(s[n]))
  {
    if s == "" || Space(s[0]) then 0 else 1 + WordLength(s[1..])
  }

  /** The words of a text: what splitting the trimmed text at white space gives. */
  function Words(s: string): seq<string>
    decreases |s|
  {
    if s == "" then []
    else if Space(s[0]) then Words(s[1..])
    else var n := WordLength(s); [s[..n]] + Words(s[n..])
  }

  lemma Assoc(a: string, b: string, c: string)
    ensures (a + b) + c == a + (b + c)
  {}

  lemma {:induction false} WordsKeepAll(s: string)
    ensures Concat(Words(s)) == NonSpaces(s)
    decreases |s|
  {
    if s == "" {
    } else if Space(s[0]) {
      WordsKeepAll(s[1..]);
    } else {
      var n := WordLength(s);
      var word, rest := s[..n], s[n..];
      WordsKeepAll(rest);
      FirstWord(word, Words(rest));
      NonSpacesAppend(word, rest);
      SolidKept(word);
      hide Words, NonSpaces, Concat;
      assert s == word + rest;
    }
  }

  /** A text without white space is one word. */
  lemma OneWord(s: string)
    requires Solid(s) && s != ""
    ensures Words(s) == [s]
  {
    assert WordLength(s) == |s| && s[..|s|] == s && s[|s|..] == "";
  }

  /** White space separates: the words on either side of it are the words of the text. */
  lemma {:induction false} WordsApart(a: string, c: char, b: string)
    requires Space(c)
    ensures Words(a + [c] + b) == Words(a) + Words(b)
    decreases |a|
  {
    hide Words, WordLength, Space;
    var s := a + [c] + b;
    if a == "" {
      NoWords();
      assert s[0] == c && s[1..] == b;
      WordsSkip(s);
      assert [] + Words(b) == Words(b);
    } else if Space(a[0]) {
      assert s[0] == a[0] && s[1..] == a[1..] + [c] + b;
      WordsSkip(s);
      WordsSkip(a);
      WordsApart(a[1..], c, b);
    } else {
      var n := WordLength(a);
      FirstWordLength(a, [c] + b);
      Assoc(a, [c], b);
      WordsTake(s);
      WordsTake(a);
      Beyond(a, c, b, n);
      WordsApart(a[n..], c, b);
      WordsAssoc([a[..n]], Words(a[n..]), Words(b));
    }
  }

  lemma Beyond(a: string, c: char, b: string, n: nat)
    requires n <= |a|
    ensures (a + [c] + b)[..n] == a[..n] && (a + [c] + b)[n..] == a[n..] + [c] + b
  {}

  lemma WordsAssoc(a: seq<string>, b: seq<string>, c: seq<string>)
    ensures (a + b) + c == a + (b + c)
  {}

  lemma NoWords()
    ensures Words("") == []
  {}

  lemma WordsSkip(s: string)
    requires s != "" && Space(s[0])
    ensures Words(s) == Words(s[1..])
  {}

  lemma WordsTake(s: string)
    requires s != "" && !Space(s[0])
    ensures WordLength(s) > 0 && Words(s) == [s[..WordLength(s)]] + Words(s[WordLength(s)..])
  {}

  /** A first word ends at the white space after it. */
  lemma {:induction false} FirstWordLength(a: string, b: string)
    requires a != "" && b != "" && Space(b[0])
    ensures WordLength(a + b) == WordLength(a)
  {
    if !Space(a[0]) {
      assert (a + b)[0] == a[0] && (a + b)[1..] == a[1..] + b;
      if |a| > 1 {
        FirstWordLength(a[1..], b);
      } else {
        assert a[1..] + b == b;
      }
    }
  }

  lemma FirstWord(word: string, words: seq<string>)
    ensures Concat([word] + words) == word + Concat(words)
  {
    ConcatAppend([word], words);
    assert Concat([word]) == Concat([]) + word == word by { assert [word][..0] == []; }
  }

  lemma {:induction false} WordsAreSolid(s: string)
    ensures forall i :: 0 <= i < |Words(s)| ==> Words(s)[i] != "" && Solid(Words(s)[i])
    decreases |s|
  {
    if s == "" {
    } else if Space(s[0]) {
      WordsAreSolid(s[1..]);
    } else {
      WordsAreSolid(s[WordLength(s)..]);
    }
  }

  // ---- chunks ---------------------------------------------------------------------------

  /** Whatever the estimator says, text that is not empty counts at least one token. */
  function TokenCount(text: string, estimator: string -> nat): (n: nat)
    ensures n == 0 <==> text == ""
    ensures text != "" && estimator(text) != n ==> estimator(text) == 0 && n == 1
  {
    if text == "" then 0 else if estimator(text) < 1 then 1 else estimator(text)
  }

  predicate Fits(chunk: string, maxTokens: nat, estimator: string -> nat) {
    chunk != "" && (TokenCount(chunk, estimator) <= maxTokens || |chunk| == 1)
  }

  predicate AllFit(chunks: seq<string>, maxTokens: nat, estimator: string -> nat) {
    forall i :: 0 <= i < |chunks| ==> Fits(chunks[i], maxTokens, estimator)
  }

  /** The ways one more character can go on. */
  lemma SplitStep(parts: seq<string>, part: string, word: string, i: nat)
    requires i < |word| && Concat(parts) + part == word[..i]
    ensures var c := [word[i]];
            && Concat(parts) + (part + c) == word[..i + 1]
            && Concat(parts + [part]) + c == word[..i + 1]
            && Concat(parts + [part] + [c]) + "" == word[..i + 1]
            && Concat(parts + [part + c]) + "" == word[..i + 1]
  {
    var c := [word[i]];
    ConcatPush(parts, part);
    ConcatPush(parts + [part], c);
    ConcatPush(parts, part + c);
    hide Concat;
    Assoc(Concat(parts), part, c);
    assert word[..i + 1] == word[..i] + c;
  }

  lemma FitsPush(parts: seq<string>, part: string, maxTokens: nat, estimator: string -> nat)
    requires AllFit(parts, maxTokens, estimator) && Fits(part, maxTokens, estimator)
    ensures AllFit(parts + [part], maxTokens, estimator)
  {}

  /** A part ends only where one more character would be too much, or where it is too much itself. */
  ghost predicate Ends(part: string, next: string, maxTokens: nat, estimator: string -> nat) {
    next != "" && (TokenCount(part, estimator) > maxTokens || TokenCount(part + next[..1], estimator) > maxTokens)
  }

  ghost predicate Greedy(parts: seq<string>, maxTokens: nat, estimator: string -> nat) {
    forall i :: 0 <= i < |parts| - 1 ==> Ends(parts[i], parts[i + 1], maxTokens, estimator)
  }

  /** The parts so far are greedy, and the last one ends before the part that is being built. */
  ghost predicate GreedyTo(parts: seq<string>, part: string, maxTokens: nat, estimator: string -> nat) {
    && Greedy(parts, maxTokens, estimator)
    && (parts != [] ==> if part == "" then TokenCount(parts[|parts| - 1], estimator) > maxTokens
                        else Ends(parts[|parts| - 1], part, maxTokens, estimator))
  }

  lemma GreedyGrows(parts: seq<string>, part: string, c: string, maxTokens: nat, estimator: string -> nat)
    requires GreedyTo(parts, part, maxTokens, estimator) && |c| == 1
    ensures GreedyTo(parts, part + c, maxTokens, estimator)
  {
    assert part != "" ==> (part + c)[..1] == part[..1];
  }

  lemma GreedyPush(parts: seq<string>, part: string, next: string, maxTokens: nat, estimator: string -> nat)
    requires GreedyTo(parts, part, maxTokens, estimator) && part != ""
    requires if next == "" then TokenCount(part, estimator) > maxTokens else Ends(part, next, maxTokens, estimator)
    ensures GreedyTo(parts + [part], next, maxTokens, estimator)
  {
    hide Ends;
    var more := parts + [part];
    forall i | 0 <= i < |more| - 1 ensures Ends(more[i], more[i + 1], maxTokens, estimator) {
      if i < |parts| - 1 { assert more[i] == parts[i] && more[i + 1] == parts[i + 1]; }
    }
  }

  lemma GreedyLast(parts: seq<string>, part: string, maxTokens: nat, estimator: string -> nat)
    requires GreedyTo(parts, part, maxTokens, estimator)
    ensures Greedy(parts, maxTokens, estimator)
    ensures part != "" ==> Greedy(parts + [part], maxTokens, estimator)
  {
    hide Ends;
    var more := parts + [part];
    if part != "" {
      forall i | 0 <= i < |more| - 1 ensures Ends(more[i], more[i + 1], maxTokens, estimator) {
        if i < |parts| - 1 { assert more[i] == parts[i] && more[i + 1] == parts[i + 1]; }
      }
    }
  }

  method SplitOversizedWord(word: string, maxTokens: nat, estimator: string -> nat) returns (parts: seq<string>)
    requires maxTokens >= 1
    ensures Concat(parts) == word && AllFit(parts, maxTokens, estimator)
    ensures Greedy(parts, maxTokens, estimator)
  {
    hide Concat, AllFit, GreedyTo, Greedy;
    parts := [];
    var part := "";
    NothingSplit(maxTokens, estimator, word);
    for i := 0 to |word|
      invariant GreedyTo(parts, part, maxTokens, estimator)
      invariant Concat(parts) + part == word[..i]
      invariant AllFit(parts, maxTokens, estimator)
      invariant part == "" || TokenCount(part, estimator) <= maxTokens
    {
      var character := [word[i]];
      var next := part + character;
      SplitStep(parts, part, word, i);
      if |part| > 0 && TokenCount(next, estimator) > maxTokens {
        FitsPush(parts, part, maxTokens, estimator);
        assert character[..1] == character;
        GreedyPush(parts, part, character, maxTokens, estimator);
        parts := parts + [part];
        part := character;
        if TokenCount(part, estimator) > maxTokens {
          FitsPush(parts, part, maxTokens, estimator);
          GreedyPush(parts, part, "", maxTokens, estimator);
          parts := parts + [part];
          part := "";
        }
      } else {
        GreedyGrows(parts, part, character, maxTokens, estimator);
        part := next;
        if TokenCount(part, estimator) > maxTokens {
          FitsPush(parts, part, maxTokens, estimator);
          GreedyPush(parts, part, "", maxTokens, estimator);
          parts := parts + [part];
          part := "";
        }
      }
    }
    assert word[..|word|] == word;
    SplitLast(parts, part);
    GreedyLast(parts, part, maxTokens, estimator);
    if |part| > 0 {
      FitsPush(parts, part, maxTokens, estimator);
      parts := parts + [part];
    }
  }

  lemma NothingSplit(maxTokens: nat, estimator: string -> nat, word: string)
    ensures AllFit([], maxTokens, estimator) && Concat([]) + "" == word[..0] && GreedyTo([], "", maxTokens, estimator)
  {}

  lemma SplitLast(parts: seq<string>, part: string)
    ensures Concat(parts + [part]) == Concat(parts) + part
    ensures part == "" ==> Concat(parts) + part == Concat(parts)
  {
    ConcatPush(parts, part);
  }

  /** What one stretch of the words became: whole words in one chunk, or one word in parts. */
  datatype Group = Whole(words: seq<string>) | Broken(word: string, parts: seq<string>)

  function Spaced(words: seq<string>): string {
    if words == [] then ""
    else if |words| == 1 then words[0]
    else Spaced(words[..|words| - 1]) + " " + words[|words| - 1]
  }

  function WordsOf(g: Group): seq<string> { match g case Whole(words) => words case Broken(word, _) => [word] }

  function ChunksOf(g: Group): seq<string> {
    match g case Whole(words) => [Spaced(words)] case Broken(_, parts) => parts
  }

  function AllWords(plan: seq<Group>): seq<string> {
    if plan == [] then [] else AllWords(plan[..|plan| - 1]) + WordsOf(plan[|plan| - 1])
  }

  function AllChunks(plan: seq<Group>): seq<string> {
    if plan == [] then [] else AllChunks(plan[..|plan| - 1]) + ChunksOf(plan[|plan| - 1])
  }

  /** Whole words fit together; only a word that does not fit is broken, and then greedily. */
  ghost predicate GroupOk(g: Group, maxTokens: nat, estimator: string -> nat) {
    match g
    case Whole(words) => words != [] && TokenCount(Spaced(words), estimator) <= maxTokens
    case Broken(word, parts) =>
      TokenCount(word, estimator) > maxTokens && Concat(parts) == word && Greedy(parts, maxTokens, estimator)
  }

  /** A chunk of whole words ends only where the next word would be too much. */
  ghost predicate Closed(g: Group, next: string, maxTokens: nat, estimator: string -> nat) {
    g.Whole? ==> TokenCount(Spaced(g.words) + " " + next, estimator) > maxTokens
  }

  ghost predicate PlanOk(plan: seq<Group>, maxTokens: nat, estimator: string -> nat) {
    && (forall i :: 0 <= i < |plan| ==> GroupOk(plan[i], maxTokens, estimator) && WordsOf(plan[i]) != [])
    && (forall i :: 0 <= i < |plan| - 1 ==> Closed(plan[i], WordsOf(plan[i + 1])[0], maxTokens, estimator))
  }

  /** The plan so far, and the words of the chunk that is being filled. */
  ghost predicate PlanTo(plan: seq<Group>, words: seq<string>, maxTokens: nat, estimator: string -> nat) {
    && PlanOk(plan, maxTokens, estimator)
    && (plan != [] ==>
          if words == [] then plan[|plan| - 1].Broken? else Closed(plan[|plan| - 1], words[0], maxTokens, estimator))
  }

  lemma PlanPush(plan: seq<Group>, g: Group, maxTokens: nat, estimator: string -> nat)
    requires PlanTo(plan, WordsOf(g), maxTokens, estimator) && GroupOk(g, maxTokens, estimator) && WordsOf(g) != []
    ensures PlanOk(plan + [g], maxTokens, estimator)
    ensures AllWords(plan + [g]) == AllWords(plan) + WordsOf(g)
    ensures AllChunks(plan + [g]) == AllChunks(plan) + ChunksOf(g)
  {
    hide Closed, GroupOk;
    var more := plan + [g];
    assert more[..|plan|] == plan;
    forall i | 0 <= i < |more| - 1 ensures Closed(more[i], WordsOf(more[i + 1])[0], maxTokens, estimator) {
      assert more[i] == plan[i] && (i + 1 < |plan| ==> more[i + 1] == plan[i + 1]);
    }
  }

  lemma SpacedPush(words: seq<string>, word: string)
    ensures words != [] ==> Spaced(words + [word]) == Spaced(words) + " " + word
    ensures words == [] ==> Spaced(words + [word]) == word
  {
    assert (words + [word])[..|words|] == words;
  }

  /** Packs words into chunks. For every estimator the chunks, put together, have exactly the
      text's characters other than white space, in order; none is empty; each is within the
      limit or is a single character. The plan says which words went where: only words that do
      not fit are broken, and no chunk could have taken the next word or character. */
  method ChunkText(text: string, maxTokens: nat, estimator: string -> nat)
    returns (chunks: seq<string>, ghost plan: seq<Group>)
    requires maxTokens >= 1
    ensures NonSpaces(Concat(chunks)) == NonSpaces(text)
    ensures AllFit(chunks, maxTokens, estimator)
    ensures AllWords(plan) == Words(text) && AllChunks(plan) == chunks && PlanOk(plan, maxTokens, estimator)
  {
    hide NonSpaces, Concat, Words, PlanTo, PlanOk, Spaced, AllWords, AllChunks, Greedy;
    WordsKeepAll(text);
    WordsAreSolid(text);
    var words := Words(text);
    chunks, plan := [], [];
    var current := "";
    ghost var filling: seq<string> := [];
    NothingPacked(words);
    NothingPlanned(maxTokens, estimator);
    assert words[..0] == [];
    for i := 0 to |words|
      invariant Packed(chunks, current, words[..i])
      invariant AllFit(chunks, maxTokens, estimator)
      invariant current == "" || TokenCount(current, estimator) <= maxTokens
      invariant current == Spaced(filling) && (current == "" <==> filling == [])
      invariant PlanTo(plan, filling, maxTokens, estimator) && AllChunks(plan) == chunks
      invariant AllWords(plan) + filling == words[..i]
    {
      var word := words[i];
      assert words[..i + 1] == words[..i] + [word];
      var candidate := if |current| == 0 then word else current + " " + word;
      PackMore(chunks, current, words[..i], word);
      SpacedPush(filling, word);
      SpacedPush([], word);
      assert [] + [word] == [word];
      if TokenCount(candidate, estimator) <= maxTokens {
        PlanFill(plan, filling, word, maxTokens, estimator);
        assert AllWords(plan) + (filling + [word]) == words[..i + 1];
        current, filling := candidate, filling + [word];
        continue;
      }
      if |current| > 0 {
        PlanWhole(plan, filling, word, maxTokens, estimator);
        chunks := chunks + [current];
        plan := plan + [Whole(filling)];
        current, filling := "", [];
      } else {
        PlanFill(plan, filling, word, maxTokens, estimator);
      }
      assert AllWords(plan) == words[..i] && PlanTo(plan, [word], maxTokens, estimator);
      if TokenCount(word, estimator) <= maxTokens {
        current, filling := word, [word];
      } else {
        var parts := SplitOversizedWord(word, maxTokens, estimator);
        PackParts(chunks, words[..i], word, parts);
        PlanBroken(plan, word, parts, maxTokens, estimator);
        plan := plan + [Broken(word, parts)];
        chunks := chunks + parts;
        SpacedNone();
        assert words[..i + 1] + [] == words[..i + 1];
      }
    }
    assert words[..|words|] == words;
    PackLast(chunks, current, words);
    PlanLast(plan, filling, words, maxTokens, estimator);
    if |current| > 0 {
      chunks := chunks + [current];
      plan := plan + [Whole(filling)];
    }
  }

  lemma SpacedNone()
    ensures Spaced([]) == ""
  {}

  lemma NothingPlanned(maxTokens: nat, estimator: string -> nat)
    ensures PlanTo([], [], maxTokens, estimator) && AllChunks([]) == [] && AllWords([]) + [] == [] && Spaced([]) == ""
  {}

  /** A word joins the chunk that is being filled, or starts it. */
  lemma PlanFill(plan: seq<Group>, filling: seq<string>, word: string, maxTokens: nat, estimator: string -> nat)
    requires PlanTo(plan, filling, maxTokens, estimator)
    ensures PlanTo(plan, filling + [word], maxTokens, estimator)
    ensures filling == [] ==> PlanTo(plan, [word], maxTokens, estimator) && AllWords(plan) + filling == AllWords(plan)
  {
    assert filling != [] ==> (filling + [word])[0] == filling[0];
    assert filling == [] ==> filling + [word] == [word];
  }

  lemma PlanWhole(plan: seq<Group>, filling: seq<string>, word: string, maxTokens: nat, estimator: string -> nat)
    requires PlanTo(plan, filling, maxTokens, estimator) && filling != []
    requires TokenCount(Spaced(filling), estimator) <= maxTokens
    requires TokenCount(Spaced(filling) + " " + word, estimator) > maxTokens
    ensures PlanTo(plan + [Whole(filling)], [word], maxTokens, estimator)
    ensures AllWords(plan + [Whole(filling)]) == AllWords(plan) + filling
    ensures AllChunks(plan + [Whole(filling)]) == AllChunks(plan) + [Spaced(filling)]
  {
    PlanPush(plan, Whole(filling), maxTokens, estimator);
  }

  lemma PlanBroken(plan: seq<Group>, word: string, parts: seq<string>, maxTokens: nat, estimator: string -> nat)
    requires PlanTo(plan, [word], maxTokens, estimator) && TokenCount(word, estimator) > maxTokens
    requires Concat(parts) == word && Greedy(parts, maxTokens, estimator)
    ensures PlanTo(plan + [Broken(word, parts)], [], maxTokens, estimator)
    ensures AllWords(plan + [Broken(word, parts)]) == AllWords(plan) + [word]
    ensures AllChunks(plan + [Broken(word, parts)]) == AllChunks(plan) + parts
  {
    PlanPush(plan, Broken(word, parts), maxTokens, estimator);
  }

  lemma PlanLast(plan: seq<Group>, filling: seq<string>, words: seq<string>, maxTokens: nat, estimator: string -> nat)
    requires PlanTo(plan, filling, maxTokens, estimator) && AllWords(plan) + filling == words
    requires filling != [] ==> TokenCount(Spaced(filling), estimator) <= maxTokens
    ensures filling == [] ==> PlanOk(plan, maxTokens, estimator) && AllWords(plan) == words
    ensures filling != [] ==>
              PlanOk(plan + [Whole(filling)], maxTokens, estimator) && AllWords(plan + [Whole(filling)]) == words
              && AllChunks(plan + [Whole(filling)]) == AllChunks(plan) + [Spaced(filling)]
  {
    if filling != [] {
      PlanPush(plan, Whole(filling), maxTokens, estimator);
    } else {
      assert AllWords(plan) + [] == AllWords(plan);
    }
  }

  /** The chunks and the current text hold the characters of the words. */
  ghost predicate Packed(chunks: seq<string>, current: string, words: seq<string>) {
    NonSpaces(Concat(chunks)) + NonSpaces(current) == Concat(words)
  }

  lemma NothingPacked(words: seq<string>)
    ensures Packed([], "", words[..0])
  {}

  lemma PackMore(chunks: seq<string>, current: string, words: seq<string>, word: string)
    requires Packed(chunks, current, words) && Solid(word)
    ensures Packed(chunks, if |current| == 0 then word else current + " " + word, words + [word])
    ensures |current| > 0 ==> Packed(chunks + [current], word, words + [word]) && Packed(chunks + [current], "", words)
    ensures |current| == 0 ==> Packed(chunks, word, words + [word])
  {
    SolidKept(word);
    ConcatPush(words, word);
    ConcatPush(chunks, current);
    NonSpacesAppend(Concat(chunks), current);
    SpacedWord(current, word);
    assert NonSpaces("") == "";
    hide NonSpaces, Concat;
    var a, b := NonSpaces(Concat(chunks)), NonSpaces(current);
    Assoc(a, b, word);
    assert b + "" == b && a + b + "" == a + b;
    assert current == "" ==> b == "" && a + "" == a;
  }

  lemma SpacedWord(current: string, word: string)
    ensures NonSpaces(current + " " + word) == NonSpaces(current) + NonSpaces(word)
  {
    NonSpacesAppend(current + " ", word);
    NonSpacesAppend(current, " ");
    assert NonSpaces(" ") == "" + NonSpaces(" "[1..]) && " "[1..] == "";
    assert NonSpaces(current) + "" == NonSpaces(current);
  }

  lemma PackParts(chunks: seq<string>, words: seq<string>, word: string, parts: seq<string>)
    requires Packed(chunks, "", words) && Solid(word) && Concat(parts) == word
    ensures Packed(chunks + parts, "", words + [word])
  {
    SolidKept(word);
    ConcatPush(words, word);
    ConcatAppend(chunks, parts);
    NonSpacesAppend(Concat(chunks), word);
  }

  lemma PackLast(chunks: seq<string>, current: string, words: seq<string>)
    requires Packed(chunks, current, words)
    ensures |current| > 0 ==> NonSpaces(Concat(chunks + [current])) == Concat(words)
    ensures |current| == 0 ==> NonSpaces(Concat(chunks)) == Concat(words)
  {
    ConcatPush(chunks, current);
    NonSpacesAppend(Concat(chunks), current);
  }

  // ---- unit ids -------------------------------------------------------------------------

  function Decimal(n: nat): string {
    if n < 10 then [Digit(n)] else Decimal(n / 10) + [Digit(n % 10)]
  }

  function Digit(d: nat): char
    requires d < 10
  {
    "0123456789"[d]
  }

  lemma {:induction false} DecimalInjective(m: nat, n: nat)
    requires Decimal(m) == Decimal(n)
    ensures m == n
  {
    var s, t := Decimal(m), Decimal(n);
    assert s[|s| - 1] == t[|t| - 1];
    assert s[|s| - 1] == Digit(m % 10) && t[|t| - 1] == Digit(n % 10);
    assert m % 10 == n % 10;
    if m >= 10 && n >= 10 {
      assert s[..|s| - 1] == Decimal(m / 10) && t[..|t| - 1] == Decimal(n / 10);
      DecimalInjective(m / 10, n / 10);
    } else {
      DecimalNonempty(m / 10);
      DecimalNonempty(n / 10);
    }
  }

  /** What a text of decimal digits stands for. */
  ghost function ValueOf(s: string): int {
    if s == "" then 0 else ValueOf(s[..|s| - 1]) * 10 + (s[|s| - 1] as int - '0' as int)
  }

  lemma {:induction false} DecimalValue(n: nat)
    ensures ValueOf(Decimal(n)) == n
    ensures forall i :: 0 <= i < |Decimal(n)| ==> '0' <= Decimal(n)[i] <= '9'
    ensures n > 0 ==> Decimal(n)[0] != '0'
  {
    if n < 10 {
      assert [Digit(n)][..0] == "" && ValueOf("") == 0;
      assert ValueOf(Decimal(n)) == ValueOf([Digit(n)][..0]) * 10 + (Digit(n) as int - '0' as int);
    } else {
      DecimalValue(n / 10);
      var s := Decimal(n);
      assert s[..|s| - 1] == Decimal(n / 10) && s[|s| - 1] == Digit(n % 10);
    }
  }

  lemma DecimalNonempty(n: nat)
    ensures Decimal(n) != ""
  {}

  function Suffixed(baseId: string, suffix: nat): string { baseId + "~" + Decimal(suffix) }

  lemma SuffixedInjective(baseId: string, m: nat, n: nat)
    requires Suffixed(baseId, m) == Suffixed(baseId, n)
    ensures m == n
  {
    assert Suffixed(baseId, m)[|baseId| + 1..] == Decimal(m);
    assert Suffixed(baseId, n)[|baseId| + 1..] == Decimal(n);
    DecimalInjective(m, n);
  }

  /** The used ids that are still ahead in the search for a free suffix. */
  ghost function Ahead(baseId: string, used: set<string>, suffix: nat): set<string> {
    set id | id in used && exists n :: n >= suffix && id == Suffixed(baseId, n)
  }

  lemma AheadShrinks(baseId: string, used: set<string>, suffix: nat)
    requires Suffixed(baseId, suffix) in used
    ensures |Ahead(baseId, used, suffix + 1)| < |Ahead(baseId, used, suffix)|
  {
    var taken := Suffixed(baseId, suffix);
    var more, less := Ahead(baseId, used, suffix), Ahead(baseId, used, suffix + 1);
    if taken in less {
      var n :| n >= suffix + 1 && taken == Suffixed(baseId, n);
      SuffixedInjective(baseId, suffix, n);
    }
    assert less <= more - {taken};
    FewerMembers(less, more - {taken});
  }

  lemma FewerMembers(a: set<string>, b: set<string>)
    requires a <= b
    ensures |a| <= |b|
  {
    if a != {} {
      var x :| x in a;
      FewerMembers(a - {x}, b - {x});
    }
  }

  /** The first free id: the base itself, or the base with the first free suffix. */
  ghost predicate FirstFree(baseId: string, used: set<string>, id: string) {
    && id !in used
    && (baseId !in used ==> id == baseId)
    && (baseId in used ==>
          exists n: nat ::
            n >= 1 && id == Suffixed(baseId, n) && forall m: nat :: 1 <= m < n ==> Suffixed(baseId, m) in used)
  }

  /** An id that is not used yet: the base itself, or the base with the first free suffix. */
  method FreshId(baseId: string, used: set<string>) returns (id: string)
    ensures FirstFree(baseId, used, id)
  {
    hide Suffixed;
    id := baseId;
    var suffix := 1;
    while id in used
      invariant suffix >= 1 && forall m: nat :: 1 <= m < suffix - 1 ==> Suffixed(baseId, m) in used
      invariant if suffix == 1 then id == baseId else baseId in used && id == Suffixed(baseId, suffix - 1)
      decreases if suffix == 1 then 1 else 0, |Ahead(baseId, used, suffix - 1)|
    {
      if suffix > 1 { AheadShrinks(baseId, used, suffix - 1); }
      id := Suffixed(baseId, suffix);
      suffix := suffix + 1;
    }
    assert suffix > 1 ==> suffix - 1 >= 1;
  }
}
