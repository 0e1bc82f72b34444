/** The in-memory hybrid index: statistics kept up to date by every change, and a search that
    returns exactly the first results of a full scan. */
module HybridIndexing {
  import opened TopK
  import opened Wrappers

  type Id = nat
  type Token = string
  type Vector = seq<real>

  datatype Stored = Stored(id: Id, tokens: seq<Token>, vector: Vector, metadata: string)

  const MAX_SEARCH_LIMIT := 10_000
  const MAX_SEARCH_CANDIDATE_LIMIT := 10_000
  const BM25_K1 := 1.2
  const BM25_B := 0.75

  // ---- statistics -----------------------------------------------------------------------

  function TokenSet(tokens: seq<Token>): set<Token> { set t | t in tokens }

  ghost function Postings(docs: map<Id, Stored>, t: Token): set<Id> {
    set id | id in docs && t in docs[id].tokens
  }

  ghost function TotalLength(docs: map<Id, Stored>): nat
    decreases |docs|
  {
    if docs == map[] then 0
    else
      var id :| id in docs;
      |docs[id].tokens| + TotalLength(docs - {id})
  }

  lemma {:induction false} TotalLengthRemove(docs: map<Id, Stored>, id: Id)
    requires id in docs
    ensures TotalLength(docs) == |docs[id].tokens| + TotalLength(docs - {id})
    decreases |docs|
  {
    var first :| first in docs && TotalLength(docs) == |docs[first].tokens| + TotalLength(docs - {first});
    if first != id {
      TotalLengthRemove(docs - {first}, id);
      TotalLengthRemove(docs - {id}, first);
      assert docs - {first} - {id} == docs - {id} - {first};
    }
  }

  /** The maintained tables have these postings, and their number, for one token. */
  ghost predicate TableAt(df: map<Token, nat>, inverted: map<Token, set<Id>>, t: Token, postings: set<Id>) {
    && (t in inverted <==> postings != {}) && (t in df <==> postings != {})
    && (t in inverted ==> inverted[t] == postings)
    && (t in df ==> df[t] == |postings|)
  }

  ghost predicate StatisticsOk(docs: map<Id, Stored>, df: map<Token, nat>, inverted: map<Token, set<Id>>, total: nat) {
    (forall t :: TableAt(df, inverted, t, Postings(docs, t))) && total == TotalLength(docs)
  }

  /** The postings while the tokens in done have been added for, or removed from, one document. */
  ghost function Adding(docs: map<Id, Stored>, id: Id, done: set<Token>, t: Token): set<Id> {
    if t in done then Postings(docs, t) + {id} else Postings(docs, t)
  }

  ghost function Removing(docs: map<Id, Stored>, id: Id, done: set<Token>, t: Token): set<Id> {
    if t in done then Postings(docs, t) - {id} else Postings(docs, t)
  }

  ghost predicate AddingOk(docs: map<Id, Stored>, id: Id, done: set<Token>, df: map<Token, nat>,
                           inverted: map<Token, set<Id>>) {
    forall t :: TableAt(df, inverted, t, Adding(docs, id, done, t))
  }

  ghost predicate RemovingOk(docs: map<Id, Stored>, id: Id, done: set<Token>, df: map<Token, nat>,
                             inverted: map<Token, set<Id>>) {
    forall t :: TableAt(df, inverted, t, Removing(docs, id, done, t))
  }

  lemma StartTokens(docs: map<Id, Stored>, id: Id, df: map<Token, nat>, inverted: map<Token, set<Id>>, total: nat)
    requires StatisticsOk(docs, df, inverted, total)
    ensures AddingOk(docs, id, {}, df, inverted) && RemovingOk(docs, id, {}, df, inverted) && total == TotalLength(docs)
  {
    hide TableAt, Postings;
    forall t
      ensures TableAt(df, inverted, t, Adding(docs, id, {}, t)) && TableAt(df, inverted, t, Removing(docs, id, {}, t))
    {
      assert TableAt(df, inverted, t, Postings(docs, t));
    }
  }

  lemma AddedAll(docs: map<Id, Stored>, doc: Stored, df: map<Token, nat>, inverted: map<Token, set<Id>>)
    requires doc.id !in docs && AddingOk(docs, doc.id, TokenSet(doc.tokens), df, inverted)
    ensures StatisticsOk(docs[doc.id := doc], df, inverted, TotalLength(docs) + |doc.tokens|)
  {
    var now := docs[doc.id := doc];
    TotalLengthRemove(now, doc.id);
    assert now - {doc.id} == docs;
    forall t ensures TableAt(df, inverted, t, Postings(now, t)) {
      assert Adding(docs, doc.id, TokenSet(doc.tokens), t) == Postings(now, t);
    }
  }

  lemma RemovedAll(docs: map<Id, Stored>, id: Id, df: map<Token, nat>, inverted: map<Token, set<Id>>)
    requires id in docs && RemovingOk(docs, id, TokenSet(docs[id].tokens), df, inverted)
    ensures TotalLength(docs) >= |docs[id].tokens|
    ensures StatisticsOk(docs - {id}, df, inverted, TotalLength(docs) - |docs[id].tokens|)
  {
    TotalLengthRemove(docs, id);
    forall t ensures TableAt(df, inverted, t, Postings(docs - {id}, t)) {
      assert Removing(docs, id, TokenSet(docs[id].tokens), t) == Postings(docs - {id}, t);
    }
  }

  /** What one token's entries become, and that no other token's entries change. */
  ghost predicate OnlyAt(df: map<Token, nat>, inverted: map<Token, set<Id>>, df': map<Token, nat>,
                         inverted': map<Token, set<Id>>, token: Token) {
    forall t :: t != token ==>
      && (t in df <==> t in df') && (t in df ==> df'[t] == df[t])
      && (t in inverted <==> t in inverted') && (t in inverted ==> inverted'[t] == inverted[t])
  }

  lemma TableElsewhere(df: map<Token, nat>, inverted: map<Token, set<Id>>, df': map<Token, nat>,
                       inverted': map<Token, set<Id>>,
                       token: Token, t: Token, postings: set<Id>)
    requires OnlyAt(df, inverted, df', inverted', token) && t != token && TableAt(df, inverted, t, postings)
    ensures TableAt(df', inverted', t, postings)
  {}

  lemma TableGains(df: map<Token, nat>, inverted: map<Token, set<Id>>, token: Token, postings: set<Id>, id: Id)
    requires TableAt(df, inverted, token, postings) && id !in postings
    ensures TableAt(df[token := (if token in df then df[token] else 0) + 1],
                    inverted[token := (if token in inverted then inverted[token] else {}) + {id}], token,
                    postings + {id})
  {
    if token !in inverted { assert postings == {}; }
    assert |postings + {id}| == |postings| + 1;
  }

  lemma AddingStep(docs: map<Id, Stored>, id: Id, done: set<Token>, token: Token, t: Token)
    requires id !in docs && token !in done
    ensures t != token ==> Adding(docs, id, done + {token}, t) == Adding(docs, id, done, t)
    ensures Adding(docs, id, done + {token}, token) == Adding(docs, id, done, token) + {id}
    ensures id !in Adding(docs, id, done, token)
  {}

  lemma AddToken(docs: map<Id, Stored>, id: Id, done: set<Token>, token: Token,
                 df: map<Token, nat>, inverted: map<Token, set<Id>>, df': map<Token, nat>,
                 inverted': map<Token, set<Id>>)
    requires id !in docs && token !in done && AddingOk(docs, id, done, df, inverted)
    requires df' == df[token := (if token in df then df[token] else 0) + 1]
    requires inverted' == inverted[token := (if token in inverted then inverted[token] else {}) + {id}]
    ensures AddingOk(docs, id, done + {token}, df', inverted')
  {
    assert OnlyAt(df, inverted, df', inverted', token);
    hide TableAt, OnlyAt, Adding;
    forall t ensures TableAt(df', inverted', t, Adding(docs, id, done + {token}, t)) {
      assert TableAt(df, inverted, t, Adding(docs, id, done, t));
      AddingStep(docs, id, done, token, t);
      if t == token {
        TableGains(df, inverted, token, Adding(docs, id, done, token), id);
      } else {
        TableElsewhere(df, inverted, df', inverted', token, t, Adding(docs, id, done, t));
      }
    }
  }

  lemma HasToken(docs: map<Id, Stored>, id: Id, done: set<Token>, token: Token, df: map<Token, nat>,
                 inverted: map<Token, set<Id>>)
    requires id in docs && token !in done && token in docs[id].tokens && RemovingOk(docs, id, done, df, inverted)
    ensures token in df && token in inverted && df[token] > 0 && id in inverted[token] && df[token] == |inverted[token]|
  {
    assert id in Removing(docs, id, done, token);
    assert TableAt(df, inverted, token, Removing(docs, id, done, token));
  }

  lemma RemoveToken(docs: map<Id, Stored>, id: Id, done: set<Token>, token: Token,
                    df: map<Token, nat>, inverted: map<Token, set<Id>>, df': map<Token, nat>,
                    inverted': map<Token, set<Id>>)
    requires id in docs && token !in done && token in docs[id].tokens && RemovingOk(docs, id, done, df, inverted)
    requires token in df && token in inverted
    requires df' == if df[token] <= 1 then df - {token} else df[token := df[token] - 1]
    requires inverted' == if inverted[token] - {id} == {} then inverted - {token}
               else inverted[token := inverted[token] - {id}]
    ensures RemovingOk(docs, id, done + {token}, df', inverted')
  {
    HasToken(docs, id, done, token, df, inverted);
    assert OnlyAt(df, inverted, df', inverted', token);
    var p := inverted[token] - {id};
    assert |p| == |inverted[token]| - 1 && (p == {} <==> |p| == 0);
    forall t ensures TableAt(df', inverted', t, Removing(docs, id, done + {token}, t)) {
      assert TableAt(df, inverted, t, Removing(docs, id, done, t));
      if t == token {
        assert Removing(docs, id, done + {token}, t) == p;
      } else {
        assert Removing(docs, id, done + {token}, t) == Removing(docs, id, done, t);
      }
    }
  }

  // ---- scores ---------------------------------------------------------------------------

  function Unique(tokens: seq<Token>): seq<Token> {
    if tokens == [] then []
    else
      var before, last := tokens[..|tokens| - 1], tokens[|tokens| - 1];
      Unique(before) + (if last in before then [] else [last])
  }

  lemma {:induction false} UniqueSame(tokens: seq<Token>, t: Token)
    ensures t in Unique(tokens) <==> t in tokens
  {
    if tokens != [] {
      var before, last := tokens[..|tokens| - 1], tokens[|tokens| - 1];
      UniqueSame(before, t);
      assert tokens == before + [last];
    }
  }

  function Frequency(tokens: seq<Token>, t: Token): (n: nat)
    ensures n == multiset(tokens)[t] && (n > 0 <==> t in tokens)
  {
    assert tokens != [] ==> tokens == [tokens[0]] + tokens[1..];
    if tokens == [] then 0 else (if tokens[0] == t then 1 else 0) + Frequency(tokens[1..], t)
  }

  /** How much a token counts that so many of the documents have. */
  function Rarity(log: real -> real, count: nat, df: nat): real {
    log(1.0 + (count as real - df as real + 0.5) / (df as real + 0.5))
  }

  /** What a document's length adds to the denominators. */
  function LengthPart(length: nat, average: real): (d: real)
    requires average >= 1.0
    ensures d > 0.0
  {
    var ratio := length as real / average;
    assert ratio >= 0.0;
    BM25_K1 * (1.0 - BM25_B + BM25_B * ratio)
  }

  /** Grows with x towards r * k, the slower the larger d is. */
  function Saturated(r: real, x: real, k: real, d: real): real
    requires x >= 0.0 && d > 0.0
  {
    r * (x * k) / (x + d)
  }

  /** What one query token adds to the lexical score of a document that has it. */
  function TokenScore(log: real -> real, count: nat, df: nat, frequency: nat, length: nat, average: real): real
    requires average >= 1.0
  {
    Saturated(Rarity(log, count, df), frequency as real, BM25_K1 + 1.0, LengthPart(length, average))
  }

  function Bm25(log: real -> real, query: seq<Token>, tokens: seq<Token>, count: nat, df: map<Token, nat>,
                average: real): real
    requires average >= 1.0
  {
    if query == [] then 0.0
    else
      var last := query[|query| - 1];
      var frequency := Frequency(tokens, last);
      Bm25(log, query[..|query| - 1], tokens, count, df, average)
      + (if frequency == 0 then 0.0
         else TokenScore(log, count, if last in df then df[last] else 0, frequency, |tokens|, average))
  }

  /** A larger numerator or a smaller denominator makes a larger fraction. */
  lemma Fractions(a: real, b: real, c: real, d: real)
    requires 0.0 <= a <= c && b >= d > 0.0
    ensures a / b <= c / d
  {
    var p, q := a / b, c / d;
    assert p * b == a && q * d == c && q >= 0.0;
    Times(d, b, q);
    AtMost(p, q, b);
  }

  lemma AtMost(p: real, q: real, s: real)
    requires s > 0.0 && p * s <= q * s
    ensures p <= q
  {
    assert p * s / s == p && q * s / s == q;
  }

  /** A token adds more the more often the document has it. */
  lemma OftenIsMore(log: real -> real, count: nat, df: nat, f: nat, g: nat, length: nat, average: real)
    requires average >= 1.0 && 0 < f <= g && Rarity(log, count, df) >= 0.0
    ensures TokenScore(log, count, df, f, length, average) <= TokenScore(log, count, df, g, length, average)
  {
    hide Rarity, LengthPart, Saturated;
    SaturatedGrows(Rarity(log, count, df), f as real, g as real, BM25_K1 + 1.0, LengthPart(length, average));
  }

  lemma SaturatedGrows(r: real, x: real, y: real, k: real, d: real)
    requires r >= 0.0 && 0.0 < x <= y && k >= 0.0 && d > 0.0
    ensures Saturated(r, x, k, d) <= Saturated(r, y, k, d)
  {
    AsPortion(r, x, k, d);
    AsPortion(r, y, k, d);
    Portions(x, y, d);
    hide Saturated;
    assert r * k >= 0.0;
    Times(x / (x + d), y / (y + d), r * k);
  }

  lemma AsPortion(r: real, x: real, k: real, d: real)
    requires x > 0.0 && d > 0.0
    ensures Saturated(r, x, k, d) == r * k * (x / (x + d))
  {
    var p := x / (x + d);
    assert p * (x + d) == x;
    Rearranged(r, k, p, x + d);
    Quotient(r * (x * k), x + d, r * k * p);
  }

  lemma Rearranged(r: real, k: real, p: real, s: real)
    ensures r * k * p * s == r * (p * s * k)
  {}

  lemma Quotient(top: real, s: real, t: real)
    requires s > 0.0 && t * s == top
    ensures top / s == t
  {}

  lemma Portions(x: real, y: real, d: real)
    requires 0.0 < x <= y && d > 0.0
    ensures x / (x + d) <= y / (y + d)
  {
    var p, q := x / (x + d), y / (y + d);
    assert p * (x + d) == x && q * (y + d) == y;
    Rearranged(1.0, y + d, p, x + d);
    Rearranged(1.0, x + d, q, y + d);
    assert p * ((x + d) * (y + d)) == x * (y + d) && q * ((x + d) * (y + d)) == y * (x + d);
    assert x * (y + d) <= y * (x + d) by { Times(x, y, d); }
    AtMost(p, q, (x + d) * (y + d));
  }

  /** And less the longer the document is. */
  lemma LongIsLess(log: real -> real, count: nat, df: nat, f: nat, length: nat, longer: nat, average: real)
    requires average >= 1.0 && f > 0 && length <= longer && Rarity(log, count, df) >= 0.0
    ensures TokenScore(log, count, df, f, longer, average) <= TokenScore(log, count, df, f, length, average)
  {
    LengthGrows(length, longer, average);
    hide Rarity, LengthPart, Saturated;
    SaturatedSlower(Rarity(log, count, df), f as real, BM25_K1 + 1.0, LengthPart(length, average),
                    LengthPart(longer, average));
  }

  lemma SaturatedSlower(r: real, x: real, k: real, d: real, e: real)
    requires r >= 0.0 && x > 0.0 && k >= 0.0 && 0.0 < d <= e
    ensures Saturated(r, x, k, e) <= Saturated(r, x, k, d)
  {
    assert x * k >= 0.0;
    assert r * (x * k) >= 0.0;
    Fractions(r * (x * k), x + e, r * (x * k), x + d);
  }

  lemma SaturatedRises(r: real, s: real, x: real, k: real, d: real)
    requires r <= s && x > 0.0 && k >= 0.0 && d > 0.0
    ensures Saturated(r, x, k, d) <= Saturated(s, x, k, d)
  {
    assert x * k >= 0.0;
    Scaled(r, s, x * k, x + d);
  }

  lemma LengthGrows(length: nat, longer: nat, average: real)
    requires average >= 1.0 && length <= longer
    ensures LengthPart(length, average) <= LengthPart(longer, average)
    ensures length == 0 ==> LengthPart(length, average) == BM25_K1 * (1.0 - BM25_B)
    ensures length as real == average ==> LengthPart(length, average) == BM25_K1
  {
    Fractions(length as real, average, longer as real, average);
    if length as real == average { Quotient(length as real, average, 1.0); }
  }

  /** A token adds more the fewer documents have it, when the logarithm grows. */
  lemma RareIsMore(log: real -> real, count: nat, rare: nat, df: nat, f: nat, length: nat, average: real)
    requires average >= 1.0 && f > 0 && rare <= df <= count && forall x, y :: 0.0 < x <= y ==> log(x) <= log(y)
    ensures TokenScore(log, count, df, f, length, average) <= TokenScore(log, count, rare, f, length, average)
  {
    RarityFalls(log, count as real, rare as real, df as real);
    hide Rarity, LengthPart, Saturated;
    SaturatedRises(Rarity(log, count, df), Rarity(log, count, rare), f as real, BM25_K1 + 1.0,
                   LengthPart(length, average));
  }

  lemma RarityFalls(log: real -> real, n: real, x: real, y: real)
    requires 0.0 <= x <= y <= n && forall a, b :: 0.0 < a <= b ==> log(a) <= log(b)
    ensures log(1.0 + (n - y + 0.5) / (y + 0.5)) <= log(1.0 + (n - x + 0.5) / (x + 0.5))
  {
    var a, b := (n - y + 0.5) / (y + 0.5), (n - x + 0.5) / (x + 0.5);
    Fractions(0.0, y + 0.5, n - y + 0.5, y + 0.5);
    Fractions(n - y + 0.5, y + 0.5, n - x + 0.5, x + 0.5);
    assert 0.0 < 1.0 + a <= 1.0 + b;
  }

  lemma Scaled(a: real, b: real, c: real, d: real)
    requires a <= b && c >= 0.0 && d > 0.0
    ensures a * c / d <= b * c / d
  {
    assert a * c <= b * c;
  }

  /** The lexical score of a document is the sum over the query's tokens, in any order. */
  lemma {:induction false} Bm25Sum(log: real -> real, a: seq<Token>, b: seq<Token>, tokens: seq<Token>, count: nat,
                                   df: map<Token, nat>, average: real)
    requires average >= 1.0 && multiset(a) == multiset(b)
    ensures Bm25(log, a, tokens, count, df, average) == Bm25(log, b, tokens, count, df, average)
    decreases |a|
  {
    hide Bm25, Added;
    if a == [] {
      assert b == [] by { assert |multiset(a)| == |multiset(b)| == |b|; }
    } else {
      var n := |a| - 1;
      var j := LastAmong(a, b);
      Bm25Sum(log, a[..n], b[..j] + b[j + 1..], tokens, count, df, average);
      OneMore(log, a[..n], b[..j], a[n], b[j + 1..], tokens, count, df, average);
    }
  }

  lemma LastAmong(a: seq<Token>, b: seq<Token>) returns (j: nat)
    requires multiset(a) == multiset(b) && a != []
    ensures j < |b| && a == a[..|a| - 1] + [a[|a| - 1]] && b == b[..j] + [a[|a| - 1]] + b[j + 1..]
    ensures multiset(a[..|a| - 1]) == multiset(b[..j] + b[j + 1..])
  {
    var n := |a| - 1;
    assert a[n] in multiset(b);
    j :| 0 <= j < |b| && b[j] == a[n];
    Parted(a, n);
    Parted(b, j);
    assert a[n + 1..] == [] && a[..n] + [] == a[..n];
  }

  lemma OneMore(log: real -> real, a: seq<Token>, b: seq<Token>, t: Token, c: seq<Token>, tokens: seq<Token>,
                count: nat, df: map<Token, nat>, average: real)
    requires average >= 1.0
    requires Bm25(log, a, tokens, count, df, average) == Bm25(log, b + c, tokens, count, df, average)
    ensures Bm25(log, a + [t], tokens, count, df, average) == Bm25(log, b + [t] + c, tokens, count, df, average)
  {
    hide Bm25, Added;
    Bm25Without(log, b, t, c, tokens, count, df, average);
    Bm25Without(log, a, t, [], tokens, count, df, average);
    assert a + [] == a && a + [t] + [] == a + [t];
  }

  lemma Parted(s: seq<Token>, i: nat)
    requires i < |s|
    ensures s == s[..i] + [s[i]] + s[i + 1..]
    ensures multiset(s[..i] + s[i + 1..]) == multiset(s) - multiset{s[i]}
  {
    assert s == s[..i] + [s[i]] + s[i + 1..];
  }

  /** What a token of the query adds to the score of a document. */
  function Added(log: real -> real, t: Token, tokens: seq<Token>, count: nat, df: map<Token, nat>, average: real): real
    requires average >= 1.0
  {
    if t !in tokens then 0.0
    else TokenScore(log, count, if t in df then df[t] else 0, multiset(tokens)[t], |tokens|, average)
  }

  lemma {:induction false} Bm25Without(log: real -> real, a: seq<Token>, t: Token, b: seq<Token>, tokens: seq<Token>,
                                       count: nat, df: map<Token, nat>, average: real)
    requires average >= 1.0
    ensures Bm25(log, a + [t] + b, tokens, count, df, average) ==
              Bm25(log, a + b, tokens, count, df, average) + Added(log, t, tokens, count, df, average)
    decreases |b|
  {
    if b == [] {
      assert a + [t] + b == a + [t] && a + b == a && (a + [t])[..|a|] == a;
    } else {
      var n := |b| - 1;
      assert (a + [t] + b)[..|a| + 1 + n] == a + [t] + b[..n] && (a + b)[..|a| + n] == a + b[..n];
      Bm25Without(log, a, t, b[..n], tokens, count, df, average);
      hide TokenScore, Added;
    }
  }

  /** Each token of the query counts once. */
  lemma {:induction false} UniqueOnce(tokens: seq<Token>)
    ensures forall t :: t in tokens ==> multiset(Unique(tokens))[t] == 1
    ensures forall t :: t !in tokens ==> multiset(Unique(tokens))[t] == 0
  {
    if tokens != [] {
      var before, last := tokens[..|tokens| - 1], tokens[|tokens| - 1];
      UniqueOnce(before);
      assert tokens == before + [last];
    }
  }

  /** A document without any query token has no lexical score. */
  lemma {:induction false} UnmatchedScoresZero(log: real -> real, query: seq<Token>, tokens: seq<Token>, count: nat,
                                               df: map<Token, nat>, average: real)
    requires average >= 1.0 && forall t :: t in query ==> t !in tokens
    ensures Bm25(log, query, tokens, count, df, average) == 0.0
  {
    if query != [] { UnmatchedScoresZero(log, query[..|query| - 1], tokens, count, df, average); }
  }

  function Normalized(x: real): real { if x <= 0.0 then 0.0 else x / (x + 1.0) }

  datatype Weights = Weights(lexical: real, vector: real)

  predicate ValidWeights(w: Weights) { w.lexical >= 0.0 && w.vector >= 0.0 && w.lexical + w.vector != 0.0 }

  /** All that a score depends on besides the document. */
  datatype Query = Query(
    log: real -> real, cosine: (Vector, Vector) -> real, tokens: seq<Token>, vector: Vector, weights: Weights,
    filter: Stored -> bool, minimumScore: real, count: nat, df: map<Token, nat>, average: real)

  predicate ValidQuery(q: Query) { ValidWeights(q.weights) && q.average >= 1.0 }

  function WeightedMean(v: real, w: real, x: real, y: real): real
    requires v >= 0.0 && w >= 0.0 && v + w != 0.0
  {
    (v * x + w * y) / (v + w)
  }

  function ScoreOf(q: Query, d: Stored): Scored
    requires ValidQuery(q)
  {
    var lexical := Normalized(Bm25(q.log, Unique(q.tokens), d.tokens, q.count, q.df, q.average));
    var cosine := if q.weights.vector > 0.0 then q.cosine(q.vector, d.vector) else 0.0;
    var vector := if cosine > 0.0 then cosine else 0.0;
    Scored(d.id, WeightedMean(q.weights.lexical, q.weights.vector, lexical, vector), lexical, vector)
  }

  predicate Hit(q: Query, d: Stored)
    requires ValidQuery(q)
  {
    q.filter(d) && ScoreOf(q, d).score >= q.minimumScore && ScoreOf(q, d).score > 0.0
  }

  ghost predicate ByOwnId(docs: map<Id, Stored>) { forall id :: id in docs ==> docs[id].id == id }

  /** The scored documents of a full scan over the given documents. */
  ghost function Hits(q: Query, docs: map<Id, Stored>, ids: set<Id>): set<Scored>
    requires ValidQuery(q)
  {
    set id | id in ids && id in docs && Hit(q, docs[id]) :: ScoreOf(q, docs[id])
  }

  ghost function Ranked(found: set<Scored>): seq<Scored> { Sort(SeqOf(multiset(found))) }

  /** The ranking lists every scored document once, in the public order. */
  lemma RankedListsAll(found: set<Scored>)
    ensures Sorted(Ranked(found)) && multiset(Ranked(found)) == multiset(found) && |Ranked(found)| == |found|
  {
    SortOk(SeqOf(multiset(found)));
    assert |multiset(Ranked(found))| == |multiset(found)| == |found|;
  }

  /** With a zero vector weight every hit has a query token, so the inverted index's
      candidates are enough. */
  lemma CandidatesAreEnough(q: Query, docs: map<Id, Stored>, candidates: set<Id>)
    requires ValidQuery(q) && q.weights.vector == 0.0
    requires forall id :: id in docs && (exists t :: t in q.tokens && t in docs[id].tokens) ==> id in candidates
    ensures Hits(q, docs, candidates) == Hits(q, docs, docs.Keys)
  {
    forall id | id in docs && Hit(q, docs[id]) ensures id in candidates {
      if forall t :: t in q.tokens ==> t !in docs[id].tokens { UnmatchedIsNoHit(q, docs[id]); }
    }
  }

  lemma UnmatchedIsNoHit(q: Query, d: Stored)
    requires ValidQuery(q) && q.weights.vector == 0.0 && forall t :: t in q.tokens ==> t !in d.tokens
    ensures !Hit(q, d)
  {
    forall t | t in Unique(q.tokens) ensures t !in d.tokens { UniqueSame(q.tokens, t); }
    UnmatchedScoresZero(q.log, Unique(q.tokens), d.tokens, q.count, q.df, q.average);
    hide Bm25, WeightedMean;
    Mean(q.weights.lexical, q.weights.vector, ScoreOf(q, d).lexical, ScoreOf(q, d).vector);
  }

  /** The parts of a score and their weighted mean. A part without a weight does not bear on it. */
  lemma ScoreMeaning(q: Query, d: Stored)
    requires ValidQuery(q)
    ensures var s := ScoreOf(q, d);
            && s.id == d.id && 0.0 <= s.lexical < 1.0 && 0.0 <= s.vector
            && (q.weights.vector == 0.0 ==> s.vector == 0.0 && s.score == s.lexical)
            && (q.weights.lexical == 0.0 ==> s.score == s.vector)
            && (q.weights.vector > 0.0 ==>
                  s.vector == if q.cosine(q.vector, d.vector) > 0.0 then q.cosine(q.vector, d.vector) else 0.0)
            && (s.lexical <= s.vector ==> s.lexical <= s.score <= s.vector)
            && (s.vector <= s.lexical ==> s.vector <= s.score <= s.lexical)
  {
    hide Normalized, Bm25, WeightedMean;
    NormalizedMeaning(Bm25(q.log, Unique(q.tokens), d.tokens, q.count, q.df, q.average));
    var s := ScoreOf(q, d);
    Mean(q.weights.lexical, q.weights.vector, s.lexical, s.vector);
  }

  /** Normalising keeps the order of positive scores, below one. */
  lemma NormalizedMeaning(x: real)
    ensures 0.0 <= Normalized(x) < 1.0 && (Normalized(x) == 0.0 <==> x <= 0.0)
    ensures x > 0.0 ==> Normalized(x) / (1.0 - Normalized(x)) == x
  {
    if x > 0.0 {
      var n := x / (x + 1.0);
      assert n * (x + 1.0) == x;
      assert 1.0 - n == 1.0 / (x + 1.0);
    }
  }

  lemma Mean(v: real, w: real, x: real, y: real)
    requires v >= 0.0 && w >= 0.0 && v + w != 0.0
    ensures (w == 0.0 ==> WeightedMean(v, w, x, y) == x) && (v == 0.0 ==> WeightedMean(v, w, x, y) == y)
    ensures x <= y ==> x <= WeightedMean(v, w, x, y) <= y
    ensures y <= x ==> y <= WeightedMean(v, w, x, y) <= x
  {
    if x <= y { MeanBetween(v, w, x, y); }
    if y <= x {
      MeanBetween(w, v, y, x);
      assert w * y + v * x == v * x + w * y;
    }
    if w == 0.0 { Between(v * x, v, x, x); }
    if v == 0.0 { Between(w * y, w, y, y); }
  }

  lemma MeanBetween(v: real, w: real, x: real, y: real)
    requires v >= 0.0 && w >= 0.0 && v + w != 0.0 && x <= y
    ensures x <= (v * x + w * y) / (v + w) <= y
  {
    Times(x, y, w);
    Times(x, y, v);
    Distributes(v, w, x);
    Distributes(v, w, y);
    Between(v * x + w * y, v + w, x, y);
  }

  lemma Times(x: real, y: real, w: real)
    requires x <= y && w >= 0.0
    ensures w * x <= w * y
  {}

  lemma Distributes(v: real, w: real, x: real)
    ensures (v + w) * x == v * x + w * x
  {}

  lemma Between(t: real, s: real, x: real, y: real)
    requires s > 0.0 && s * x <= t <= s * y
    ensures x <= t / s <= y
  {
    assert t / s * s == t;
    AtMost(x, t / s, s);
    AtMost(t / s, y, s);
  }

  /** With a lexical weight, of two documents that are as near the one with more lexical score is
      ranked higher. */
  lemma MoreIsHigher(q: Query, d: Stored, e: Stored)
    requires ValidQuery(q) && q.weights.lexical > 0.0 && ScoreOf(q, d).vector == ScoreOf(q, e).vector
    requires ScoreOf(q, d).lexical < ScoreOf(q, e).lexical
    ensures ScoreOf(q, d).score < ScoreOf(q, e).score
  {
    hide Normalized, Bm25, WeightedMean;
    var s, t := ScoreOf(q, d), ScoreOf(q, e);
    HigherMean(q.weights.lexical, q.weights.vector, s.lexical, t.lexical, s.vector);
  }

  lemma HigherMean(v: real, w: real, x: real, x': real, y: real)
    requires v > 0.0 && w >= 0.0 && x < x'
    ensures WeightedMean(v, w, x, y) < WeightedMean(v, w, x', y)
  {
    var a, b, c := v * x + w * y, v * x' + w * y, v + w;
    assert v * x < v * x' by { assert v * (x' - x) > 0.0; }
    Smaller(a, b, c);
  }

  lemma Smaller(a: real, b: real, c: real)
    requires a < b && c > 0.0
    ensures a / c < b / c
  {
    assert a / c * c == a && b / c * c == b;
  }

  lemma HitsAddOne(q: Query, docs: map<Id, Stored>, ids: set<Id>, id: Id)
    requires ValidQuery(q) && ByOwnId(docs) && id in docs && id !in ids
    ensures Hit(q, docs[id]) ==>
              multiset(Hits(q, docs, ids + {id})) == multiset(Hits(q, docs, ids)) + multiset{ScoreOf(q, docs[id])}
    ensures !Hit(q, docs[id]) ==> Hits(q, docs, ids + {id}) == Hits(q, docs, ids)
  {
    var x := ScoreOf(q, docs[id]);
    assert x.id == id;
    assert x !in Hits(q, docs, ids);
    if Hit(q, docs[id]) {
      assert Hits(q, docs, ids + {id}) == Hits(q, docs, ids) + {x};
    }
  }

  // ---- the index ------------------------------------------------------------------------

  /** DimensionMismatch: a candidate's vector and the query's have different lengths. NotNumbers:
      the index has become empty meanwhile, so that the average length is 0/0. */
  datatype SearchResult = Found(results: seq<Scored>) | RangeError | DimensionMismatch | NotNumbers

  /** What a search comes to before its query is embedded. */
  datatype Begun = Refused | NoCandidates | Candidates(docs: map<Id, Stored>)

  datatype SearchOptions = SearchOptions(
    limit: nat, candidateLimit: Option<nat>, weights: Weights, minimumScore: real, filter: Stored -> bool)

  class HybridIndex {
    const log: real -> real
    const cosine: (Vector, Vector) -> real
    var documents: map<Id, Stored>
    var documentFrequency: map<Token, nat>
    var invertedIndex: map<Token, set<Id>>
    var totalDocumentLength: nat
    var vectorDimensions: Option<nat>

    ghost predicate Valid()
      reads this
    {
      && ByOwnId(documents)
      && StatisticsOk(documents, documentFrequency, invertedIndex, totalDocumentLength)
      && (documents == map[] ==> vectorDimensions == None)
      && (forall id :: id in documents ==> vectorDimensions == Some(|documents[id].vector|))
    }

    constructor (log: real -> real, cosine: (Vector, Vector) -> real)
      ensures Valid() && documents == map[] && this.log == log && this.cosine == cosine
    {
      this.log, this.cosine := log, cosine;
      documents, documentFrequency, invertedIndex, totalDocumentLength, vectorDimensions :=
        map[], map[], map[], 0, None;
    }

    method AddPosting(id: Id, token: Token, ghost docs: map<Id, Stored>, ghost done: set<Token>)
      requires id !in docs && token !in done && AddingOk(docs, id, done, documentFrequency, invertedIndex)
      modifies this`documentFrequency, this`invertedIndex
      ensures AddingOk(docs, id, done + {token}, documentFrequency, invertedIndex)
    {
      hide AddingOk;
      ghost var df, inverted := documentFrequency, invertedIndex;
      documentFrequency :=
        documentFrequency[token := (if token in documentFrequency then documentFrequency[token] else 0) + 1];
      var postings := if token in invertedIndex then invertedIndex[token] else {};
      invertedIndex := invertedIndex[token := postings + {id}];
      AddToken(docs, id, done, token, df, inverted, documentFrequency, invertedIndex);
    }

    method RemovePosting(id: Id, token: Token, ghost docs: map<Id, Stored>, ghost done: set<Token>)
      requires id in docs && token !in done && token in docs[id].tokens
      requires RemovingOk(docs, id, done, documentFrequency, invertedIndex)
      modifies this`documentFrequency, this`invertedIndex
      ensures RemovingOk(docs, id, done + {token}, documentFrequency, invertedIndex)
    {
      hide RemovingOk;
      ghost var df, inverted := documentFrequency, invertedIndex;
      HasToken(docs, id, done, token, df, inverted);
      var next := documentFrequency[token] - 1;
      if next <= 0 {
        documentFrequency := documentFrequency - {token};
      } else {
        documentFrequency := documentFrequency[token := next];
      }
      var postings := invertedIndex[token] - {id};
      if postings == {} {
        invertedIndex := invertedIndex - {token};
      } else {
        invertedIndex := invertedIndex[token := postings];
      }
      RemoveToken(docs, id, done, token, df, inverted, documentFrequency, invertedIndex);
    }

    method AddStatistics(doc: Stored, ghost others: map<Id, Stored>)
      requires doc.id !in others && StatisticsOk(others, documentFrequency, invertedIndex, totalDocumentLength)
      modifies this`documentFrequency, this`invertedIndex, this`totalDocumentLength
      ensures StatisticsOk(others[doc.id := doc], documentFrequency, invertedIndex, totalDocumentLength)
    {
      hide TableAt, Adding, Removing, TotalLength, AddingOk, RemovingOk, StatisticsOk;
      StartTokens(others, doc.id, documentFrequency, invertedIndex, totalDocumentLength);
      totalDocumentLength := totalDocumentLength + |doc.tokens|;
      var left := TokenSet(doc.tokens);
      ghost var all, done := left, {};
      while left != {}
        invariant done + left == all && done !! left
        invariant AddingOk(others, doc.id, done, documentFrequency, invertedIndex)
        invariant totalDocumentLength == TotalLength(others) + |doc.tokens|
        decreases |left|
      {
        var token :| token in left;
        AddPosting(doc.id, token, others, done);
        left, done := left - {token}, done + {token};
      }
      AddedAll(others, doc, documentFrequency, invertedIndex);
    }

    method RemoveStatistics(doc: Stored)
      requires doc.id in documents && documents[doc.id] == doc
      requires StatisticsOk(documents, documentFrequency, invertedIndex, totalDocumentLength)
      modifies this`documentFrequency, this`invertedIndex, this`totalDocumentLength
      ensures StatisticsOk(documents - {doc.id}, documentFrequency, invertedIndex, totalDocumentLength)
    {
      hide TableAt, Adding, Removing, TotalLength, AddingOk, RemovingOk, StatisticsOk;
      StartTokens(documents, doc.id, documentFrequency, invertedIndex, totalDocumentLength);
      var left := TokenSet(doc.tokens);
      ghost var all, done := left, {};
      while left != {}
        invariant done + left == all && done !! left
        invariant RemovingOk(documents, doc.id, done, documentFrequency, invertedIndex)
        invariant totalDocumentLength == TotalLength(documents)
        decreases |left|
      {
        var token :| token in left;
        RemovePosting(doc.id, token, documents, done);
        left, done := left - {token}, done + {token};
      }
      RemovedAll(documents, doc.id, documentFrequency, invertedIndex);
      totalDocumentLength := totalDocumentLength - |doc.tokens|;
    }

    /** Stores a document whose vector the provider has computed: the step after the await. What
        is done before it depends on the document alone. */
    method Upsert(doc: Stored) returns (ok: bool)
      requires Valid()
      modifies this
      ensures Valid()
      ensures ok <==> "" !in doc.tokens && |doc.vector| >= 1 &&
                      (old(vectorDimensions) == None || old(vectorDimensions) == Some(|doc.vector|))
      ensures documents == if ok then old(documents)[doc.id := doc] else old(documents)
    {
      hide StatisticsOk;
      if "" in doc.tokens || |doc.vector| < 1 { return false; }
      if vectorDimensions != None && vectorDimensions.value != |doc.vector| { return false; }
      ghost var was := documents;
      if doc.id in documents {
        RemoveStatistics(documents[doc.id]);
      } else {
        assert was - {doc.id} == was;
      }
      documents := documents[doc.id := doc];
      AddStatistics(doc, was - {doc.id});
      assert (was - {doc.id})[doc.id := doc] == documents;
      vectorDimensions := Some(|doc.vector|);
      ok := true;
    }

    method Delete(id: Id) returns (deleted: bool)
      requires Valid()
      modifies this
      ensures Valid() && documents == old(documents) - {id}
      ensures deleted <==> id in old(documents)
    {
      hide StatisticsOk;
      if id !in documents { return false; }
      RemoveStatistics(documents[id]);
      documents := documents - {id};
      if |documents| == 0 { vectorDimensions := None; }
      deleted := true;
    }

    method Clear()
      modifies this
      ensures Valid() && documents == map[]
    {
      documents, documentFrequency, invertedIndex, totalDocumentLength, vectorDimensions :=
        map[], map[], map[], 0, None;
    }

    function AverageLength(): (average: real)
      reads this
      ensures average >= 1.0
    {
      if |documents| == 0 || totalDocumentLength < |documents| then 1.0
      else totalDocumentLength as real / |documents| as real
    }

    /** What the scores of a search depend on besides each document. */
    function QueryOf(tokens: seq<Token>, vector: Vector, options: SearchOptions): Query
      reads this
    {
      Query(log, cosine, tokens, vector, options.weights, options.filter, options.minimumScore,
            |documents|, documentFrequency, AverageLength())
    }

    lemma QueryToldOf(tokens: seq<Token>, vector: Vector, options: SearchOptions)
      requires Valid() && documents != map[]
      ensures QueryTells(QueryOf(tokens, vector, options), documents, tokens, vector, options)
    {
      hide Postings, TotalLength;
      forall t
        ensures (if t in documentFrequency then documentFrequency[t] else 0) == |Postings(documents, t)|
      {
        assert TableAt(documentFrequency, invertedIndex, t, Postings(documents, t));
      }
    }

    /** A search that gets as far as looking at documents. */
    ghost predicate Looks(blank: bool, options: SearchOptions)
      reads this
    {
      options.limit > 0 && !blank && documents != map[]
    }

    /** The checks before the query is embedded. */
    ghost predicate RefusesAtOnce(tokens: seq<Token>, blank: bool, options: SearchOptions)
      reads this
    {
      || options.limit > MAX_SEARCH_LIMIT
      || (options.candidateLimit.Some? &&
          !(Max(1, options.limit) <= options.candidateLimit.value <= MAX_SEARCH_CANDIDATE_LIMIT))
      || (Looks(blank, options) &&
          (!ValidWeights(options.weights) || options.minimumScore < 0.0 || "" in tokens))
    }

    ghost predicate Refuses(tokens: seq<Token>, blank: bool, vector: Vector, options: SearchOptions)
      reads this
    {
      || RefusesAtOnce(tokens, blank, options)
      || (Looks(blank, options)
          && options.weights.vector > 0.0 && (exists id :: id in documents && options.filter(documents[id]))
          && (|vector| < 1 || vectorDimensions != Some(|vector|)))
    }

    /** The part of a search before the query is embedded: the candidates are taken from the
        index as it is now. */
    method BeginSearch(tokens: seq<Token>, blank: bool, options: SearchOptions) returns (b: Begun)
      requires Valid()
      ensures b.Refused? <==> RefusesAtOnce(tokens, blank, options)
      ensures b.Candidates? ==> Looks(blank, options) && b.docs != map[] && Chosen(documents, b.docs, options.filter)
      ensures (b.Candidates? || b.NoCandidates?) && Looks(blank, options) ==>
                EnoughFor(documents, if b.Candidates? then b.docs else map[], tokens, options)
    {
      hide StatisticsOk, Hits;
      if options.limit > MAX_SEARCH_LIMIT { return Refused; }
      if options.candidateLimit != None
         && !(Max(1, options.limit) <= options.candidateLimit.value <= MAX_SEARCH_CANDIDATE_LIMIT) { return Refused; }
      if options.limit == 0 || blank || |documents| == 0 { return NoCandidates; }
      if !ValidWeights(options.weights) || options.minimumScore < 0.0 || "" in tokens { return Refused; }
      var found := CandidateIds(tokens, options.weights);
      var docs := map id | id in found && options.filter(documents[id]) :: documents[id];
      ChosenEnough(documents, found, docs, tokens, options);
      b := if docs == map[] then NoCandidates else Candidates(docs);
    }

    /** The part of a search after the query is embedded. The candidates are those of the
        beginning, whatever became of them; the statistics and the dimension are those of now.
        The results are those of the documents of now for every limit exactly if the same
        documents hit. */
    method FinishSearch(tokens: seq<Token>, docs: map<Id, Stored>, vector: Vector, options: SearchOptions)
      returns (r: SearchResult)
      requires Valid() && options.limit > 0 && ValidWeights(options.weights)
      requires ByOwnId(docs) && forall id :: id in docs ==> options.filter(docs[id])
      ensures r.RangeError? <==>
                options.weights.vector > 0.0 &&
                (|vector| < 1 || (vectorDimensions.Some? && vectorDimensions != Some(|vector|)))
      ensures r.DimensionMismatch? <==>
                && !r.RangeError? && options.weights.vector > 0.0
                && exists id :: id in docs && |docs[id].vector| != |vector|
      ensures r.NotNumbers? <==> !r.RangeError? && !r.DimensionMismatch? && documents == map[]
      ensures r.Found? ==> r.results == ResultsOf(QueryOf(tokens, vector, options), docs, options.limit)
      ensures r.Found? ==>
                && QueryTells(QueryOf(tokens, vector, options), documents, tokens, vector, options)
                && Answers(QueryOf(tokens, vector, options), docs, options, r.results)
      ensures r.Found? && SameHits(QueryOf(tokens, vector, options), docs, documents) ==>
                r.results == ResultsOf(QueryOf(tokens, vector, options), documents, options.limit)
    {
      hide StatisticsOk, SameHits, Answers, Hits, QueryTells;
      if options.weights.vector > 0.0 {
        if |vector| < 1 || (vectorDimensions != None && vectorDimensions.value != |vector|) { return RangeError; }
        if id :| id in docs && |docs[id].vector| != |vector| { return DimensionMismatch; }
      }
      if |documents| == 0 { return NotNumbers; }
      var results := Scan(QueryOf(tokens, vector, options), docs, docs.Keys, options.limit);
      ResultsAnswer(QueryOf(tokens, vector, options), docs, options);
      QueryToldOf(tokens, vector, options);
      SnapshotAgreesIff(QueryOf(tokens, vector, options), docs, documents);
      r := Found(results);
    }

    /** A search during which the index does not change: every check, and otherwise exactly the
        first results of a full scan. A blank query is one that has only white space; vector is
        the provider's answer. */
    method Search(tokens: seq<Token>, blank: bool, vector: Vector, options: SearchOptions) returns (r: SearchResult)
      requires Valid()
      ensures r.RangeError? <==> Refuses(tokens, blank, vector, options)
      ensures r.RangeError? || r.Found?
      ensures r.Found? && !Looks(blank, options) ==> r.results == []
      ensures r.Found? && Looks(blank, options) ==>
                r.results == ResultsOf(QueryOf(tokens, vector, options), documents, options.limit)
      ensures r.Found? && Looks(blank, options) ==>
                && QueryTells(QueryOf(tokens, vector, options), documents, tokens, vector, options)
                && Answers(QueryOf(tokens, vector, options), documents, options, r.results)
    {
      hide StatisticsOk, ResultsOf, Hits, Answers, QueryTells;
      if documents != map[] { QueryToldOf(tokens, vector, options); }
      var begun := BeginSearch(tokens, blank, options);
      match begun
      case Refused => return RangeError;
      case NoCandidates =>
        if Looks(blank, options) {
          NothingFound(QueryOf(tokens, vector, options), documents, options);
          ResultsAnswer(QueryOf(tokens, vector, options), documents, options);
        }
        return Found([]);
      case Candidates(docs) =>
        r := FinishSearch(tokens, docs, vector, options);
        SameResults(QueryOf(tokens, vector, options), documents, docs, options);
        ResultsAnswer(QueryOf(tokens, vector, options), documents, options);
    }

    /** With a zero vector weight only the inverted index's documents; otherwise all. */
    method CandidateIds(tokens: seq<Token>, weights: Weights) returns (found: set<Id>)
      requires Valid()
      ensures found <= documents.Keys
      ensures weights.vector != 0.0 ==> found == documents.Keys
      ensures forall id :: id in documents && (exists t :: t in tokens && t in documents[id].tokens) ==> id in found
    {
      if weights.vector != 0.0 { return documents.Keys; }
      found := {};
      var distinct := Unique(tokens);
      for i := 0 to |distinct|
        invariant found == set id | id in documents && exists j :: 0 <= j < i && distinct[j] in documents[id].tokens
      {
        var t := distinct[i];
        assert TableAt(documentFrequency, invertedIndex, t, Postings(documents, t));
        assert (if t in invertedIndex then invertedIndex[t] else {}) == Postings(documents, t);
        found := found + (if t in invertedIndex then invertedIndex[t] else {});
      }
      forall id | id in documents && (exists t :: t in tokens && t in documents[id].tokens) ensures id in found {
        var t :| t in tokens && t in documents[id].tokens;
        UniqueSame(tokens, t);
        var j :| 0 <= j < |distinct| && distinct[j] == t;
      }
    }

    /** Scores each candidate once and keeps only the best in a heap. */
    method Scan(q: Query, docs: map<Id, Stored>, ids: set<Id>, limit: nat) returns (results: seq<Scored>)
      requires ValidQuery(q) && ByOwnId(docs) && ids <= docs.Keys && limit > 0
      requires forall id :: id in ids ==> q.filter(docs[id])
      ensures results == First(Ranked(Hits(q, docs, ids)), limit)
    {
      hide Ranked, Hit, First, ScoreOf, Best, HeapOk, Hits;
      var heap := new Scored[limit];
      var size := 0;
      var left := ids;
      ghost var done: set<Id> := {};
      EmptyHeap(q, docs, heap[..0], limit);
      while left != {}
        invariant done + left == ids && done !! left && size <= limit
        invariant HeapOk(heap[..size]) && Best(multiset(heap[..size]), multiset(Hits(q, docs, done)), limit)
        decreases |left|
      {
        var id :| id in left;
        var scored := ScoreOf(q, docs[id]);
        HitsAddOne(q, docs, done, id);
        HitMeans(q, docs[id]);
        ghost var offered := multiset(Hits(q, docs, done));
        left, done := left - {id}, done + {id};
        if scored.score < q.minimumScore || scored.score <= 0.0 { continue; }
        size := InsertTopK(heap, size, scored, limit, offered);
      }
      assert done == ids;
      RankBest(heap[..size], Hits(q, docs, ids), limit);
      results := Sort(heap[..size]);
    }
  }

  /** The first results of a full scan of the documents. */
  ghost function ResultsOf(q: Query, docs: map<Id, Stored>, limit: nat): seq<Scored>
    requires ValidQuery(q)
  {
    First(Ranked(Hits(q, docs, docs.Keys)), limit)
  }

  /** The results are the top of the documents that pass the filter and score enough, and anything. */
  ghost predicate Answers(q: Query, docs: map<Id, Stored>, options: SearchOptions, results: seq<Scored>)
    requires ValidQuery(q)
  {
    Top(results,
        set id | id in docs && options.filter(docs[id]) && ScoreOf(q, docs[id]).score > 0.0
                 && ScoreOf(q, docs[id]).score >= options.minimumScore :: ScoreOf(q, docs[id]),
        options.limit)
  }

  lemma ResultsAnswer(q: Query, docs: map<Id, Stored>, options: SearchOptions)
    requires ValidQuery(q) && q.filter == options.filter && q.minimumScore == options.minimumScore
    ensures Answers(q, docs, options, ResultsOf(q, docs, options.limit))
  {
    hide Top, ScoreOf;
    assert Hits(q, docs, docs.Keys) ==
      set id | id in docs && options.filter(docs[id]) && ScoreOf(q, docs[id]).score > 0.0
               && ScoreOf(q, docs[id]).score >= options.minimumScore :: ScoreOf(q, docs[id]);
    hide Hits;
    RankedListsAll(Hits(q, docs, docs.Keys));
    FirstAreTop(Ranked(Hits(q, docs, docs.Keys)), Hits(q, docs, docs.Keys), options.limit);
  }

  /** The query has the request's tokens, vector and weights, the number of documents and how many
      have each token, and their average length, which counts as at least one. */
  ghost predicate QueryTells(q: Query, docs: map<Id, Stored>, tokens: seq<Token>, vector: Vector,
                             options: SearchOptions) {
    && q.tokens == tokens && q.vector == vector && q.weights == options.weights && q.count == |docs|
    && (forall t :: (if t in q.df then q.df[t] else 0) == |Postings(docs, t)|)
    && q.average * |docs| as real ==
         (if TotalLength(docs) < |docs| then |docs| as real else TotalLength(docs) as real)
  }

  /** The documents that were chosen are as they are in the index, and pass the filter. */
  ghost predicate Chosen(documents: map<Id, Stored>, docs: map<Id, Stored>, filter: Stored -> bool) {
    forall id :: id in docs ==> id in documents && docs[id] == documents[id] && docs[id].id == id && filter(docs[id])
  }

  /** With vectors all documents that pass the filter were chosen. In any case no query for these
      tokens would find another one. */
  ghost predicate EnoughFor(documents: map<Id, Stored>, docs: map<Id, Stored>, tokens: seq<Token>,
                            options: SearchOptions) {
    && (options.weights.vector != 0.0 ==> forall id :: id in documents && options.filter(documents[id]) ==> id in docs)
    && forall q :: ValidQuery(q) && Asks(q, tokens, options) ==>
         Hits(q, docs, docs.Keys) == Hits(q, documents, documents.Keys)
  }

  ghost predicate Asks(q: Query, tokens: seq<Token>, options: SearchOptions) {
    q.tokens == tokens && q.weights == options.weights && q.filter == options.filter
  }

  function Max(a: int, b: int): int { if a >= b then a else b }

  lemma HitMeans(q: Query, d: Stored)
    requires ValidQuery(q) && q.filter(d)
    ensures Hit(q, d) <==> ScoreOf(q, d).score >= q.minimumScore && ScoreOf(q, d).score > 0.0
  {}

  lemma EmptyHeap(q: Query, docs: map<Id, Stored>, heap: seq<Scored>, limit: nat)
    requires ValidQuery(q) && heap == []
    ensures HeapOk(heap) && Best(multiset(heap), multiset(Hits(q, docs, {})), limit)
  {
    assert Hits(q, docs, {}) == {};
  }

  lemma RankBest(kept: seq<Scored>, found: set<Scored>, limit: nat)
    requires Best(multiset(kept), multiset(found), limit)
    ensures Sort(kept) == First(Ranked(found), limit)
  {
    BestIsPrefix(kept, SeqOf(multiset(found)), limit);
  }

  lemma NothingFound(q: Query, documents: map<Id, Stored>, options: SearchOptions)
    requires ValidQuery(q) && Asks(q, q.tokens, options) && EnoughFor(documents, map[], q.tokens, options)
    ensures ResultsOf(q, documents, options.limit) == []
  {
    assert Hits(q, map[], {}) == {};
    RankedListsAll({});
  }

  lemma SameResults(q: Query, documents: map<Id, Stored>, docs: map<Id, Stored>, options: SearchOptions)
    requires ValidQuery(q) && Asks(q, q.tokens, options) && EnoughFor(documents, docs, q.tokens, options)
    ensures ResultsOf(q, docs, options.limit) == ResultsOf(q, documents, options.limit)
  {
    hide Hits, Ranked, First;
  }

  /** Scanning the filtered candidates finds what scanning everything finds. */
  lemma ChosenEnough(documents: map<Id, Stored>, found: set<Id>, docs: map<Id, Stored>, tokens: seq<Token>,
                     options: SearchOptions)
    requires ByOwnId(documents) && found <= documents.Keys
    requires docs == map id | id in found && options.filter(documents[id]) :: documents[id]
    requires options.weights.vector != 0.0 ==> found == documents.Keys
    requires forall id :: id in documents && (exists t :: t in tokens && t in documents[id].tokens) ==> id in found
    ensures Chosen(documents, docs, options.filter) && EnoughFor(documents, docs, tokens, options)
  {
    forall q | ValidQuery(q) && Asks(q, tokens, options)
      ensures Hits(q, docs, docs.Keys) == Hits(q, documents, documents.Keys)
    {
      if q.weights.vector == 0.0 { CandidatesAreEnough(q, documents, found); }
      ChosenHits(q, documents, found, docs);
    }
  }

  lemma ChosenHits(q: Query, documents: map<Id, Stored>, found: set<Id>, docs: map<Id, Stored>)
    requires ValidQuery(q) && found <= documents.Keys
    requires docs == map id | id in found && q.filter(documents[id]) :: documents[id]
    ensures Hits(q, docs, docs.Keys) == Hits(q, documents, found)
  {
    hide ScoreOf;
    forall x | x in Hits(q, documents, found) ensures x in Hits(q, docs, docs.Keys) {
      var id :| id in found && Hit(q, documents[id]) && x == ScoreOf(q, documents[id]);
      assert id in docs && docs[id] == documents[id];
    }
  }

  // ---- an index that changes while the query is embedded -------------------------------------

  /** The same documents hit, with the same scores. */
  ghost predicate SameHits(q: Query, docs: map<Id, Stored>, documents: map<Id, Stored>)
    requires ValidQuery(q)
  {
    && (forall id :: id in docs && Hit(q, docs[id]) ==>
          id in documents && Hit(q, documents[id]) && ScoreOf(q, documents[id]) == ScoreOf(q, docs[id]))
    && (forall id :: id in documents && Hit(q, documents[id]) ==> id in docs && Hit(q, docs[id]))
  }

  lemma SameHitsIff(q: Query, docs: map<Id, Stored>, documents: map<Id, Stored>)
    requires ValidQuery(q) && ByOwnId(docs) && ByOwnId(documents)
    ensures Hits(q, docs, docs.Keys) == Hits(q, documents, documents.Keys) <==> SameHits(q, docs, documents)
  {
    if Hits(q, docs, docs.Keys) == Hits(q, documents, documents.Keys) {
      forall id | id in docs && Hit(q, docs[id])
        ensures id in documents && Hit(q, documents[id]) && ScoreOf(q, documents[id]) == ScoreOf(q, docs[id])
      {
        FoundUnderOwnId(q, docs, documents, id);
      }
      forall id | id in documents && Hit(q, documents[id]) ensures id in docs && Hit(q, docs[id]) {
        FoundUnderOwnId(q, documents, docs, id);
      }
    }
    if SameHits(q, docs, documents) {
      hide Hit, ScoreOf;
      forall x ensures x in Hits(q, docs, docs.Keys) <==> x in Hits(q, documents, documents.Keys) {}
    }
  }

  lemma FoundUnderOwnId(q: Query, docs: map<Id, Stored>, others: map<Id, Stored>, id: Id)
    requires ValidQuery(q) && ByOwnId(docs) && ByOwnId(others) && id in docs && Hit(q, docs[id])
    requires Hits(q, docs, docs.Keys) == Hits(q, others, others.Keys)
    ensures id in others && Hit(q, others[id]) && ScoreOf(q, others[id]) == ScoreOf(q, docs[id])
  {
    hide Hit;
    var x := ScoreOf(q, docs[id]);
    assert x in Hits(q, docs, docs.Keys);
    var other :| other in others && Hit(q, others[other]) && x == ScoreOf(q, others[other]);
    assert other == x.id == id;
  }

  /** The candidates of the beginning give the results of the documents of now, however many are
      asked for, if and only if the same documents hit with the same scores. */
  lemma SnapshotAgreesIff(q: Query, docs: map<Id, Stored>, documents: map<Id, Stored>)
    requires ValidQuery(q) && ByOwnId(docs) && ByOwnId(documents)
    ensures (forall limit: nat :: ResultsOf(q, docs, limit) == ResultsOf(q, documents, limit)) <==>
              SameHits(q, docs, documents)
  {
    hide Hits, SameHits, Ranked;
    SameHitsIff(q, docs, documents);
    var found, now := Hits(q, docs, docs.Keys), Hits(q, documents, documents.Keys);
    if forall limit: nat :: ResultsOf(q, docs, limit) == ResultsOf(q, documents, limit) {
      RankedListsAll(found);
      RankedListsAll(now);
      var limit := |found| + |now|;
      assert ResultsOf(q, docs, limit) == ResultsOf(q, documents, limit);
      assert multiset(found) == multiset(now);
      SameMembers(found, now);
    }
  }

  lemma SameMembers(a: set<Scored>, b: set<Scored>)
    requires multiset(a) == multiset(b)
    ensures a == b
  {
    forall x ensures x in a <==> x in b { assert x in multiset(a) <==> x in multiset(b); }
  }

  /** A document that is deleted while the query is embedded is found all the same. */
  method DeletedStillFoundWitness() returns (index: HybridIndex, r: SearchResult)
    ensures fresh(index) && index.Valid() && 1 !in index.documents && 2 in index.documents
    ensures r.Found? && exists i :: 0 <= i < |r.results| && r.results[i].id == 1
  {
    hide StatisticsOk, Hits, Ranked, ResultsOf, ScoreOf, Hit, EnoughFor;
    var options := SearchOptions(10, None, Weights(0.0, 1.0), 0.0, d => true);
    var tokens, vector := ["x"], [1.0];
    index := new HybridIndex(x => 0.0, (a, b) => 1.0);
    var added := index.Upsert(Stored(1, [], vector, ""));
    added := index.Upsert(Stored(2, [], vector, ""));
    var begun := index.BeginSearch(tokens, false, options);
    AllChosen(index.documents, if begun.Candidates? then begun.docs else map[], tokens, options);
    assert begun.Candidates? by { assert 1 in index.documents; }
    var docs := begun.docs;
    var deleted := index.Delete(1);
    r := index.FinishSearch(tokens, docs, vector, options);
    var q := index.QueryOf(tokens, vector, options);
    VectorHit(q, docs[1]);
    FoundAmongTwo(q, docs, 10, 1);
  }

  lemma AllChosen(documents: map<Id, Stored>, docs: map<Id, Stored>, tokens: seq<Token>, options: SearchOptions)
    requires Chosen(documents, docs, options.filter) && EnoughFor(documents, docs, tokens, options)
    requires options.weights.vector != 0.0 && forall id :: id in documents ==> options.filter(documents[id])
    ensures docs == documents
  {}

  lemma FoundAmongTwo(q: Query, docs: map<Id, Stored>, limit: nat, id: Id)
    requires ValidQuery(q) && ByOwnId(docs) && |docs| <= limit && id in docs && Hit(q, docs[id])
    ensures exists i :: 0 <= i < |ResultsOf(q, docs, limit)| && ResultsOf(q, docs, limit)[i].id == id
  {
    hide Hits, Ranked, First, Hit, ScoreOf;
    var x, found := ScoreOf(q, docs[id]), Hits(q, docs, docs.Keys);
    HitIsAmong(q, docs, id);
    RankedListsAll(found);
    AtMostDocs(q, docs, docs.Keys);
    assert x in multiset(found);
    FirstIsAll(Ranked(found), limit);
    var i :| 0 <= i < |Ranked(found)| && Ranked(found)[i] == x;
    assert ResultsOf(q, docs, limit)[i].id == id;
  }

  lemma HitIsAmong(q: Query, docs: map<Id, Stored>, id: Id)
    requires ValidQuery(q) && ByOwnId(docs) && id in docs && Hit(q, docs[id])
    ensures ScoreOf(q, docs[id]) in Hits(q, docs, docs.Keys) && ScoreOf(q, docs[id]).id == id
  {}

  lemma FirstIsAll(s: seq<Scored>, limit: nat)
    requires |s| <= limit
    ensures First(s, limit) == s
  {}

  lemma {:induction false} AtMostDocs(q: Query, docs: map<Id, Stored>, ids: set<Id>)
    requires ValidQuery(q) && ByOwnId(docs) && ids <= docs.Keys
    ensures |Hits(q, docs, ids)| <= |ids| <= |docs|
  {
    hide Hit, ScoreOf;
    SizeWithin(ids, docs.Keys);
    if ids == {} { return; }
    var id :| id in ids;
    AtMostDocs(q, docs, ids - {id});
    assert ids - {id} + {id} == ids;
    HitsAddOne(q, docs, ids - {id}, id);
    if Hit(q, docs[id]) {
      assert |multiset(Hits(q, docs, ids))| == |Hits(q, docs, ids - {id})| + 1;
    }
  }

  lemma VectorHit(q: Query, d: Stored)
    requires ValidQuery(q) && q.weights == Weights(0.0, 1.0) && q.minimumScore == 0.0 && q.filter(d)
    requires q.cosine(q.vector, d.vector) == 1.0
    ensures Hit(q, d)
  {
    var lexical := Normalized(Bm25(q.log, Unique(q.tokens), d.tokens, q.count, q.df, q.average));
    assert 0.0 * lexical == 0.0;
  }

  lemma {:induction false} SizeWithin<T>(a: set<T>, b: set<T>)
    requires a <= b
    ensures |a| <= |b|
  {
    if a != {} {
      var x :| x in a;
      SizeWithin(a - {x}, b - {x});
    }
  }
}
