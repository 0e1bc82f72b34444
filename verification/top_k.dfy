/** Bounded selection: a heap whose root is the worst retained result, against a full sort. */
module TopK {

  datatype Scored = Scored(id: nat, score: real, lexical: real, vector: real)

  // ---- the public total order -----------------------------------------------------------

  function CompareDescending(left: real, right: real): int {
    if left == right then 0 else if left > right then -1 else 1
  }

  function CompareIds(left: nat, right: nat): int {
    if left == right then 0 else if left < right then -1 else 1
  }

  function Compare(left: Scored, right: Scored): int {
    var byScore := CompareDescending(left.score, right.score);
    var byLexical := CompareDescending(left.lexical, right.lexical);
    var byVector := CompareDescending(left.vector, right.vector);
    if byScore != 0 then byScore
    else if byLexical != 0 then byLexical
    else if byVector != 0 then byVector
    else CompareIds(left.id, right.id)
  }

  predicate NotWorse(a: Scored, b: Scored) { Compare(a, b) <= 0 }

  /** a is shown before b: it has the higher score, or else the higher lexical part, or else the
      higher vector part, or else the smaller id. */
  ghost predicate ShownBefore(a: Scored, b: Scored) {
    || a.score > b.score
    || (a.score == b.score && a.lexical > b.lexical)
    || (a.score == b.score && a.lexical == b.lexical && a.vector > b.vector)
    || (a.score == b.score && a.lexical == b.lexical && a.vector == b.vector && a.id < b.id)
  }

  lemma NotWorseIff(a: Scored, b: Scored)
    ensures NotWorse(a, b) <==> a == b || ShownBefore(a, b)
  {}

  lemma CompareIsTotal(a: Scored, b: Scored)
    ensures NotWorse(a, b) || NotWorse(b, a)
    ensures NotWorse(a, b) && NotWorse(b, a) <==> a == b
    ensures Compare(a, b) > 0 <==> !NotWorse(a, b)
  {}

  lemma CompareTransitive(a: Scored, b: Scored, c: Scored)
    requires NotWorse(a, b) && NotWorse(b, c)
    ensures NotWorse(a, c)
  {}

  // ---- sorting --------------------------------------------------------------------------

  ghost predicate Sorted(s: seq<Scored>) {
    forall i, j :: 0 <= i < j < |s| ==> NotWorse(s[i], s[j])
  }

  function InsertSorted(x: Scored, s: seq<Scored>): seq<Scored> {
    if s == [] || NotWorse(x, s[0]) then [x] + s else [s[0]] + InsertSorted(x, s[1..])
  }

  function Sort(s: seq<Scored>): seq<Scored> {
    if s == [] then [] else InsertSorted(s[0], Sort(s[1..]))
  }

  lemma {:induction false} InsertSortedOk(x: Scored, s: seq<Scored>)
    requires Sorted(s)
    ensures Sorted(InsertSorted(x, s)) && multiset(InsertSorted(x, s)) == multiset(s) + multiset{x}
  {
    if s == [] {
    } else if NotWorse(x, s[0]) {
      forall j | 0 <= j < |s| ensures NotWorse(x, s[j]) {
        if j > 0 { CompareTransitive(x, s[0], s[j]); }
      }
    } else {
      CompareIsTotal(x, s[0]);
      InsertSortedOk(x, s[1..]);
      var rest := InsertSorted(x, s[1..]);
      assert s == [s[0]] + s[1..];
      forall j | 0 <= j < |rest| ensures NotWorse(s[0], rest[j]) {
        assert rest[j] in multiset(rest);
        if rest[j] != x {
          assert rest[j] in multiset(s[1..]);
          assert rest[j] in s[1..];
        }
      }
    }
  }

  lemma {:induction false} SortOk(s: seq<Scored>)
    ensures Sorted(Sort(s)) && multiset(Sort(s)) == multiset(s) && |Sort(s)| == |s|
  {
    if s != [] {
      SortOk(s[1..]);
      InsertSortedOk(s[0], Sort(s[1..]));
      assert s == [s[0]] + s[1..];
    }
    assert |multiset(Sort(s))| == |multiset(s)|;
  }

  lemma LeastFirst(a: seq<Scored>, b: seq<Scored>)
    requires a != [] && b != [] && Sorted(a) && Sorted(b) && multiset(a) == multiset(b)
    ensures a[0] == b[0]
  {
    assert a[0] in multiset(b) && b[0] in multiset(a);
    var i :| 0 <= i < |b| && b[i] == a[0];
    var j :| 0 <= j < |a| && a[j] == b[0];
    CompareIsTotal(a[0], b[0]);
    assert i > 0 ==> NotWorse(b[0], b[i]);
    assert j > 0 ==> NotWorse(a[0], a[j]);
  }

  /** The order is total, so a multiset has one sorted arrangement. */
  lemma {:induction false} SortedUnique(a: seq<Scored>, b: seq<Scored>)
    requires Sorted(a) && Sorted(b) && multiset(a) == multiset(b)
    ensures a == b
  {
    assert |a| == |multiset(a)| == |multiset(b)| == |b|;
    if a != [] {
      LeastFirst(a, b);
      hide NotWorse;
      assert a == [a[0]] + a[1..] && b == [b[0]] + b[1..];
      assert multiset(a[1..]) == multiset(a) - multiset{a[0]};
      assert multiset(b[1..]) == multiset(b) - multiset{b[0]};
      SortedUnique(a[1..], b[1..]);
    }
  }

  /** Nothing left out is better than anything kept, and nothing is left out needlessly. */
  ghost predicate Best(kept: multiset<Scored>, all: multiset<Scored>, limit: nat) {
    && kept <= all
    && |kept| == (if |all| <= limit then |all| else limit)
    && (forall x, y :: x in kept && y in all - kept ==> NotWorse(x, y))
  }

  function First(s: seq<Scored>, limit: nat): seq<Scored> {
    if |s| <= limit then s else s[..limit]
  }

  /** The results are found, in the order that is shown, as many as fit, and everything that was
      found and is left out would be shown after each of them. */
  ghost predicate Top(results: seq<Scored>, found: set<Scored>, limit: nat) {
    && |results| == (if |found| <= limit then |found| else limit)
    && (forall i {:trigger results[i]} :: 0 <= i < |results| ==> results[i] in found)
    && (forall i, j :: 0 <= i < j < |results| ==> ShownBefore(results[i], results[j]))
    && (forall x, i {:trigger x in found, results[i]} :: x in found && x !in results && 0 <= i < |results| ==>
          ShownBefore(results[i], x))
  }

  lemma FirstAreTop(sorted: seq<Scored>, found: set<Scored>, limit: nat)
    requires Sorted(sorted) && multiset(sorted) == multiset(found)
    ensures Top(First(sorted, limit), found, limit)
  {
    var results := First(sorted, limit);
    assert |sorted| == |multiset(sorted)| == |multiset(found)| == |found|;
    forall x ensures x in found <==> x in sorted {
      assert x in multiset(sorted) <==> x in multiset(found);
    }
    forall i, j | 0 <= i < j < |sorted| ensures ShownBefore(sorted[i], sorted[j]) {
      NotWorseIff(sorted[i], sorted[j]);
      OnceOnly(sorted, found, i, j);
    }
    forall i | 0 <= i < |results| ensures results[i] in found { assert sorted[i] in sorted; }
    forall x, i | x in found && x !in results && 0 <= i < |results| ensures ShownBefore(results[i], x) {
      var j :| 0 <= j < |sorted| && sorted[j] == x;
      assert forall k :: 0 <= k < |results| ==> results[k] == sorted[k] && sorted[k] in results;
    }
  }

  /** Each found one comes once. */
  lemma OnceOnly(s: seq<Scored>, found: set<Scored>, i: nat, j: nat)
    requires multiset(s) == multiset(found) && i < j < |s|
    ensures s[i] != s[j]
  {
    var x := s[i];
    assert multiset(found)[x] <= 1;
    assert s == s[..i] + [s[i]] + s[i + 1..j] + [s[j]] + s[j + 1..];
    assert multiset(s) == multiset(s[..i]) + multiset([s[i]]) + multiset(s[i + 1..j]) + multiset([s[j]])
                          + multiset(s[j + 1..]);
    assert multiset(s)[x] >= 1 + multiset([s[j]])[x];
  }

  lemma SortedAppend(a: seq<Scored>, b: seq<Scored>)
    requires Sorted(a) && Sorted(b)
    requires forall x, y :: x in multiset(a) && y in multiset(b) ==> NotWorse(x, y)
    ensures Sorted(a + b)
  {
    hide NotWorse;
    forall i, j | 0 <= i < j < |a + b| ensures NotWorse((a + b)[i], (a + b)[j]) {
      if i < |a| <= j {
        assert a[i] in multiset(a) && b[j - |a|] in multiset(b);
      }
    }
  }

  /** Sorting the best is the same as sorting everything and taking the first. */
  lemma BestIsPrefix(kept: seq<Scored>, all: seq<Scored>, limit: nat)
    requires Best(multiset(kept), multiset(all), limit)
    ensures Sort(kept) == First(Sort(all), limit)
  {
    SortOk(kept);
    SortOk(all);
    var left := multiset(all) - multiset(kept);
    var rest := SeqOf(left);
    SortOk(rest);
    var a, b := Sort(kept), Sort(rest);
    forall x, y | x in multiset(a) && y in multiset(b) ensures NotWorse(x, y) {}
    SortedAppend(a, b);
    hide NotWorse, Sorted, Sort;
    assert multiset(a + b) == multiset(all);
    SortedUnique(a + b, Sort(all));
    assert |kept| == |multiset(kept)| && |all| == |multiset(all)|;
    assert a == (a + b)[..|a|];
  }

  ghost function SeqOf(m: multiset<Scored>): (s: seq<Scored>)
    ensures multiset(s) == m
    decreases |m|
  {
    if m == multiset{} then []
    else
      var x :| x in m;
      [x] + SeqOf(m - multiset{x})
  }

  // ---- the heap -------------------------------------------------------------------------

  function Parent(i: nat): nat
    requires i > 0
  {
    (i - 1) / 2
  }

  /** Every result is at least as good as its parent: the root is the worst. */
  ghost predicate HeapOk(h: seq<Scored>) {
    forall i {:trigger h[i]} :: 0 < i < |h| ==> NotWorse(h[i], h[Parent(i)])
  }

  lemma {:induction false} RootIsWorst(h: seq<Scored>, i: nat)
    requires HeapOk(h) && i < |h|
    ensures NotWorse(h[i], h[0])
  {
    if i == 0 {
      CompareIsTotal(h[0], h[0]);
    } else {
      RootIsWorst(h, Parent(i));
      assert NotWorse(h[i], h[Parent(i)]);
      CompareTransitive(h[i], h[Parent(i)], h[0]);
    }
  }

  /** The heap property but for the place of one result, which fits between its neighbours. */
  ghost predicate HeapBut(h: seq<Scored>, index: nat, up: bool) {
    && (forall i {:trigger h[i]} ::
          0 < i < |h| && (if up then i != index else Parent(i) != index) ==> NotWorse(h[i], h[Parent(i)]))
    && (forall i {:trigger h[i]} :: 0 < i < |h| && Parent(i) == index && index > 0 ==> NotWorse(h[i], h[Parent(index)]))
  }

  lemma SwapUp(h: seq<Scored>, index: nat)
    requires 0 < index < |h| && HeapBut(h, index, true) && !NotWorse(h[index], h[Parent(index)])
    ensures HeapBut(h[index := h[Parent(index)]][Parent(index) := h[index]], Parent(index), true)
  {
    var p := Parent(index);
    var g := h[index := h[p]][p := h[index]];
    CompareIsTotal(h[index], h[p]);
    forall i | 0 < i < |g| && i != p ensures NotWorse(g[i], g[Parent(i)]) {
      if i != index {
        assert NotWorse(h[i], h[Parent(i)]);
        if Parent(i) == p { CompareTransitive(h[i], h[p], h[index]); }
      }
    }
    forall i | 0 < i < |g| && Parent(i) == p && p > 0 ensures NotWorse(g[i], g[Parent(p)]) {
      assert NotWorse(h[p], h[Parent(p)]);
      if i != index {
        assert NotWorse(h[i], h[p]);
        CompareTransitive(h[i], h[p], h[Parent(p)]);
      }
    }
  }

  lemma SwapDown(h: seq<Scored>, index: nat, worst: nat)
    requires index < worst < |h| && Parent(worst) == index && HeapBut(h, index, false)
    requires !NotWorse(h[worst], h[index])
    requires forall i {:trigger h[i]} :: 0 < i < |h| && Parent(i) == index ==> NotWorse(h[i], h[worst])
    ensures HeapBut(h[index := h[worst]][worst := h[index]], worst, false)
  {
    var g := h[index := h[worst]][worst := h[index]];
    CompareIsTotal(h[worst], h[index]);
    forall i | 0 < i < |g| && Parent(i) != worst ensures NotWorse(g[i], g[Parent(i)]) {
      assert h[i] == h[i];
    }
    forall i | 0 < i < |g| && Parent(i) == worst ensures NotWorse(g[i], g[Parent(worst)]) {
      assert NotWorse(h[i], h[Parent(i)]);
    }
  }

  method SiftWorstUp(heap: array<Scored>, size: nat)
    requires 0 < size <= heap.Length && HeapBut(heap[..size], size - 1, true)
    modifies heap
    ensures HeapOk(heap[..size]) && multiset(heap[..size]) == multiset(old(heap[..size]))
  {
    var index := size - 1;
    ghost var all := multiset(heap[..size]);
    while index > 0
      invariant index < size && HeapBut(heap[..size], index, true)
      invariant multiset(heap[..size]) == all
    {
      var parent := (index - 1) / 2;
      if Compare(heap[index], heap[parent]) <= 0 { break; }
      ghost var h := heap[..size];
      SwapUp(h, index);
      SwapSame(h, index, parent);
      heap[index], heap[parent] := heap[parent], heap[index];
      assert heap[..size] == h[index := h[parent]][parent := h[index]];
      index := parent;
    }
  }

  lemma SwapSame(h: seq<Scored>, i: nat, j: nat)
    requires i < |h| && j < |h|
    ensures multiset(h[i := h[j]][j := h[i]]) == multiset(h)
  {}

  /** The worst of a result and its children. */
  method WorstOf(heap: array<Scored>, size: nat, index: nat, ghost h: seq<Scored>) returns (worst: nat)
    requires index < size <= heap.Length && h == heap[..size]
    ensures index <= worst < size
    ensures worst != index ==> Parent(worst) == index && !NotWorse(h[worst], h[index])
    ensures forall i {:trigger h[i]} :: 0 < i < |h| && Parent(i) == index ==> NotWorse(h[i], h[worst])
  {
    var left := index * 2 + 1;
    var right := left + 1;
    worst := index;
    if left < size && Compare(heap[left], heap[worst]) > 0 { worst := left; }
    if right < size && Compare(heap[right], heap[worst]) > 0 { worst := right; }
    WorstChild(h, index, worst);
  }

  method SiftWorstDown(heap: array<Scored>, size: nat)
    requires 0 < size <= heap.Length && HeapBut(heap[..size], 0, false)
    modifies heap
    ensures HeapOk(heap[..size]) && multiset(heap[..size]) == multiset(old(heap[..size]))
  {
    hide HeapBut, HeapOk, NotWorse, Compare;
    var index := 0;
    ghost var all := multiset(heap[..size]);
    while true
      invariant index < size && HeapBut(heap[..size], index, false)
      invariant multiset(heap[..size]) == all
      decreases size - index
    {
      ghost var h := heap[..size];
      var worst := WorstOf(heap, size, index, h);
      if worst == index {
        SunkHeap(h, index);
        break;
      }
      SwapDown(h, index, worst);
      SwapSame(h, index, worst);
      heap[index], heap[worst] := heap[worst], heap[index];
      assert heap[..size] == h[index := h[worst]][worst := h[index]];
      index := worst;
    }
  }

  lemma SunkHeap(h: seq<Scored>, index: nat)
    requires index < |h| && HeapBut(h, index, false)
    requires forall i {:trigger h[i]} :: 0 < i < |h| && Parent(i) == index ==> NotWorse(h[i], h[index])
    ensures HeapOk(h)
  {}

  lemma WorstChild(h: seq<Scored>, index: nat, worst: nat)
    requires index < |h| && index <= worst < |h|
    requires var left := index * 2 + 1;
             var first := if left < |h| && Compare(h[left], h[index]) > 0 then left else index;
             worst == if left + 1 < |h| && Compare(h[left + 1], h[first]) > 0 then left + 1 else first
    ensures forall i {:trigger h[i]} :: 0 < i < |h| && Parent(i) == index ==> NotWorse(h[i], h[worst])
    ensures worst != index ==> Parent(worst) == index && !NotWorse(h[worst], h[index])
  {
    var left := index * 2 + 1;
    if left < |h| { CompareIsTotal(h[left], h[index]); }
    if left + 1 < |h| { CompareIsTotal(h[left + 1], h[left]); CompareIsTotal(h[left + 1], h[index]); }
    if worst == left + 1 && left < |h| && Compare(h[left], h[index]) <= 0 {
      CompareTransitive(h[left], h[index], h[left + 1]);
    }
    forall i | 0 < i < |h| && Parent(i) == index ensures NotWorse(h[i], h[worst]) {
      assert i == left || i == left + 1;
      CompareIsTotal(h[i], h[i]);
    }
  }

  /** Offers one candidate to the heap of at most limit results. */
  method InsertTopK(heap: array<Scored>, size: nat, candidate: Scored, limit: nat, ghost offered: multiset<Scored>)
    returns (grown: nat)
    requires 0 < limit == heap.Length && size <= limit
    requires HeapOk(heap[..size]) && Best(multiset(heap[..size]), offered, limit)
    modifies heap
    ensures size <= grown <= limit
    ensures HeapOk(heap[..grown]) && Best(multiset(heap[..grown]), offered + multiset{candidate}, limit)
  {
    ghost var h := heap[..size];
    if size < limit {
      heap[size] := candidate;
      grown := size + 1;
      assert heap[..grown] == h + [candidate];
      AppendHeap(h, candidate);
      SiftWorstUp(heap, grown);
      BestRoom(h, candidate, offered, limit);
      return;
    }
    grown := size;
    RootReplaceable(h, candidate, offered, limit);
    if Compare(candidate, heap[0]) >= 0 { return; }
    heap[0] := candidate;
    assert heap[..size] == h[0 := candidate];
    SiftWorstDown(heap, size);
  }

  lemma AppendHeap(h: seq<Scored>, candidate: Scored)
    requires HeapOk(h)
    ensures HeapBut(h + [candidate], |h|, true)
  {
    var g := h + [candidate];
    forall i | 0 < i < |g| && i != |h| ensures NotWorse(g[i], g[Parent(i)]) { assert h[i] == g[i]; }
  }

  lemma BestRoom(h: seq<Scored>, candidate: Scored, offered: multiset<Scored>, limit: nat)
    requires Best(multiset(h), offered, limit) && |h| < limit
    ensures Best(multiset(h + [candidate]), offered + multiset{candidate}, limit)
  {
    assert |multiset(h)| == |h|;
    assert |offered - multiset(h)| == |offered| - |multiset(h)| == 0;
    assert multiset(h) == offered;
  }

  lemma RootReplaceable(h: seq<Scored>, candidate: Scored, offered: multiset<Scored>, limit: nat)
    requires HeapOk(h) && 0 < |h| == limit && Best(multiset(h), offered, limit)
    ensures Compare(candidate, h[0]) >= 0 ==> Best(multiset(h), offered + multiset{candidate}, limit)
    ensures Compare(candidate, h[0]) < 0 ==> HeapBut(h[0 := candidate], 0, false)
                                             && Best(multiset(h[0 := candidate]), offered + multiset{candidate}, limit)
  {
    forall x | x in multiset(h) ensures NotWorse(x, h[0]) {
      var i :| 0 <= i < |h| && h[i] == x;
      RootIsWorst(h, i);
    }
    CompareIsTotal(candidate, h[0]);
    if Compare(candidate, h[0]) >= 0 { RejectCandidate(h, candidate, offered, limit); }
    else {
      ReplaceRoot(h, candidate, offered, limit);
      var g := h[0 := candidate];
      forall i | 0 < i < |g| && Parent(i) != 0 ensures NotWorse(g[i], g[Parent(i)]) { assert h[i] == g[i]; }
    }
  }

  lemma RejectCandidate(h: seq<Scored>, candidate: Scored, offered: multiset<Scored>, limit: nat)
    requires 0 < |h| == limit && Best(multiset(h), offered, limit) && NotWorse(h[0], candidate)
    requires forall x :: x in multiset(h) ==> NotWorse(x, h[0])
    ensures Best(multiset(h), offered + multiset{candidate}, limit)
  {
    var all := offered + multiset{candidate};
    forall x, y | x in multiset(h) && y in all - multiset(h) ensures NotWorse(x, y) {
      if y == candidate {
        CompareTransitive(x, h[0], candidate);
      } else {
        assert y in offered - multiset(h);
      }
    }
  }

  lemma ReplaceRoot(h: seq<Scored>, candidate: Scored, offered: multiset<Scored>, limit: nat)
    requires 0 < |h| == limit && Best(multiset(h), offered, limit) && NotWorse(candidate, h[0])
    requires forall x :: x in multiset(h) ==> NotWorse(x, h[0])
    ensures Best(multiset(h[0 := candidate]), offered + multiset{candidate}, limit)
  {
    var kept, all := multiset(h[0 := candidate]), offered + multiset{candidate};
    assert kept == multiset(h) - multiset{h[0]} + multiset{candidate};
    assert h[0] in multiset(h);
    forall x, y | x in kept && y in all - kept ensures NotWorse(x, y) {
      assert NotWorse(x, h[0]);
      if y == h[0] {
      } else {
        assert y in offered - multiset(h);
        CompareTransitive(x, h[0], y);
      }
    }
  }
}
