/** A codec that has every property that is assumed of the journal's, so that the assumptions do
    not contradict each other. It writes numbers in unary. */
module JournalCodec {
  import opened Journal
  import opened Wrappers

  const ONE: Byte := 1
  const END_NUMBER: Byte := 0
  const END_FIELD: Byte := 2
  const START: Byte := 3
  const STOP: Byte := 4

  function Unary(n: nat): Bytes {
    if n == 0 then [END_NUMBER] else [ONE] + Unary(n - 1)
  }

  function Numbers(ns: seq<nat>): Bytes {
    if ns == [] then [END_FIELD] else Unary(ns[0]) + Numbers(ns[1..])
  }

  function Fields(fields: seq<seq<nat>>): Bytes {
    if fields == [] then [] else Numbers(fields[0]) + Fields(fields[1..])
  }

  function Chars(s: string): seq<nat> { seq(|s|, i requires 0 <= i < |s| => s[i] as nat) }

  function FieldsOf(e: Entry): seq<seq<nat>> {
    match e
    case EventEntry(cursor, event) =>
      [[0], [cursor], Chars(event.tenantId), Chars(event.idempotencyKey), Chars(event.eventId),
       Chars(event.requestDigest), event.payload]
    case DecisionEntry(cursor, decidedFor, decision) => [[1], [cursor], Chars(decidedFor), decision]
  }

  function Encode(e: Entry): Bytes { [START] + Fields(FieldsOf(e)) + [STOP] }

  ghost function Parse(text: Bytes): Option<Entry> {
    if e :| Encode(e) == text then Some(e) else None
  }

  // ---- reading is unambiguous -----------------------------------------------------------

  lemma Assoc(a: Bytes, b: Bytes, c: Bytes)
    ensures (a + b) + c == a + (b + c)
  {}

  lemma {:induction false} UnaryInjective(m: nat, n: nat, x: Bytes, y: Bytes)
    requires Unary(m) + x == Unary(n) + y
    ensures m == n && x == y
  {
    assert (Unary(m) + x)[0] == Unary(m)[0] && (Unary(n) + y)[0] == Unary(n)[0];
    assert (Unary(m) + x)[1..] == Unary(m)[1..] + x && (Unary(n) + y)[1..] == Unary(n)[1..] + y;
    if m == 0 {
      assert Unary(m)[1..] + x == x && Unary(n)[1..] + y == y;
    } else {
      UnaryInjective(m - 1, n - 1, x, y);
    }
  }

  lemma NumbersFirst(ns: seq<nat>, x: Bytes)
    ensures (Numbers(ns) + x)[0] == END_FIELD <==> ns == []
  {
    if ns != [] { assert (Numbers(ns) + x)[0] == Unary(ns[0])[0]; }
  }

  lemma {:induction false} NumbersInjective(a: seq<nat>, b: seq<nat>, x: Bytes, y: Bytes)
    requires Numbers(a) + x == Numbers(b) + y
    ensures a == b && x == y
  {
    NumbersFirst(a, x);
    NumbersFirst(b, y);
    if a == [] {
      assert x == (Numbers(a) + x)[1..] && y == (Numbers(b) + y)[1..];
    } else {
      Assoc(Unary(a[0]), Numbers(a[1..]), x);
      Assoc(Unary(b[0]), Numbers(b[1..]), y);
      UnaryInjective(a[0], b[0], Numbers(a[1..]) + x, Numbers(b[1..]) + y);
      NumbersInjective(a[1..], b[1..], x, y);
      assert a == [a[0]] + a[1..] && b == [b[0]] + b[1..];
    }
  }

  lemma {:induction false} FieldsInjective(a: seq<seq<nat>>, b: seq<seq<nat>>, x: Bytes, y: Bytes)
    requires |a| == |b| && Fields(a) + x == Fields(b) + y
    ensures a == b
  {
    if a != [] {
      Assoc(Numbers(a[0]), Fields(a[1..]), x);
      Assoc(Numbers(b[0]), Fields(b[1..]), y);
      NumbersInjective(a[0], b[0], Fields(a[1..]) + x, Fields(b[1..]) + y);
      FieldsInjective(a[1..], b[1..], x, y);
      assert a == [a[0]] + a[1..] && b == [b[0]] + b[1..];
    }
  }

  lemma CharsInjective(s: string, t: string)
    requires Chars(s) == Chars(t)
    ensures s == t
  {
    assert |s| == |Chars(s)| == |t|;
    assert forall i :: 0 <= i < |s| ==> Chars(s)[i] == s[i] as nat && Chars(t)[i] == t[i] as nat;
  }

  lemma SameKind(e: Entry, f: Entry)
    requires Encode(e) == Encode(f)
    ensures FieldsOf(e) == FieldsOf(f)
  {
    var a, b := FieldsOf(e), FieldsOf(f);
    assert Encode(e)[1..] == Fields(a) + [STOP] && Encode(f)[1..] == Fields(b) + [STOP];
    Assoc(Numbers(a[0]), Fields(a[1..]), [STOP]);
    Assoc(Numbers(b[0]), Fields(b[1..]), [STOP]);
    NumbersInjective(a[0], b[0], Fields(a[1..]) + [STOP], Fields(b[1..]) + [STOP]);
    assert a[0][0] == b[0][0];
    FieldsInjective(a, b, [STOP], [STOP]);
  }

  lemma EncodeInjective(e: Entry, f: Entry)
    requires Encode(e) == Encode(f)
    ensures e == f
  {
    SameKind(e, f);
    var a, b := FieldsOf(e), FieldsOf(f);
    assert a[0][0] == b[0][0] && a[1][0] == b[1][0] && a[2] == b[2] && a[3] == b[3];
    match e
    case EventEntry(_, event) =>
      assert a[4] == b[4] && a[5] == b[5] && a[6] == b[6];
      CharsInjective(event.tenantId, f.event.tenantId);
      CharsInjective(event.idempotencyKey, f.event.idempotencyKey);
      CharsInjective(event.eventId, f.event.eventId);
      CharsInjective(event.requestDigest, f.event.requestDigest);
    case DecisionEntry(_, decidedFor, _) => CharsInjective(decidedFor, f.decidedFor);
  }

  // ---- where texts begin and end --------------------------------------------------------

  predicate Plain(text: Bytes) { forall i :: 0 <= i < |text| ==> text[i] < START }

  lemma UnaryPlain(n: nat)
    ensures Plain(Unary(n))
  {}

  lemma {:induction false} NumbersPlain(ns: seq<nat>)
    ensures Plain(Numbers(ns))
  {
    if ns != [] {
      UnaryPlain(ns[0]);
      NumbersPlain(ns[1..]);
    }
  }

  lemma {:induction false} FieldsPlain(fields: seq<seq<nat>>)
    ensures Plain(Fields(fields))
  {
    if fields != [] {
      NumbersPlain(fields[0]);
      FieldsPlain(fields[1..]);
    }
  }

  /** An encoded entry starts, and stops, once. */
  lemma Marks(e: Entry)
    ensures var t := Encode(e);
            && |t| >= 2 && t[0] == START && t[|t| - 1] == STOP && NEWLINE !in t
            && (forall i :: 0 < i < |t| ==> t[i] != START) && (forall i :: 0 <= i < |t| - 1 ==> t[i] != STOP)
  {
    FieldsPlain(FieldsOf(e));
  }

  /** Two starts, at different places. */
  ghost predicate StartsTwice(text: Bytes) { exists i, j :: 0 <= i < j < |text| && text[i] == text[j] == START }

  ghost predicate EncodesAs(c: Codec) { forall e :: c.encode(e) == Encode(e) }

  lemma WrittenStarts(c: Codec, a: Attempt)
    requires EncodesAs(c) && a.bytes > 0
    ensures var t := Written(c, a.entry, a.bytes); t != [] && t[0] == START
  {}

  lemma FirstAttempt(c: Codec, attempts: seq<Attempt>)
    requires attempts != []
    ensures AfterAttempts(c, attempts) ==
              Written(c, attempts[0].entry, attempts[0].bytes) + AfterAttempts(c, attempts[1..])
  {}

  lemma InLater(a: Bytes, b: Bytes)
    requires START in b
    ensures START in a + b
  {
    var k :| 0 <= k < |b| && b[k] == START;
    assert (a + b)[|a| + k] == START;
  }

  lemma {:induction false} OneStart(c: Codec, attempts: seq<Attempt>, j: nat)
    requires EncodesAs(c) && j < |attempts| && attempts[j].bytes > 0
    ensures START in AfterAttempts(c, attempts)
  {
    hide EncodesAs, Written, AfterAttempts;
    var first, rest := Written(c, attempts[0].entry, attempts[0].bytes), AfterAttempts(c, attempts[1..]);
    FirstAttempt(c, attempts);
    if j == 0 {
      WrittenStarts(c, attempts[0]);
      assert (first + rest)[0] == START;
    } else {
      OneStart(c, attempts[1..], j - 1);
      InLater(first, rest);
    }
  }

  lemma {:induction false} TwoStarts(c: Codec, attempts: seq<Attempt>, i: nat, j: nat)
    requires EncodesAs(c) && i < j < |attempts|
    requires attempts[i].bytes > 0 && attempts[j].bytes > 0
    ensures StartsTwice(AfterAttempts(c, attempts))
  {
    hide EncodesAs, Written, AfterAttempts, StartsTwice;
    var first, rest := Written(c, attempts[0].entry, attempts[0].bytes), AfterAttempts(c, attempts[1..]);
    FirstAttempt(c, attempts);
    if i == 0 {
      WrittenStarts(c, attempts[0]);
      OneStart(c, attempts[1..], j - 1);
      StartsMeet(first, rest);
    } else {
      TwoStarts(c, attempts[1..], i - 1, j - 1);
      StartLater(first, rest);
    }
  }

  lemma StartsMeet(a: Bytes, b: Bytes)
    requires a != [] && a[0] == START && START in b
    ensures StartsTwice(a + b)
  {
    var k :| 0 <= k < |b| && b[k] == START;
    assert (a + b)[0] == START == (a + b)[|a| + k];
  }

  lemma StartLater(a: Bytes, b: Bytes)
    requires StartsTwice(b)
    ensures StartsTwice(a + b)
  {
    var k, l :| 0 <= k < l < |b| && b[k] == b[l] == START;
    assert (a + b)[|a| + k] == START == (a + b)[|a| + l];
  }

  // ---- the assumptions ------------------------------------------------------------------

  lemma ParseEncoded(e: Entry)
    ensures Parse(Encode(e)) == Some(e)
  {
    forall f | Encode(f) == Encode(e) ensures f == e { EncodeInjective(f, e); }
  }

  lemma ParsesEncodedOnly(text: Bytes)
    requires forall e :: Encode(e) != text
    ensures Parse(text) == None
  {}

  /** There is a codec that meets every assumption about one. */
  lemma CodecExists() returns (c: Codec)
    ensures ValidCodec(c) && SelfDelimiting(c)
  {
    c := Codec(e => Encode(e), text => Parse(text));
    forall e ensures c.parse(c.encode(e)) == Some(e) && NEWLINE !in c.encode(e) && c.encode(e) != [] {
      ParseEncoded(e);
      Marks(e);
    }
    forall e, n | 0 <= n < |c.encode(e)| ensures c.parse(c.encode(e)[..n]) == None {
      forall f ensures Encode(f) != Encode(e)[..n] {
        Marks(e);
        Marks(f);
      }
      ParsesEncodedOnly(Encode(e)[..n]);
    }
    forall attempts: seq<Attempt>, i: int, j: int
      | 0 <= i < j < |attempts| && attempts[i].bytes > 0 && attempts[j].bytes > 0
      ensures c.parse(AfterAttempts(c, attempts)) == None
    {
      TwoStarts(c, attempts, i, j);
      forall e ensures Encode(e) != AfterAttempts(c, attempts) { Marks(e); }
      ParsesEncodedOnly(AfterAttempts(c, attempts));
    }
  }
}
